/**
 * The study-time protocol end to end: the timer's one-second interval, the award effect
 * it triggers, the server's update-time and get-user routes, and the client's refresh of
 * its cached user (frontend/src/components/TimerPopup.jsx with server/routes/user.js and
 * frontend/src/contexts/AuthContext.jsx).
 */
module StudySession {
  import opened Wrappers
  import Text
  import UserRoutes
  import Auth
  import StudyTimer

  /** The reward boundaries (multiples of 30) in (lo, hi], in increasing order. */
  function Boundaries(lo: nat, hi: nat): (b: seq<nat>)
    ensures |b| == if hi <= lo then 0 else hi / StudyTimer.RewardIntervalSeconds - lo / StudyTimer.RewardIntervalSeconds
    decreases hi
  {
    if hi <= lo then []
    else Boundaries(lo, hi - 1) + (if hi % StudyTimer.RewardIntervalSeconds == 0 then [hi] else [])
  }

  /** Every boundary lies in (lo, hi] and is a multiple of 30, and they strictly increase. */
  lemma {:induction false} BoundariesShape(lo: nat, hi: nat)
    ensures forall i :: 0 <= i < |Boundaries(lo, hi)| ==>
      lo < Boundaries(lo, hi)[i] <= hi && Boundaries(lo, hi)[i] % StudyTimer.RewardIntervalSeconds == 0
    ensures forall i, j :: 0 <= i < j < |Boundaries(lo, hi)| ==> Boundaries(lo, hi)[i] < Boundaries(lo, hi)[j]
    decreases hi
  {
    if hi > lo {
      BoundariesShape(lo, hi - 1);
      var p := Boundaries(lo, hi - 1);
      var b := Boundaries(lo, hi);
      assert b == p + (if hi % StudyTimer.RewardIntervalSeconds == 0 then [hi] else []);
      forall i | 0 <= i < |b|
        ensures lo < b[i] <= hi && b[i] % StudyTimer.RewardIntervalSeconds == 0
      {
        if i < |p| {
          assert b[i] == p[i];
        }
      }
      forall i, j | 0 <= i < j < |b|
        ensures b[i] < b[j]
      {
        if j < |p| {
          assert b[i] == p[i] && b[j] == p[j];
        } else {
          assert b[i] == p[i] && b[j] == hi;
        }
      }
    }
  }

  /** How axios surfaces the update-time reply: any status but 200 is thrown. */
  function AwardReplyOf(resp: UserRoutes.Response): StudyTimer.AwardReply
  {
    if resp.Ok() && resp.body.PointsAdded? then StudyTimer.Replied(true, resp.body.points, resp.body.message)
    else StudyTimer.RequestFailed
  }

  /** How axios surfaces the get-user reply. */
  function FetchReplyOf(resp: UserRoutes.Response): Auth.FetchReply
  {
    if resp.Ok() && resp.body.UserFound? then Auth.Fetched(true, resp.body.user) else Auth.FetchFailed
  }

  /** The table after `points` more points for the account `id`. */
  ghost function Credited(accounts: map<UserRoutes.ObjectId, UserRoutes.Account>, id: UserRoutes.ObjectId, points: nat)
    : map<UserRoutes.ObjectId, UserRoutes.Account>
    requires id in accounts
  {
    accounts[id := accounts[id].(bonusPoints := accounts[id].bonusPoints + points)]
  }

  /** Two credits to the same account add up. */
  lemma CreditedTwice(accounts: map<UserRoutes.ObjectId, UserRoutes.Account>, id: UserRoutes.ObjectId, p: nat, q: nat)
    requires id in accounts
    ensures Credited(Credited(accounts, id, p), id, q) == Credited(accounts, id, p + q)
  {
  }

  /** Whether a client's id string names an account of the table, in any letter case. */
  predicate NamesAccount(accounts: map<UserRoutes.ObjectId, UserRoutes.Account>, userId: string) {
    UserRoutes.Cast(userId).Some? && UserRoutes.Cast(userId).value in accounts
  }

  /**
   * The award effect's `axios.post('/update-time', { userId })` against the server: when
   * the id names an account the client sees success with that account's old points plus
   * 10 and the award message, and the account is credited; for any other id (empty,
   * malformed or naming no account) the request fails and the table is unchanged.
   */
  method PostUpdateTime(server: UserRoutes.UserStore, userId: string) returns (reply: StudyTimer.AwardReply)
    requires server.Valid()
    modifies server
    ensures server.Valid()
    ensures NamesAccount(old(server.accounts), userId) ==>
      var id := UserRoutes.Cast(userId).value;
      && reply == StudyTimer.Replied(true, old(server.accounts)[id].bonusPoints + UserRoutes.PointsPerInterval, UserRoutes.AwardMessage)
      && server.accounts == Credited(old(server.accounts), id, UserRoutes.PointsPerInterval)
    ensures !NamesAccount(old(server.accounts), userId) ==>
      reply == StudyTimer.RequestFailed && server.accounts == old(server.accounts)
  {
    ghost var key := UserRoutes.Cast(userId);
    assert key.Some? ==> key.value == Text.Lower(userId);
    var resp := server.UpdateTime(Some(userId));
    reply := AwardReplyOf(resp);
  }

  /**
   * The context's `axios.get('/user/' + id)` against the server: when the id names an
   * account the client receives success and that account's public view under its stored
   * id; for any other id the request fails.
   */
  method FetchUser(server: UserRoutes.UserStore, userId: string) returns (fetched: Auth.FetchReply)
    ensures NamesAccount(server.accounts, userId) ==>
      var id := UserRoutes.Cast(userId).value;
      fetched == Auth.Fetched(true, UserRoutes.View(id, server.accounts[id]))
    ensures !NamesAccount(server.accounts, userId) ==> fetched == Auth.FetchFailed
  {
    var resp := server.GetUser(userId);
    fetched := FetchReplyOf(resp);
  }

  /**
   * One callback of the interval followed by the award effect, which, when it fires,
   * posts the user's id to the server and refreshes the user from it. A boundary is
   * rewarded, and the account credited 10 points, exactly when the new time is one.
   */
  method Second(timer: StudyTimer.TimerPopup, auth: Auth.AuthProvider, server: UserRoutes.UserStore, id: UserRoutes.ObjectId)
    requires timer.Valid() && timer.isRunning && server.Valid()
    requires auth.user.Some? && auth.user.value.id == id && id in server.accounts
    modifies timer, auth, server
    ensures timer.Valid() && timer.isRunning && timer.time == old(timer.time) + 1
    ensures var boundary := timer.time % StudyTimer.RewardIntervalSeconds == 0;
      && timer.awarded == old(timer.awarded) + (if boundary then [timer.time] else [])
      && server.accounts == Credited(old(server.accounts), id, if boundary then UserRoutes.PointsPerInterval else 0)
    ensures server.Valid() && auth.user.Some? && auth.user.value.id == id
  {
    timer.Tick();
    var outcome;
    var due := StudyTimer.AwardDue(true, timer.isRunning, timer.time, timer.lastRewardedTime);
    assert due <==> timer.time % StudyTimer.RewardIntervalSeconds == 0;
    if due {
      UserRoutes.CastOfId(id);
      var reply := PostUpdateTime(server, id);
      var fetched := FetchUser(server, id);
      assert reply.Replied? && reply.success;
      assert StudyTimer.HasValidId(auth.user);
      outcome := timer.AwardEffect(auth, reply, fetched);
      assert outcome == StudyTimer.Awarded;
    } else {
      outcome := timer.AwardEffect(auth, StudyTimer.RequestFailed, Auth.FetchFailed);
      assert outcome == StudyTimer.NotDue;
    }
  }

  /**
   * `seconds` callbacks of the interval of a running timer whose signed-in user has an
   * account. Every boundary crossed is rewarded exactly once, in order, and that account,
   * and no other, gains 10 points per boundary.
   */
  method RunInterval(timer: StudyTimer.TimerPopup, auth: Auth.AuthProvider, server: UserRoutes.UserStore, seconds: nat)
    requires timer.Valid() && timer.isRunning && server.Valid()
    requires auth.user.Some? && auth.user.value.id in server.accounts
    modifies timer, auth, server
    ensures timer.Valid() && timer.isRunning && timer.time == old(timer.time) + seconds
    ensures timer.awarded == old(timer.awarded) + Boundaries(old(timer.time), timer.time)
    ensures server.Valid() && auth.user.Some? && auth.user.value.id == old(auth.user.value.id)
    ensures server.accounts == Credited(old(server.accounts), old(auth.user.value.id),
      UserRoutes.PointsPerInterval * |Boundaries(old(timer.time), timer.time)|)
  {
    var id: UserRoutes.ObjectId := auth.user.value.id;
    var t0 := timer.time;
    var a0 := timer.awarded;
    var accounts0 := server.accounts;
    var k := 0;
    while k < seconds
      invariant 0 <= k <= seconds
      invariant timer.Valid() && timer.isRunning && timer.time == t0 + k
      invariant timer.awarded == a0 + Boundaries(t0, timer.time)
      invariant server.Valid() && auth.user.Some? && auth.user.value.id == id && id in server.accounts
      invariant server.accounts == Credited(accounts0, id, UserRoutes.PointsPerInterval * |Boundaries(t0, timer.time)|)
    {
      Second(timer, auth, server, id);
      assert Boundaries(t0, timer.time) == Boundaries(t0, timer.time - 1)
        + (if timer.time % StudyTimer.RewardIntervalSeconds == 0 then [timer.time] else []);
      k := k + 1;
    }
  }

  /** Running 65 seconds from zero rewards the boundaries 30 and 60, and no others. */
  lemma SixtyFiveSeconds()
    ensures Boundaries(0, 65) == [30, 60]
  {
    var b := Boundaries(0, 65);
    BoundariesShape(0, 65);
    assert |b| == 2;
    assert b[0] % 30 == 0 && 0 < b[0] && b[1] % 30 == 0 && b[1] <= 65 && b[0] < b[1];
  }
}
