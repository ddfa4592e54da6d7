/**
 * The study timer (frontend/src/components/TimerPopup.jsx): elapsed seconds, the running
 * flag and the last rewarded boundary, advanced by ticks, toggled, reset, and checked by
 * the award effect that asks the server for points at every 30-second boundary.
 *
 * The award is one atomic step: the server's reply and the refreshed user are its
 * parameters, and nothing else happens between the check and the update of the guard.
 */
module StudyTimer {
  import Text
  import Auth
  import opened Wrappers

  const RewardIntervalSeconds: nat := 30
  /** The points shown after an award; the server adds the same amount. */
  const PointsPerInterval: nat := 10

  /** `formatTime(seconds)`: HH:MM:SS, each part at least two digits. */
  function FormatTime(seconds: nat): string {
    var hours := seconds / 3600;
    var minutes := (seconds % 3600) / 60;
    var secs := seconds % 60;
    Text.PadStart2(Text.Decimal(hours)) + ":" + Text.PadStart2(Text.Decimal(minutes)) + ":" + Text.PadStart2(Text.Decimal(secs))
  }

  lemma ClockArithmetic(seconds: nat)
    ensures (seconds % 3600) / 60 < 60
    ensures (seconds / 3600) * 3600 + ((seconds % 3600) / 60) * 60 + seconds % 60 == seconds
  {
    var h, q := seconds / 3600, seconds % 3600;
    var m, s := q / 60, q % 60;
    assert seconds == 3600 * h + 60 * m + s;
    assert seconds % 60 == s by {
      assert seconds == 60 * (60 * h + m) + s;
    }
  }

  /**
   * The rendering reads back: the last two fields have exactly two digits each, below 60,
   * and hours * 3600 + minutes * 60 + seconds gives back the input.
   */
  lemma FormatTimeRoundTrip(seconds: nat)
    ensures var r := FormatTime(seconds); var n := |r|;
      && n >= 8 && r[n - 6] == ':' && r[n - 3] == ':'
      && Text.IsDigits(r[..n - 6]) && Text.IsDigits(r[n - 5..n - 3]) && Text.IsDigits(r[n - 2..])
      && Text.ParseDecimal(r[n - 5..n - 3]) < 60 && Text.ParseDecimal(r[n - 2..]) < 60
      && Text.ParseDecimal(r[..n - 6]) * 3600 + Text.ParseDecimal(r[n - 5..n - 3]) * 60
           + Text.ParseDecimal(r[n - 2..]) == seconds
  {
    var hours, minutes, secs := seconds / 3600, (seconds % 3600) / 60, seconds % 60;
    ClockArithmetic(seconds);
    var H, M, S := Text.PadStart2(Text.Decimal(hours)), Text.PadStart2(Text.Decimal(minutes)), Text.PadStart2(Text.Decimal(secs));
    Text.PaddedValue(hours);
    Text.TwoDigits(minutes);
    Text.TwoDigits(secs);
    var r := FormatTime(seconds);
    var n := |r|;
    assert r == H + ":" + M + ":" + S;
    assert r[..n - 6] == H;
    assert r[n - 5..n - 3] == M;
    assert r[n - 2..] == S;
  }

  /** The server's answer to POST /update-time as the client sees it. */
  datatype AwardReply = RequestFailed | Replied(success: bool, points: nat, message: string)

  datatype AwardOutcome =
    | NotDue      // the guard did not fire
    | BadUserId   // the user id is not 24 hex digits: no request, an error toast
    | Awarded     // the server confirmed the award
    | NoSuccess   // the server replied without `success`
    | Failed      // the request failed: an error toast

  /** The award guard: a user, a running timer, at least 30 seconds, a boundary, not yet rewarded. */
  predicate AwardDue(hasUser: bool, running: bool, time: nat, lastRewarded: nat) {
    && hasUser && running && time != 0 && time >= RewardIntervalSeconds
    && time % RewardIntervalSeconds == 0 && time != lastRewarded
  }

  predicate HasValidId(user: Option<Auth.ClientUser>) {
    user.Some? && Text.IsObjectId(user.value.id)
  }

  class TimerPopup {
    var time: nat
    var isRunning: bool
    var lastRewardedTime: nat
    var showReward: bool
    var rewardPoints: nat
    /** The one error toast (id 'update-time-error'): repeated failures show it once. */
    var errorToast: bool
    /** The boundaries rewarded since the last reset, in order. */
    ghost var awarded: seq<nat>

    /**
     * The guard records 0 or the latest rewarded boundary, a multiple of 30 not beyond
     * the elapsed time; the rewarded boundaries strictly increase, so none is rewarded twice.
     */
    ghost predicate Valid()
      reads this
    {
      && lastRewardedTime % RewardIntervalSeconds == 0
      && lastRewardedTime <= time
      && (awarded == [] ==> lastRewardedTime == 0)
      && (awarded != [] ==> lastRewardedTime == awarded[|awarded| - 1])
      && (forall i, j :: 0 <= i < j < |awarded| ==> awarded[i] < awarded[j])
      && (forall i :: 0 <= i < |awarded| ==> awarded[i] > 0 && awarded[i] % RewardIntervalSeconds == 0)
    }

    constructor ()
      ensures Valid() && awarded == []
      ensures time == 0 && !isRunning && lastRewardedTime == 0
      ensures !showReward && rewardPoints == 0 && !errorToast
    {
      time, isRunning, lastRewardedTime := 0, false, 0;
      showReward, rewardPoints, errorToast := false, 0, false;
      awarded := [];
    }

    /** `toggleTimer`: flips the running flag and nothing else. */
    method Toggle()
      requires Valid()
      modifies this
      ensures Valid()
      ensures isRunning == !old(isRunning)
      ensures time == old(time) && lastRewardedTime == old(lastRewardedTime) && awarded == old(awarded)
      ensures showReward == old(showReward) && rewardPoints == old(rewardPoints) && errorToast == old(errorToast)
    {
      isRunning := !isRunning;
    }

    /** `resetTimer`: back to zero, stopped, guard cleared, from any state. */
    method Reset()
      modifies this
      ensures Valid() && awarded == []
      ensures time == 0 && !isRunning && lastRewardedTime == 0
      ensures showReward == old(showReward) && rewardPoints == old(rewardPoints) && errorToast == old(errorToast)
    {
      time, isRunning, lastRewardedTime := 0, false, 0;
      awarded := [];
    }

    /** One interval callback: only while running, one second more, nothing else. */
    method Tick()
      requires Valid() && isRunning
      modifies this
      ensures Valid()
      ensures time == old(time) + 1
      ensures isRunning && lastRewardedTime == old(lastRewardedTime) && awarded == old(awarded)
      ensures showReward == old(showReward) && rewardPoints == old(rewardPoints) && errorToast == old(errorToast)
    {
      time := time + 1;
    }

    /**
     * The award effect. When the guard does not fire nothing happens. A user id that is
     * not 24 hex digits fails before any request. Only a reply with `success` moves the
     * guard to the current boundary, shows +10 and refreshes the user from `refreshed`;
     * a failed request raises the error toast and leaves the guard where it was.
     */
    method AwardEffect(auth: Auth.AuthProvider, reply: AwardReply, refreshed: Auth.FetchReply)
      returns (outcome: AwardOutcome)
      requires Valid()
      modifies this, auth
      ensures Valid()
      ensures time == old(time) && isRunning == old(isRunning)
      ensures auth.storage == old(auth.storage) && auth.authHeader == old(auth.authHeader)
      ensures auth.loading == old(auth.loading)
      ensures var due := AwardDue(old(auth.user).Some?, isRunning, time, old(lastRewardedTime));
        && (outcome == NotDue <==> !due)
        && (outcome == BadUserId <==> due && !HasValidId(old(auth.user)))
        && (outcome == Failed <==> due && HasValidId(old(auth.user)) && reply.RequestFailed?)
        && (outcome == NoSuccess <==> due && HasValidId(old(auth.user)) && reply.Replied? && !reply.success)
        && (outcome == Awarded <==> due && HasValidId(old(auth.user)) && reply.Replied? && reply.success)
      ensures outcome == Awarded ==>
        && lastRewardedTime == time && awarded == old(awarded) + [time]
        && showReward && rewardPoints == PointsPerInterval && errorToast == old(errorToast)
        && auth.user == (if refreshed.Fetched? && refreshed.success then Some(Auth.FromServer(refreshed.user))
                         else old(auth.user))
      ensures outcome != Awarded ==>
        && lastRewardedTime == old(lastRewardedTime) && awarded == old(awarded)
        && showReward == old(showReward) && rewardPoints == old(rewardPoints) && auth.user == old(auth.user)
        && errorToast == (old(errorToast) || outcome == BadUserId || outcome == Failed)
    {
      if !AwardDue(auth.user.Some?, isRunning, time, lastRewardedTime) {
        return NotDue;
      }
      var id := auth.user.value.id;
      if !Text.IsObjectId(id) {
        errorToast := true;
        return BadUserId;
      }
      match reply
      case RequestFailed =>
        errorToast := true;
        outcome := Failed;
      case Replied(success, _, _) =>
        if !success {
          return NoSuccess;
        }
        rewardPoints := PointsPerInterval;
        showReward := true;
        auth.GetUser(refreshed);
        lastRewardedTime := time;
        awarded := awarded + [time];
        outcome := Awarded;
    }
  }
}
