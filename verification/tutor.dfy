/**
 * The tutor chat (frontend/src/pages/AITutor.jsx): the HTML escaping of what the student
 * types, the guarded send that appends the student's message, and the typing loop that
 * reveals the tutor's reply three characters at a time in the last message.
 *
 * The tutor's reply is a parameter of the send: the formatted reply, or the message of
 * the error the request failed with.
 */
module Tutor {
  import opened Wrappers
  import Text

  // ---------------------------------------------------------------------------
  // Escaping

  /** `escapeHtml`: five global replacements in a row, `&` first. */
  function EscapeHtml(s: string): string {
    var amp := Text.Replace(s, '&', "&amp;");
    var lt := Text.Replace(amp, '<', "&lt;");
    var gt := Text.Replace(lt, '>', "&gt;");
    var quot := Text.Replace(gt, '"', "&quot;");
    Text.Replace(quot, '\'', "&#039;")
  }

  /** The entity of one character: the five special ones get theirs, every other stays itself. */
  function EscapeChar(c: char): string {
    match c
    case '&' => "&amp;"
    case '<' => "&lt;"
    case '>' => "&gt;"
    case '"' => "&quot;"
    case '\'' => "&#039;"
    case _ => [c]
  }

  /** The reference encoder: each character replaced by its entity, independently of the others. */
  function Escaped(s: string): string {
    if s == [] then [] else EscapeChar(s[0]) + Escaped(s[1..])
  }

  lemma EscapeHtmlAppend(a: string, b: string)
    ensures EscapeHtml(a + b) == EscapeHtml(a) + EscapeHtml(b)
  {
    var a1, b1 := Text.Replace(a, '&', "&amp;"), Text.Replace(b, '&', "&amp;");
    Text.ReplaceAppend(a, b, '&', "&amp;");
    var a2, b2 := Text.Replace(a1, '<', "&lt;"), Text.Replace(b1, '<', "&lt;");
    Text.ReplaceAppend(a1, b1, '<', "&lt;");
    var a3, b3 := Text.Replace(a2, '>', "&gt;"), Text.Replace(b2, '>', "&gt;");
    Text.ReplaceAppend(a2, b2, '>', "&gt;");
    var a4, b4 := Text.Replace(a3, '"', "&quot;"), Text.Replace(b3, '"', "&quot;");
    Text.ReplaceAppend(a3, b3, '"', "&quot;");
    Text.ReplaceAppend(a4, b4, '\'', "&#039;");
  }

  lemma ReplaceOne(c: char, x: char, rep: string)
    ensures Text.Replace([c], x, rep) == if c == x then rep else [c]
  {
    assert [c][1..] == [];
  }

  /** The chain on one character, given the result of its first step. */
  lemma ChainFrom(c: char, amp: string)
    requires amp == Text.Replace([c], '&', "&amp;")
    ensures EscapeHtml([c]) ==
      Text.Replace(Text.Replace(Text.Replace(Text.Replace(amp, '<', "&lt;"), '>', "&gt;"), '"', "&quot;"), '\'', "&#039;")
  {
  }

  /** The last steps leave a string alone when it holds none of their characters. */
  lemma ChainTail(x: string, from: nat)
    requires from <= 4
    requires from <= 1 ==> '<' !in x
    requires from <= 2 ==> '>' !in x
    requires from <= 3 ==> '"' !in x
    requires '\'' !in x
    ensures from == 1 ==> Text.Replace(Text.Replace(Text.Replace(Text.Replace(x, '<', "&lt;"), '>', "&gt;"), '"', "&quot;"), '\'', "&#039;") == x
    ensures from == 2 ==> Text.Replace(Text.Replace(Text.Replace(x, '>', "&gt;"), '"', "&quot;"), '\'', "&#039;") == x
    ensures from == 3 ==> Text.Replace(Text.Replace(x, '"', "&quot;"), '\'', "&#039;") == x
    ensures from == 4 ==> Text.Replace(x, '\'', "&#039;") == x
  {
  }

  /** Each special character, on its own, becomes its entity and nothing more. */
  lemma EscapeHtmlSpecial(c: char)
    requires c == '&' || c == '<' || c == '>' || c == '"' || c == '\''
    ensures EscapeHtml([c]) == EscapeChar(c)
  {
    if c == '&' {
      EscapeHtmlAmp(c, "&amp;");
    } else {
      ReplaceOne(c, '&', "&amp;");
      ChainFrom(c, [c]);
      EscapeHtmlNotAmp(c);
    }
  }

  lemma EscapeHtmlAmp(c: char, e: string)
    requires c == '&' && e == "&amp;"
    ensures EscapeHtml([c]) == e
  {
    AmpFirstStep(c);
    AmpEntityPlain(e);
    ChainTailAll(e);
  }

  lemma AmpFirstStep(c: char)
    requires c == '&'
    ensures EscapeHtml([c]) ==
      Text.Replace(Text.Replace(Text.Replace(Text.Replace("&amp;", '<', "&lt;"), '>', "&gt;"), '"', "&quot;"), '\'', "&#039;")
  {
    ReplaceOne(c, '&', "&amp;");
    ChainFrom(c, "&amp;");
  }

  lemma AmpEntityPlain(e: string)
    requires e == "&amp;"
    ensures '<' !in e && '>' !in e && '"' !in e && '\'' !in e
  {
  }

  lemma ChainTailAll(x: string)
    requires '<' !in x && '>' !in x && '"' !in x && '\'' !in x
    ensures Text.Replace(Text.Replace(Text.Replace(Text.Replace(x, '<', "&lt;"), '>', "&gt;"), '"', "&quot;"), '\'', "&#039;") == x
  {
  }

  lemma EscapeHtmlNotAmp(c: char)
    requires c == '<' || c == '>' || c == '"' || c == '\''
    ensures Text.Replace(Text.Replace(Text.Replace(Text.Replace([c], '<', "&lt;"), '>', "&gt;"), '"', "&quot;"), '\'', "&#039;")
      == EscapeChar(c)
  {
    ReplaceOne(c, '<', "&lt;");
    if c == '<' {
      ChainTail("&lt;", 2);
    } else {
      ReplaceOne(c, '>', "&gt;");
      if c == '>' {
        ChainTail("&gt;", 3);
      } else {
        ReplaceOne(c, '"', "&quot;");
        if c == '"' {
          ChainTail("&quot;", 4);
        } else {
          ReplaceOne(c, '\'', "&#039;");
        }
      }
    }
  }

  lemma EscapeHtmlOther(c: char)
    requires c != '&' && c != '<' && c != '>' && c != '"' && c != '\''
    ensures EscapeHtml([c]) == [c]
  {
    ReplaceOne(c, '&', "&amp;");
    ChainFrom(c, [c]);
    ChainTail([c], 1);
  }

  lemma EscapeHtmlChar(c: char)
    ensures EscapeHtml([c]) == EscapeChar(c)
  {
    if c == '&' || c == '<' || c == '>' || c == '"' || c == '\'' {
      EscapeHtmlSpecial(c);
    } else {
      EscapeHtmlOther(c);
    }
  }

  /** No tag or attribute delimiter survives escaping. */
  lemma {:induction false} EscapeHtmlSafe(s: string)
    ensures var r := EscapeHtml(s); '<' !in r && '>' !in r && '"' !in r && '\'' !in r
  {
    EscapeHtmlIsPerChar(s);
    EscapedSafe(s);
  }

  lemma {:induction false} EscapedSafe(s: string)
    ensures var r := Escaped(s); '<' !in r && '>' !in r && '"' !in r && '\'' !in r
  {
    if s != [] {
      EscapedSafe(s[1..]);
      EscapeCharSafe(s[0]);
      assert Escaped(s) == EscapeChar(s[0]) + Escaped(s[1..]);
    }
  }

  lemma EscapeCharSafe(c: char)
    ensures var e := EscapeChar(c); '<' !in e && '>' !in e && '"' !in e && '\'' !in e
  {
  }

  /** Text without any of the five characters is shown as it is. */
  lemma {:induction false} EscapeHtmlPlain(s: string)
    requires '&' !in s && '<' !in s && '>' !in s && '"' !in s && '\'' !in s
    ensures EscapeHtml(s) == s
  {
    EscapeHtmlIsPerChar(s);
    EscapedPlain(s);
  }

  lemma {:induction false} EscapedPlain(s: string)
    requires '&' !in s && '<' !in s && '>' !in s && '"' !in s && '\'' !in s
    ensures Escaped(s) == s
  {
    if s != [] {
      var c, rest := s[0], s[1..];
      assert c in s;
      assert s == [c] + rest;
      assert EscapeChar(c) == [c];
      EscapedPlain(rest);
    }
  }

  /**
   * Replacing `&` first makes the chain a per-character encoding: the `&` of an inserted
   * entity is never escaped again.
   */
  lemma {:induction false} EscapeHtmlIsPerChar(s: string)
    ensures EscapeHtml(s) == Escaped(s)
  {
    if s != [] {
      assert s == [s[0]] + s[1..];
      EscapeHtmlAppend([s[0]], s[1..]);
      EscapeHtmlChar(s[0]);
      EscapeHtmlIsPerChar(s[1..]);
    }
  }

  /** The decoder of the five entities. */
  function Unescape(s: string): string
    decreases |s|
  {
    if s == [] then []
    else if "&amp;" <= s then "&" + Unescape(s[5..])
    else if "&lt;" <= s then "<" + Unescape(s[4..])
    else if "&gt;" <= s then ">" + Unescape(s[4..])
    else if "&quot;" <= s then "\"" + Unescape(s[6..])
    else if "&#039;" <= s then "'" + Unescape(s[6..])
    else [s[0]] + Unescape(s[1..])
  }

  lemma UnescapeAmp(rest: string)
    ensures Unescape("&amp;" + rest) == "&" + Unescape(rest)
  {
    var e := "&amp;" + rest;
    assert "&amp;" <= e && e[5..] == rest;
  }

  lemma UnescapeLt(rest: string)
    ensures Unescape("&lt;" + rest) == "<" + Unescape(rest)
  {
    var e := "&lt;" + rest;
    assert e[1] == 'l';
    assert "&lt;" <= e && e[4..] == rest;
  }

  lemma UnescapeGt(rest: string)
    ensures Unescape("&gt;" + rest) == ">" + Unescape(rest)
  {
    var e := "&gt;" + rest;
    assert e[1] == 'g';
    assert "&gt;" <= e && e[4..] == rest;
  }

  lemma UnescapeQuot(rest: string)
    ensures Unescape("&quot;" + rest) == "\"" + Unescape(rest)
  {
    var e := "&quot;" + rest;
    assert e[1] == 'q';
    assert "&quot;" <= e && e[6..] == rest;
  }

  lemma UnescapeApos(rest: string)
    ensures Unescape("&#039;" + rest) == "'" + Unescape(rest)
  {
    var e := "&#039;" + rest;
    assert e[1] == '#';
    assert "&#039;" <= e && e[6..] == rest;
  }

  lemma UnescapeChar(c: char, rest: string)
    ensures Unescape(EscapeChar(c) + rest) == [c] + Unescape(rest)
  {
    if c == '&' {
      UnescapeAmp(rest);
    } else if c == '<' {
      UnescapeLt(rest);
    } else if c == '>' {
      UnescapeGt(rest);
    } else if c == '"' {
      UnescapeQuot(rest);
    } else if c == '\'' {
      UnescapeApos(rest);
    } else {
      var e := EscapeChar(c) + rest;
      assert e[0] == c && e[1..] == rest;
    }
  }

  /** Escaping loses nothing: decoding gives the input back. */
  lemma {:induction false} EscapeRoundTrip(s: string)
    ensures Unescape(EscapeHtml(s)) == s
  {
    EscapeHtmlIsPerChar(s);
    EscapedRoundTrip(s);
  }

  lemma {:induction false} EscapedRoundTrip(s: string)
    ensures Unescape(Escaped(s)) == s
  {
    if s != [] {
      UnescapeChar(s[0], Escaped(s[1..]));
      EscapedRoundTrip(s[1..]);
      assert s == [s[0]] + s[1..];
    }
  }

  /** Distinct inputs are shown as distinct texts. */
  lemma EscapeInjective(a: string, b: string)
    requires EscapeHtml(a) == EscapeHtml(b)
    ensures a == b
  {
    EscapeRoundTrip(a);
    EscapeRoundTrip(b);
  }

  // ---------------------------------------------------------------------------
  // The chat

  datatype Role = User | Bot
  datatype Message = Message(role: Role, text: string)

  const Greeting := Message(Bot, "Hello! I'm your AI tutor. What subject or concept would you like to learn about today?")
  const ChunkSize: nat := 3
  const ErrorPrefix: string := "\U{274C} Error: "

  /** How many characters of an n-character reply are on screen after `steps` steps. */
  function Shown(steps: nat, n: nat): nat {
    if ChunkSize * steps < n then ChunkSize * steps else n
  }

  /** The number of typing steps for a reply of `n` characters: n / 3 rounded up. */
  function TypingSteps(n: nat): (k: nat)
    ensures ChunkSize * k >= n && (k == 0 || ChunkSize * (k - 1) < n)
  {
    (n + ChunkSize - 1) / ChunkSize
  }

  class TutorChat {
    var messages: seq<Message>
    var input: string
    var isTyping: bool

    constructor ()
      ensures messages == [Greeting] && input == "" && !isTyping
    {
      messages, input, isTyping := [Greeting], "", false;
    }

    /**
     * `typeBotMessage`: appends an empty tutor message and then, step by step, makes
     * its text the next longer prefix of the reply, at most three characters longer each
     * time, until it is the whole reply. Earlier messages are never touched. `shown`
     * records the text on screen after each step.
     */
    method TypeBotMessage(html: string) returns (steps: nat, ghost shown: seq<string>)
      modifies this
      ensures messages == old(messages) + [Message(Bot, html)]
      ensures steps == TypingSteps(|html|) && |shown| == steps
      ensures forall k :: 0 <= k < |shown| ==> shown[k] == html[..Shown(k + 1, |html|)]
      ensures input == old(input) && isTyping == old(isTyping)
    {
      messages := messages + [Message(Bot, "")];
      var i := 0;
      steps := 0;
      shown := [];
      while i < |html|
        invariant 0 <= i <= |html|
        invariant |messages| == |old(messages)| + 1 && messages[..|messages| - 1] == old(messages)
        invariant messages[|messages| - 1] == Message(Bot, html[..i])
        invariant i == Shown(steps, |html|)
        invariant steps == 0 || ChunkSize * (steps - 1) < |html|
        invariant |shown| == steps && forall k :: 0 <= k < |shown| ==> shown[k] == html[..Shown(k + 1, |html|)]
        invariant input == old(input) && isTyping == old(isTyping)
        decreases |html| - i
      {
        var chunkEnd := if i + ChunkSize < |html| then i + ChunkSize else |html|;
        messages := messages[|messages| - 1 := Message(Bot, html[..chunkEnd])];
        i := chunkEnd;
        steps := steps + 1;
        shown := shown + [html[..i]];
      }
      assert html[..i] == html;
    }

    /**
     * `sendMessage`. Input that trims to nothing is ignored. Otherwise the student's text,
     * escaped, is appended and the input cleared; then either the reply is typed out as
     * one more tutor message or exactly one tutor message reporting the error follows.
     */
    method SendMessage(reply: Result<string, string>) returns (sent: bool)
      modifies this
      ensures sent <==> !Text.IsBlank(old(input))
      ensures !sent ==> messages == old(messages) && input == old(input) && isTyping == old(isTyping)
      ensures sent ==>
        && input == "" && !isTyping
        && messages == old(messages) + [Message(User, EscapeHtml(old(input)))]
                       + [if reply.Success? then Message(Bot, reply.value) else Message(Bot, ErrorPrefix + reply.error)]
    {
      // `!input.trim()`, which is IsBlank by Text.TrimEmptyIffBlank
      if Text.IsBlank(input) {
        return false;
      }
      sent := true;
      messages := messages + [Message(User, EscapeHtml(input))];
      input := "";
      isTyping := true;
      if reply.Success? {
        var _, _ := TypeBotMessage(reply.value);
      } else {
        messages := messages + [Message(Bot, ErrorPrefix + reply.error)];
      }
      isTyping := false;
    }
  }
}
