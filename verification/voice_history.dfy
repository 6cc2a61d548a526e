/** `buildMessages`: the conversation so far is sent to the model as a single
    user message, a plain-text session log followed by the new input. The
    serialisation of a tool call's input (`JSON.stringify`) is a parameter. */
module VoiceHistory {
  import opened Wrappers
  import opened Strings
  import opened VoiceTypes

  /** `name(input)` for one tool call. */
  function CallText(c: ToolCall, stringify: ToolInput -> string): string {
    c.name + "(" + stringify(c.input) + ")"
  }

  function CallTexts(calls: seq<ToolCall>, stringify: ToolInput -> string): (r: seq<string>)
    ensures |r| == |calls|
    ensures forall i :: 0 <= i < |calls| ==> r[i] == CallText(calls[i], stringify)
  {
    if |calls| == 0 then [] else CallTexts(calls[..|calls| - 1], stringify) + [CallText(calls[|calls| - 1], stringify)]
  }

  /** A JavaScript truthiness test on a `string | null`. */
  predicate Truthy(s: Option<string>) {
    s.Some? && s.value != ""
  }

  /** The line that gives the clinician's words. */
  function ClinicianLine(words: string): string {
    "Clinician: " + words
  }

  function TurnHeader(n: nat): string {
    "\n[Turn " + NatToString(n) + "]"
  }

  /** The log lines of turn number `n`: its header, the clinician's words,
      the actions if any, the assistant's text if any, and "Actions: (none)"
      when there are neither. */
  function TurnLines(n: nat, turn: ConversationTurn, stringify: ToolInput -> string): (r: seq<string>)
    ensures 3 <= |r| <= 4
    ensures r[0] == TurnHeader(n) && r[1] == ClinicianLine(turn.transcript)
    ensures |r| == 4 <==> |turn.toolCalls| > 0 && Truthy(turn.textResponse)
    ensures |turn.toolCalls| == 0 && !Truthy(turn.textResponse) ==> r[2] == "Actions: (none)"
    ensures |turn.toolCalls| > 0 ==> r[2] == "Actions: " + Join(CallTexts(turn.toolCalls, stringify), ", ")
    ensures Truthy(turn.textResponse) ==> r[|r| - 1] == "Assistant: " + turn.textResponse.value
  {
    var actions := if |turn.toolCalls| > 0 then ["Actions: " + Join(CallTexts(turn.toolCalls, stringify), ", ")] else [];
    var text := if Truthy(turn.textResponse) then ["Assistant: " + turn.textResponse.value] else [];
    var none := if |turn.toolCalls| == 0 && !Truthy(turn.textResponse) then ["Actions: (none)"] else [];
    [TurnHeader(n), ClinicianLine(turn.transcript)] + actions + text + none
  }

  /** The log lines of all turns, numbered from 1 in history order. */
  function HistoryLines(history: seq<ConversationTurn>, stringify: ToolInput -> string): (r: seq<string>)
    ensures 3 * |history| <= |r| <= 4 * |history|
  {
    if |history| == 0 then []
    else HistoryLines(history[..|history| - 1], stringify) + TurnLines(|history|, history[|history| - 1], stringify)
  }

  /** The first line of a session log, and the line before the new input. */
  const SessionHeader: string := "--- Session history ---"
  const NewInputMarker: string := "\n--- New input ---"

  /** `buildMessages`: always one user message. Without history it is the new
      transcript itself. With history it opens with the session header and
      closes with the new-input marker and the transcript. */
  function BuildMessages(history: seq<ConversationTurn>, transcript: string, stringify: ToolInput -> string): (r: seq<Message>)
    ensures |r| == 1 && r[0].role == User
    ensures |history| == 0 ==> r[0].content == transcript
    ensures |history| > 0 ==>
              && SessionHeader + "\n" <= r[0].content
              && EndsWith(r[0].content, "\n" + NewInputMarker + "\n" + transcript)
  {
    if |history| == 0 then [Message(User, transcript)]
    else
      var hl := HistoryLines(history, stringify);
      FramedJoin(SessionHeader, hl, NewInputMarker, transcript, "\n");
      [Message(User, Join([SessionHeader] + hl + [NewInputMarker, transcript], "\n"))]
  }

  /** A log framed by a header line and two closing lines starts with the
      header and ends with the two closing lines. */
  lemma {:induction false} FramedJoin(header: string, body: seq<string>, m: string, t: string, sep: string)
    requires |body| > 0
    ensures var log := Join([header] + body + [m, t], sep);
            && header + sep <= log
            && EndsWith(log, sep + m + sep + t)
  {
    var head := [header] + body;
    var tail := [m, t];
    assert [header] + body + [m, t] == head + tail;
    JoinAppend(head, tail, sep);
    JoinAppend([header], body, sep);
    assert Join(tail, sep) == m + sep + t by {
      assert tail[1..] == [t];
    }
    var j := Join(head, sep);
    var log := j + sep + (m + sep + t);
    var suffix := sep + m + sep + t;
    assert log == j + suffix;
    assert log[|log| - |suffix|..] == suffix;
    assert j == header + sep + Join(body, sep);
    assert log == header + sep + (Join(body, sep) + suffix);
  }

  /** A new turn extends the log: earlier turns keep their lines and their
      numbers, and the new one is numbered one past the old length. */
  lemma HistoryLinesAppend(history: seq<ConversationTurn>, turn: ConversationTurn, stringify: ToolInput -> string)
    ensures HistoryLines(history + [turn], stringify)
         == HistoryLines(history, stringify) + TurnLines(|history| + 1, turn, stringify)
  {
    assert (history + [turn])[..|history|] == history;
  }

  /** Where turn `i` (counted from 0) starts in the log. */
  function TurnStart(history: seq<ConversationTurn>, i: nat, stringify: ToolInput -> string): nat
    requires i <= |history|
  {
    |HistoryLines(history[..i], stringify)|
  }

  /** Turns are numbered 1..n in order: turn `i` opens with the header for
      number `i + 1`, and the clinician line right after it is that turn's
      transcript. */
  lemma TurnsNumberedInOrder(history: seq<ConversationTurn>, i: nat, stringify: ToolInput -> string)
    requires i < |history|
    ensures TurnStart(history, i, stringify) + 1 < |HistoryLines(history, stringify)|
    ensures HistoryLines(history, stringify)[TurnStart(history, i, stringify)] == TurnHeader(i + 1)
    ensures HistoryLines(history, stringify)[TurnStart(history, i, stringify) + 1] == ClinicianLine(history[i].transcript)
  {
    var rest := HistorySplit(history, i, stringify);
    PairAfterFront(HistoryLines(history[..i], stringify), TurnLines(i + 1, history[i], stringify), rest);
  }

  /** The log splits around turn `i`: the lines of the turns before it, its
      own lines, and the lines of the turns after it. */
  lemma HistorySplit(history: seq<ConversationTurn>, i: nat, stringify: ToolInput -> string) returns (rest: seq<string>)
    requires i < |history|
    ensures HistoryLines(history, stringify)
         == HistoryLines(history[..i], stringify) + TurnLines(i + 1, history[i], stringify) + rest
  {
    LinesUpTo(history, i, stringify);
    LinesUpToWithin(history, i + 1, stringify);
    rest := SplitAtPrefix(HistoryLines(history, stringify), HistoryLines(history[..i + 1], stringify),
                          HistoryLines(history[..i], stringify), TurnLines(i + 1, history[i], stringify));
  }

  /** The lines up to turn `i` are those before it and its own. */
  lemma LinesUpTo(history: seq<ConversationTurn>, i: nat, stringify: ToolInput -> string)
    requires i < |history|
    ensures HistoryLines(history[..i + 1], stringify)
         == HistoryLines(history[..i], stringify) + TurnLines(i + 1, history[i], stringify)
  {
    assert history[..i + 1] == history[..i] + [history[i]];
    HistoryLinesAppend(history[..i], history[i], stringify);
  }

  /** The lines of the first `i` turns open the whole log. */
  lemma LinesUpToWithin(history: seq<ConversationTurn>, i: nat, stringify: ToolInput -> string)
    requires i <= |history|
    ensures HistoryLines(history[..i], stringify) <= HistoryLines(history, stringify)
  {
    HistoryLinesPrefix(history, i, |history|, stringify);
    assert history[..|history|] == history;
  }

  /** A sequence that opens with `front + piece` is `front + piece` and
      what follows. */
  lemma SplitAtPrefix(whole: seq<string>, upto: seq<string>, front: seq<string>, piece: seq<string>)
    returns (rest: seq<string>)
    requires upto <= whole && upto == front + piece
    ensures whole == front + piece + rest
  {
    rest := whole[|upto|..];
    assert whole == upto + rest;
  }

  /** The first two elements of a piece stand right after what precedes it. */
  lemma PairAfterFront(front: seq<string>, piece: seq<string>, rest: seq<string>)
    requires |piece| >= 2
    ensures |front| + 1 < |front + piece + rest|
    ensures (front + piece + rest)[|front|] == piece[0]
    ensures (front + piece + rest)[|front| + 1] == piece[1]
  {
  }

  /** The log lines of a shorter history open the log of a longer one, and
      every further turn adds at least three lines. */
  lemma {:induction false} HistoryLinesPrefix(history: seq<ConversationTurn>, i: nat, j: nat, stringify: ToolInput -> string)
    requires i <= j <= |history|
    ensures HistoryLines(history[..i], stringify) <= HistoryLines(history[..j], stringify)
    ensures |HistoryLines(history[..j], stringify)| >= |HistoryLines(history[..i], stringify)| + 3 * (j - i)
    decreases j
  {
    if i < j {
      HistoryLinesPrefix(history, i, j - 1, stringify);
      assert history[..j] == history[..j - 1] + [history[j - 1]];
      HistoryLinesAppend(history[..j - 1], history[j - 1], stringify);
    }
  }

  /** Where, in the message sent, the header of turn `i` (counted from 0)
      begins. */
  function TurnOffset(history: seq<ConversationTurn>, i: nat, stringify: ToolInput -> string): nat
    requires i <= |history|
  {
    |Join([SessionHeader] + HistoryLines(history[..i], stringify), "\n")| + 1
  }

  /** The message sent carries every turn of the history: at the turn's
      offset stand its numbered header, a line break and the clinician's
      words. */
  lemma TurnInMessage(history: seq<ConversationTurn>, transcript: string, stringify: ToolInput -> string, i: nat)
    requires i < |history|
    ensures var c := BuildMessages(history, transcript, stringify)[0].content;
            var line := TurnHeader(i + 1) + "\n" + ClinicianLine(history[i].transcript);
            var o := TurnOffset(history, i, stringify);
            && o + |line| <= |c|
            && c[o..o + |line|] == line
  {
    MessageContent(history, transcript, stringify);
    TurnInLog(history, [NewInputMarker, transcript], stringify, i);
  }

  /** The same about the session log with any closing lines. */
  lemma TurnInLog(history: seq<ConversationTurn>, tail: seq<string>, stringify: ToolInput -> string, i: nat)
    requires i < |history|
    ensures var c := Join([SessionHeader] + HistoryLines(history, stringify) + tail, "\n");
            var line := TurnHeader(i + 1) + "\n" + ClinicianLine(history[i].transcript);
            var o := TurnOffset(history, i, stringify);
            && o + |line| <= |c|
            && c[o..o + |line|] == line
  {
    var front := HistoryLines(history[..i], stringify);
    var t := TurnLines(i + 1, history[i], stringify);
    var rest := HistorySplit(history, i, stringify);
    PieceAfterFront(SessionHeader, front, t, rest, tail, "\n");
  }

  /** In a log that opens with a header line, the first two lines of a
      piece stand, with the separator between them, right after the log of
      the lines before the piece and a separator. */
  lemma PieceAfterFront(header: string, front: seq<string>, piece: seq<string>, rest: seq<string>,
                        tail: seq<string>, sep: string)
    requires |piece| >= 2
    ensures var c := Join([header] + (front + piece + rest) + tail, sep);
            var line := piece[0] + sep + piece[1];
            var o := |Join([header] + front, sep)| + |sep|;
            && o + |line| <= |c|
            && c[o..o + |line|] == line
  {
    var p := [header] + front;
    var q := piece + rest + tail;
    assert [header] + (front + piece + rest) + tail == p + q;
    assert q[0] == piece[0] && q[1] == piece[1];
    JoinPairAt(p, q, sep);
  }

  /** With history, the message is the session log framed by its header
      and the new input. */
  lemma MessageContent(history: seq<ConversationTurn>, transcript: string, stringify: ToolInput -> string)
    requires |history| > 0
    ensures BuildMessages(history, transcript, stringify)[0].content
         == Join([SessionHeader] + HistoryLines(history, stringify) + [NewInputMarker, transcript], "\n")
  {
  }

  /** In the join of two non-empty lists, the first two parts of the second
      list stand, with the separator between them, right after the join of
      the first list and a separator. */
  lemma JoinPairAt(p: seq<string>, q: seq<string>, sep: string)
    requires |p| > 0 && |q| >= 2
    ensures var c := Join(p + q, sep);
            var line := q[0] + sep + q[1];
            var o := |Join(p, sep)| + |sep|;
            && o + |line| <= |c|
            && c[o..o + |line|] == line
  {
    JoinAppend(p, q, sep);
    var rest := Join(q[1..], sep);
    assert Join(q, sep) == q[0] + sep + rest;
    assert q[1..][0] == q[1];
    assert q[1] <= rest by {
      if |q[1..]| > 1 {
        assert rest == q[1] + sep + Join(q[1..][1..], sep);
      }
    }
    var jp := Join(p, sep);
    var c := Join(p + q, sep);
    var line := q[0] + sep + q[1];
    assert c == jp + sep + (line + rest[|q[1]|..]);
    assert c[|jp| + |sep|..|jp| + |sep| + |line|] == line;
  }

  /** Later turns stand further on in the message. */
  lemma TurnOffsetGrows(history: seq<ConversationTurn>, i: nat, j: nat, stringify: ToolInput -> string)
    requires i < j <= |history|
    ensures TurnOffset(history, i, stringify) < TurnOffset(history, j, stringify)
  {
    HistoryLinesPrefix(history, i, j, stringify);
    JoinLonger(SessionHeader, HistoryLines(history[..i], stringify), HistoryLines(history[..j], stringify), "\n");
  }

  /** A log under a header grows with its lines. */
  lemma JoinLonger(header: string, a: seq<string>, b: seq<string>, sep: string)
    requires a <= b && |a| < |b| && |sep| > 0
    ensures |Join([header] + a, sep)| < |Join([header] + b, sep)|
  {
    var x := b[|a|..];
    assert b == a + x;
    assert [header] + b == ([header] + a) + x;
    JoinAppend([header] + a, x, sep);
  }

  /** Distinct turn numbers give distinct headers, since decimal rendering
      is one-to-one. */
  lemma TurnHeadersDistinct(m: nat, n: nat)
    requires m != n
    ensures TurnHeader(m) != TurnHeader(n)
  {
    var pre := "\n[Turn ";
    if TurnHeader(m) == TurnHeader(n) {
      var a, b := NatToString(m), NatToString(n);
      assert |a| == |b|;
      assert a == TurnHeader(m)[|pre|..|pre| + |a|] == TurnHeader(n)[|pre|..|pre| + |b|] == b;
      NatToStringValue(m);
      NatToStringValue(n);
    }
  }
}
