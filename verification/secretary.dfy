/** The secretary's live transcription page: final speech-recognition
    results become segments, each segment is checked for low confidence,
    dental short codes and garbled text, and a flagged segment gets a
    clarification that may be read aloud, at most once per cooldown.
    Regular-expression matching, the clock, id generation and speech
    synthesis are inputs here. */
module Secretary {
  import opened Wrappers
  import opened Strings
  import opened Sequences

  const ConfidenceThreshold: real := 0.78
  const CooldownMs: int := 12000
  /** The confidence assumed when the recogniser gives none. */
  const DefaultConfidence: real := 0.5

  const LowConfidenceFlag: string := "Low confidence"
  const ShortCodesFlag: string := "Short codes detected"
  const NeedsReviewFlag: string := "Needs review"

  /** `extractCodes`: `matches` are the matches of the three code patterns,
      pattern by pattern, in text order. Each is upper-cased; repeats are
      dropped, keeping the first occurrence. */
  function ExtractCodes(matches: seq<string>): (r: seq<string>)
    ensures Distinct(r)
    ensures forall i :: 0 <= i < |r| ==> Upper(r[i]) == r[i]
    ensures forall i :: 0 <= i < |r| ==> r[i] in UpperAll(matches)
    ensures forall i :: 0 <= i < |matches| ==> Upper(matches[i]) in r
    decreases |matches|
  {
    if |matches| == 0 then []
    else
      var front := ExtractCodes(matches[..|matches| - 1]);
      var c := Upper(matches[|matches| - 1]);
      UpperIdempotent(matches[|matches| - 1]);
      assert forall i :: 0 <= i < |matches| - 1 ==> matches[..|matches| - 1][i] == matches[i];
      UpperAllPrefix(matches);
      if c in front then front else front + [c]
  }

  /** Every match, upper-cased. */
  function UpperAll(ms: seq<string>): (r: seq<string>)
    ensures |r| == |ms|
    ensures forall i :: 0 <= i < |ms| ==> r[i] == Upper(ms[i])
  {
    if |ms| == 0 then [] else UpperAll(ms[..|ms| - 1]) + [Upper(ms[|ms| - 1])]
  }

  lemma UpperAllPrefix(ms: seq<string>)
    requires |ms| > 0
    ensures UpperAll(ms) == UpperAll(ms[..|ms| - 1]) + [Upper(ms[|ms| - 1])]
  {
  }

  /** `extractCodes` keeps the order of first occurrence: a code that
      appears before another in the matches appears before it in the
      result. */
  lemma {:induction false} ExtractCodesFirstOrder(matches: seq<string>, i: nat, j: nat)
    requires i < j < |matches|
    requires forall k :: 0 <= k < j ==> Upper(matches[k]) != Upper(matches[j])
    ensures IndexIn(ExtractCodes(matches), Upper(matches[i])) < IndexIn(ExtractCodes(matches), Upper(matches[j]))
    decreases |matches|
  {
    var n := |matches|;
    var front := matches[..n - 1];
    ExtractCodesStep(matches);
    MatchInCodes(front, i);
    assert front[i] == matches[i];
    if j < n - 1 {
      assert front[j] == matches[j];
      forall k | 0 <= k < j ensures Upper(front[k]) != Upper(front[j]) {
        assert front[k] == matches[k];
      }
      ExtractCodesFirstOrder(front, i, j);
      OrderKept(ExtractCodes(front), Upper(matches[n - 1]), Upper(front[i]), Upper(front[j]));
    } else {
      NewCodeAbsent(matches);
      OrderNew(ExtractCodes(front), Upper(matches[n - 1]), Upper(front[i]));
    }
  }

  lemma MatchInCodes(ms: seq<string>, i: nat)
    requires i < |ms|
    ensures Upper(ms[i]) in ExtractCodes(ms)
  {
  }

  /** A match unlike every earlier one is not among the earlier codes. */
  lemma NewCodeAbsent(matches: seq<string>)
    requires |matches| > 0
    requires forall k :: 0 <= k < |matches| - 1 ==> Upper(matches[k]) != Upper(matches[|matches| - 1])
    ensures Upper(matches[|matches| - 1]) !in ExtractCodes(matches[..|matches| - 1])
  {
    var front := matches[..|matches| - 1];
    var rf := ExtractCodes(front);
    forall k | 0 <= k < |rf| ensures rf[k] != Upper(matches[|matches| - 1]) {
      var m := FromEarlierMatch(front, rf[k]);
      assert front[m] == matches[m];
    }
  }

  /** Adding a code keeps the order of the codes already there. */
  lemma OrderKept(rf: seq<string>, c: string, a: string, b: string)
    requires a in rf && b in rf && IndexIn(rf, a) < IndexIn(rf, b)
    ensures var r := if c in rf then rf else rf + [c];
            IndexIn(r, a) < IndexIn(r, b)
  {
    IndexInExtends(rf, c, a);
    IndexInExtends(rf, c, b);
  }

  /** A new code comes after every code already there. */
  lemma OrderNew(rf: seq<string>, c: string, a: string)
    requires a in rf && c !in rf
    ensures IndexIn(rf + [c], a) < IndexIn(rf + [c], c)
  {
    IndexInExtends(rf, c, a);
    IndexInLast(rf, c);
  }

  lemma ExtractCodesStep(matches: seq<string>)
    requires |matches| > 0
    ensures var rf := ExtractCodes(matches[..|matches| - 1]);
            var c := Upper(matches[|matches| - 1]);
            ExtractCodes(matches) == if c in rf then rf else rf + [c]
  {
  }

  /** A code extracted from `ms` is the upper-cased form of one of them. */
  lemma FromEarlierMatch(ms: seq<string>, c: string) returns (k: nat)
    requires c in ExtractCodes(ms)
    ensures k < |ms| && Upper(ms[k]) == c
  {
    var u := UpperAll(ms);
    assert c in u;
    k :| 0 <= k < |u| && u[k] == c;
  }

  /** The position of `x` in `s`, or `|s|` when it is absent. */
  function IndexIn(s: seq<string>, x: string): (k: nat)
    ensures k <= |s|
    ensures k < |s| ==> s[k] == x
    ensures forall i :: 0 <= i < k ==> s[i] != x
    ensures x in s ==> k < |s|
  {
    if |s| == 0 then 0 else if s[0] == x then 0 else 1 + IndexIn(s[1..], x)
  }

  lemma IndexInExtends(s: seq<string>, y: string, x: string)
    requires x in s
    ensures IndexIn(if y in s then s else s + [y], x) == IndexIn(s, x)
  {
    if y !in s {
      var k := IndexIn(s, x);
      assert (s + [y])[k] == x;
      assert forall i :: 0 <= i < k ==> (s + [y])[i] == s[i];
    }
  }

  lemma IndexInLast(s: seq<string>, y: string)
    requires y !in s
    ensures IndexIn(s + [y], y) == |s|
  {
    assert (s + [y])[|s|] == y;
  }

  predicate IsVowel(c: char) {
    c in "aeiouyAEIOUY"
  }

  predicate HasVowel(s: string) {
    exists i :: 0 <= i < |s| && IsVowel(s[i])
  }

  /** `looksGarbled`: after trimming, shorter than two characters, or
      shorter than six with no vowel among a, e, i, o, u, y in either
      case. */
  function LooksGarbled(text: string): (r: bool)
    ensures r <==> |Trim(text)| < 2 || (!HasVowel(Trim(text)) && |Trim(text)| < 6)
  {
    var trimmed := Trim(text);
    if |trimmed| < 2 then true
    else if !HasVowel(trimmed) && |trimmed| < 6 then true
    else false
  }

  /** Anything of six or more characters with a vowel is not garbled,
      and neither is anything of six or more characters at all. */
  lemma LongTextNotGarbled(text: string)
    requires |Trim(text)| >= 6
    ensures !LooksGarbled(text)
  {
  }

  /** The flags of a final result, in their fixed order. */
  function Flags(confidence: real, codes: seq<string>, text: string): (r: seq<string>)
    ensures |r| <= 3
  {
    (if confidence < ConfidenceThreshold then [LowConfidenceFlag] else [])
    + (if |codes| > 0 then [ShortCodesFlag] else [])
    + (if LooksGarbled(text) then [NeedsReviewFlag] else [])
  }

  /** Each flag is present exactly when its condition holds. */
  lemma FlagsExact(confidence: real, codes: seq<string>, text: string)
    ensures var r := Flags(confidence, codes, text);
            && (LowConfidenceFlag in r <==> confidence < ConfidenceThreshold)
            && (ShortCodesFlag in r <==> |codes| > 0)
            && (NeedsReviewFlag in r <==> LooksGarbled(text))
  {
    FlagNamesDistinct();
    FlagsShape(confidence, codes, text);
  }

  /** No flag is listed twice, and the flags keep the order low
      confidence, short codes, needs review. */
  lemma FlagsOrdered(confidence: real, codes: seq<string>, text: string)
    ensures var r := Flags(confidence, codes, text);
            && Distinct(r)
            && (|r| > 0 && r[0] == NeedsReviewFlag ==> |r| == 1)
            && (|r| > 0 && r[|r| - 1] == LowConfidenceFlag ==> |r| == 1)
  {
    FlagNamesDistinct();
    FlagsShape(confidence, codes, text);
  }

  /** The three flag texts differ (they differ in length). */
  lemma FlagNamesDistinct()
    ensures LowConfidenceFlag != ShortCodesFlag
    ensures LowConfidenceFlag != NeedsReviewFlag
    ensures ShortCodesFlag != NeedsReviewFlag
  {
    assert |LowConfidenceFlag| == 14;
    assert |ShortCodesFlag| == 20;
    assert |NeedsReviewFlag| == 12;
  }

  /** The flag list for each of the eight combinations of conditions. */
  lemma FlagsShape(confidence: real, codes: seq<string>, text: string)
    ensures var lo, sc, nr := confidence < ConfidenceThreshold, |codes| > 0, LooksGarbled(text);
            var r := Flags(confidence, codes, text);
            && (lo && sc && nr ==> r == [LowConfidenceFlag, ShortCodesFlag, NeedsReviewFlag])
            && (lo && sc && !nr ==> r == [LowConfidenceFlag, ShortCodesFlag])
            && (lo && !sc && nr ==> r == [LowConfidenceFlag, NeedsReviewFlag])
            && (lo && !sc && !nr ==> r == [LowConfidenceFlag])
            && (!lo && sc && nr ==> r == [ShortCodesFlag, NeedsReviewFlag])
            && (!lo && sc && !nr ==> r == [ShortCodesFlag])
            && (!lo && !sc && nr ==> r == [NeedsReviewFlag])
            && (!lo && !sc && !nr ==> r == [])
  {
  }

  /** A result as the recogniser delivers it. An alternative without a
      transcript has the empty one. */
  datatype SpeechResult = SpeechResult(isFinal: bool, transcript: string, confidence: Option<real>)

  datatype Segment = Segment(id: string, text: string, confidence: real, flags: seq<string>, codes: seq<string>)

  datatype Clarification = Clarification(id: string, segmentId: string, prompt: string, reason: string, resolved: bool)

  /** The page's state. `spoken` records each prompt read aloud with its
      time; `issued` counts the ids handed out so far. */
  datatype Session = Session(
    segments: seq<Segment>,
    clarifications: seq<Clarification>,
    interim: string,
    lastClarifyAt: int,
    spoken: seq<(int, string)>,
    issued: nat)

  /** Before any result: nothing recorded, and the cooldown measured from
      time 0. */
  function InitialSession(): Session {
    Session([], [], "", 0, [], 0)
  }

  /** The question asked back about a flagged segment. */
  function Prompt(text: string, codes: seq<string>): (r: string)
    ensures |codes| > 0 ==> r == "I heard: " + Join(codes, ", ") + ". Is that correct?"
    ensures |codes| == 0 ==> r == "I heard: " + text + ". Is that correct?"
  {
    "I heard: " + (if |codes| > 0 then Join(codes, ", ") else text) + ". Is that correct?"
  }

  /** Whether the prompt is read aloud now. */
  predicate MaySpeak(autoClarify: bool, lastClarifyAt: int, now: int) {
    autoClarify && now - lastClarifyAt > CooldownMs
  }

  /** The segment for a final result with non-blank text, its codes taken
      from `matches`. */
  function NewSegment(r: SpeechResult, matches: seq<string>, id: string): (seg: Segment)
    ensures seg.text == Trim(r.transcript)
    ensures seg.codes == ExtractCodes(matches)
    ensures seg.flags == Flags(seg.confidence, seg.codes, seg.text)
  {
    var text := Trim(r.transcript);
    var confidence := r.confidence.GetOr(DefaultConfidence);
    var codes := ExtractCodes(matches);
    Segment(id, text, confidence, Flags(confidence, codes, text), codes)
  }

  /** Appends a segment and clears the interim text. */
  function Record(s: Session, seg: Segment): Session {
    s.(segments := s.segments + [seg], interim := "", issued := s.issued + 1)
  }

  /** Opens a clarification about a flagged segment and reads its prompt
      aloud when the cooldown allows. */
  function Ask(s: Session, seg: Segment, autoClarify: bool, now: int, newId: nat -> string): Session {
    if |seg.flags| == 0 then s
    else
      var c := Clarification(newId(s.issued), seg.id, Prompt(seg.text, seg.codes), Join(seg.flags, " - "), false);
      var s2 := s.(clarifications := s.clarifications + [c], issued := s.issued + 1);
      if MaySpeak(autoClarify, s2.lastClarifyAt, now)
      then s2.(lastClarifyAt := now, spoken := s2.spoken + [(now, c.prompt)])
      else s2
  }

  /** One final result. `matches` are the code-pattern matches of its
      trimmed text; `newId` hands out ids, the segment's first. */
  function OnFinal(s: Session, r: SpeechResult, matches: seq<string>,
                   autoClarify: bool, now: int, newId: nat -> string): Session
    requires r.isFinal
  {
    if Trim(r.transcript) == "" then s
    else
      var seg := NewSegment(r, matches, newId(s.issued));
      Ask(Record(s, seg), seg, autoClarify, now, newId)
  }

  /** A clarification is opened exactly for a flagged segment; it is
      unresolved, refers to the segment and gives the flags as reason. */
  lemma AskClarifies(s: Session, seg: Segment, autoClarify: bool, now: int, newId: nat -> string)
    ensures var s' := Ask(s, seg, autoClarify, now, newId);
            && s'.segments == s.segments
            && (|seg.flags| == 0 ==> s'.clarifications == s.clarifications)
            && (|seg.flags| > 0 ==>
                  var c := s'.clarifications[|s'.clarifications| - 1];
                  && s'.clarifications == s.clarifications + [c]
                  && c.segmentId == seg.id && !c.resolved
                  && c.reason == Join(seg.flags, " - ")
                  && c.prompt == Prompt(seg.text, seg.codes))
  {
  }

  /** A prompt is read aloud only for a new clarification and only when the
      cooldown allows, and then the cooldown restarts. */
  lemma AskSpeaks(s: Session, seg: Segment, autoClarify: bool, now: int, newId: nat -> string)
    ensures var s' := Ask(s, seg, autoClarify, now, newId);
            && (s'.spoken == s.spoken || |s'.spoken| == |s.spoken| + 1)
            && (|s'.spoken| > |s.spoken| <==> |seg.flags| > 0 && MaySpeak(autoClarify, s.lastClarifyAt, now))
            && (|s'.spoken| > |s.spoken| ==>
                  && s'.spoken == s.spoken + [(now, s'.clarifications[|s'.clarifications| - 1].prompt)]
                  && s'.lastClarifyAt == now)
            && (s'.spoken == s.spoken ==> s'.lastClarifyAt == s.lastClarifyAt)
  {
  }

  /** What one final result adds: nothing when its trimmed text is blank;
      otherwise one segment with that text, and one unresolved
      clarification about it exactly when it has a flag, whose reason
      lists the flags. */
  lemma OnFinalEffect(s: Session, r: SpeechResult, matches: seq<string>,
                      autoClarify: bool, now: int, newId: nat -> string)
    requires r.isFinal
    ensures var s' := OnFinal(s, r, matches, autoClarify, now, newId);
            var text := Trim(r.transcript);
            if text == "" then s' == s
            else
              var seg := s'.segments[|s'.segments| - 1];
              && s'.segments == s.segments + [seg]
              && seg.text == text
              && seg.codes == ExtractCodes(matches)
              && seg.flags == Flags(r.confidence.GetOr(DefaultConfidence), seg.codes, text)
              && (|seg.flags| == 0 ==> s'.clarifications == s.clarifications)
              && (|seg.flags| > 0 ==>
                    var c := s'.clarifications[|s'.clarifications| - 1];
                    && s'.clarifications == s.clarifications + [c]
                    && c.segmentId == seg.id && !c.resolved
                    && c.reason == Join(seg.flags, " - ")
                    && c.prompt == Prompt(text, seg.codes))
  {
    if Trim(r.transcript) != "" {
      var seg := NewSegment(r, matches, newId(s.issued));
      AskClarifies(Record(s, seg), seg, autoClarify, now, newId);
    }
  }

  /** The cooldown: a prompt is read aloud only with auto-clarify on and
      more than 12 seconds after the previous one, and the time of the last
      one is updated exactly then. */
  lemma OnFinalCooldown(s: Session, r: SpeechResult, matches: seq<string>,
                        autoClarify: bool, now: int, newId: nat -> string)
    requires r.isFinal
    ensures var s' := OnFinal(s, r, matches, autoClarify, now, newId);
            && (s'.spoken == s.spoken || |s'.spoken| == |s.spoken| + 1)
            && (|s'.spoken| > |s.spoken| <==>
                  |s'.clarifications| > |s.clarifications| && MaySpeak(autoClarify, s.lastClarifyAt, now))
            && (|s'.spoken| > |s.spoken| ==>
                  && s'.spoken == s.spoken + [(now, s'.clarifications[|s'.clarifications| - 1].prompt)]
                  && s'.lastClarifyAt == now)
            && (s'.spoken == s.spoken ==> s'.lastClarifyAt == s.lastClarifyAt)
  {
    if Trim(r.transcript) != "" {
      var seg := NewSegment(r, matches, newId(s.issued));
      AskClarifies(Record(s, seg), seg, autoClarify, now, newId);
      AskSpeaks(Record(s, seg), seg, autoClarify, now, newId);
    }
  }

  /** The text of the results that are not final, run together. */
  function InterimText(results: seq<SpeechResult>): (r: string)
    ensures results == [] ==> r == ""
  {
    if |results| == 0 then ""
    else InterimText(results[..|results| - 1]) + (if results[|results| - 1].isFinal then "" else results[|results| - 1].transcript)
  }

  /** The final results in order, each with its code matches. */
  function Finals(results: seq<SpeechResult>, matches: seq<seq<string>>, s: Session,
                  autoClarify: bool, now: int, newId: nat -> string): (s': Session)
    requires |matches| == |results|
  {
    if |results| == 0 then s
    else
      var n := |results| - 1;
      var s0 := Finals(results[..n], matches[..n], s, autoClarify, now, newId);
      if results[n].isFinal then OnFinal(s0, results[n], matches[n], autoClarify, now, newId) else s0
  }

  /** `recognition.onresult` for the results from `resultIndex` on. All
      results of one event see the same clock reading `now`. */
  function OnResult(s: Session, results: seq<SpeechResult>, matches: seq<seq<string>>,
                    autoClarify: bool, now: int, newId: nat -> string): (s': Session)
    requires |matches| == |results|
  {
    Finals(results, matches, s, autoClarify, now, newId).(interim := Trim(InterimText(results)))
  }

  /** The trimmed text of a final result, unless it is blank. */
  function Kept(r: SpeechResult): seq<string> {
    if r.isFinal && Trim(r.transcript) != "" then [Trim(r.transcript)] else []
  }

  /** The trimmed texts of the final results that are not blank. */
  function KeptTexts(results: seq<SpeechResult>): seq<string> {
    if |results| == 0 then [] else KeptTexts(results[..|results| - 1]) + Kept(results[|results| - 1])
  }

  function Texts(segments: seq<Segment>): (r: seq<string>)
    ensures |r| == |segments|
    ensures forall i :: 0 <= i < |segments| ==> r[i] == segments[i].text
  {
    if |segments| == 0 then [] else Texts(segments[..|segments| - 1]) + [segments[|segments| - 1].text]
  }

  lemma TextsSnoc(a: seq<Segment>, x: Segment)
    ensures Texts(a + [x]) == Texts(a) + [x.text]
  {
    assert (a + [x])[..|a|] == a;
  }

  /** One final result adds its trimmed text to the segment texts unless
      it is blank. */
  lemma OnFinalTexts(s: Session, r: SpeechResult, matches: seq<string>,
                     autoClarify: bool, now: int, newId: nat -> string)
    requires r.isFinal
    ensures Texts(OnFinal(s, r, matches, autoClarify, now, newId).segments) == Texts(s.segments) + Kept(r)
  {
    if Trim(r.transcript) != "" {
      var seg := NewSegment(r, matches, newId(s.issued));
      AskKeepsSegments(Record(s, seg), seg, autoClarify, now, newId);
      assert OnFinal(s, r, matches, autoClarify, now, newId).segments == s.segments + [seg];
      TextsSnoc(s.segments, seg);
    } else {
      assert Texts(s.segments) + [] == Texts(s.segments);
    }
  }

  lemma AskKeepsSegments(s: Session, seg: Segment, autoClarify: bool, now: int, newId: nat -> string)
    ensures Ask(s, seg, autoClarify, now, newId).segments == s.segments
  {
  }

  lemma {:induction false} FinalsTexts(s: Session, results: seq<SpeechResult>, matches: seq<seq<string>>,
                                       autoClarify: bool, now: int, newId: nat -> string)
    requires |matches| == |results|
    ensures Texts(Finals(results, matches, s, autoClarify, now, newId).segments)
         == Texts(s.segments) + KeptTexts(results)
  {
    if |results| == 0 {
      assert Texts(s.segments) + [] == Texts(s.segments);
    } else {
      var n := |results| - 1;
      FinalsTexts(s, results[..n], matches[..n], autoClarify, now, newId);
      FinalsTextsStep(s, results, matches, autoClarify, now, newId);
      assert KeptTexts(results) == KeptTexts(results[..n]) + Kept(results[n]);
      Chain(Texts(Finals(results, matches, s, autoClarify, now, newId).segments),
            Texts(Finals(results[..n], matches[..n], s, autoClarify, now, newId).segments),
            Texts(s.segments), KeptTexts(results[..n]), Kept(results[n]), KeptTexts(results));
    }
  }

  lemma Chain(x: seq<string>, y: seq<string>, a: seq<string>, b: seq<string>, c: seq<string>, k: seq<string>)
    requires y == a + b && x == y + c && k == b + c
    ensures x == a + k
  {
  }

  lemma FinalsTextsStep(s: Session, results: seq<SpeechResult>, matches: seq<seq<string>>,
                        autoClarify: bool, now: int, newId: nat -> string)
    requires |matches| == |results| > 0
    ensures Texts(Finals(results, matches, s, autoClarify, now, newId).segments)
         == Texts(Finals(results[..|results| - 1], matches[..|results| - 1], s, autoClarify, now, newId).segments)
            + Kept(results[|results| - 1])
  {
    var n := |results| - 1;
    var s0 := Finals(results[..n], matches[..n], s, autoClarify, now, newId);
    if results[n].isFinal {
      OnFinalTexts(s0, results[n], matches[n], autoClarify, now, newId);
    } else {
      assert Texts(s0.segments) + [] == Texts(s0.segments);
    }
  }

  /** An event appends one segment per final result that is not blank, in
      result order, and keeps the segments before it. */
  lemma SegmentsFollowResults(s: Session, results: seq<SpeechResult>, matches: seq<seq<string>>,
                              autoClarify: bool, now: int, newId: nat -> string)
    requires |matches| == |results|
    ensures Texts(OnResult(s, results, matches, autoClarify, now, newId).segments)
         == Texts(s.segments) + KeptTexts(results)
  {
    FinalsTexts(s, results, matches, autoClarify, now, newId);
  }

  /** An event with interim results only records nothing and asks
      nothing; it only replaces the interim text. */
  lemma {:induction false} InterimOnlyRecordsNothing(s: Session, results: seq<SpeechResult>, matches: seq<seq<string>>,
                                                     autoClarify: bool, now: int, newId: nat -> string)
    requires |matches| == |results|
    requires forall i :: 0 <= i < |results| ==> !results[i].isFinal
    ensures OnResult(s, results, matches, autoClarify, now, newId) == s.(interim := Trim(InterimText(results)))
  {
    if |results| > 0 {
      var n := |results| - 1;
      InterimOnlyRecordsNothing(s, results[..n], matches[..n], autoClarify, now, newId);
    }
  }

  /** Prompts read aloud are more than the cooldown apart, and the last
      one's time is the one the cooldown is measured from. */
  ghost predicate SpacedOut(s: Session) {
    && (forall i :: 0 < i < |s.spoken| ==> s.spoken[i].0 - s.spoken[i - 1].0 > CooldownMs)
    && (|s.spoken| > 0 ==> s.lastClarifyAt == s.spoken[|s.spoken| - 1].0)
  }

  /** What spacing out an event preserves, stated for the results handled
      so far. */
  ghost predicate SpokenSince(s: Session, s': Session, now: int) {
    && SpacedOut(s')
    && s.spoken <= s'.spoken
    && |s'.spoken| <= |s.spoken| + 1
    && (|s'.spoken| > |s.spoken| ==> s'.lastClarifyAt == now)
    && (s'.spoken == s.spoken ==> s'.lastClarifyAt == s.lastClarifyAt)
  }

  /** One final result keeps prompts spaced out. */
  lemma OnFinalSpacedOut(s: Session, r: SpeechResult, matches: seq<string>,
                         autoClarify: bool, now: int, newId: nat -> string)
    requires r.isFinal && SpacedOut(s)
    requires |s.spoken| > 0 ==> s.spoken[|s.spoken| - 1].0 <= now
    ensures SpokenSince(s, OnFinal(s, r, matches, autoClarify, now, newId), now)
  {
    var s' := OnFinal(s, r, matches, autoClarify, now, newId);
    OnFinalCooldown(s, r, matches, autoClarify, now, newId);
    if |s'.spoken| > |s.spoken| {
      assert s'.spoken[..|s.spoken|] == s.spoken;
      forall i | 0 < i < |s'.spoken| ensures s'.spoken[i].0 - s'.spoken[i - 1].0 > CooldownMs {
        if i == |s.spoken| {
          assert s'.spoken[i - 1] == s.spoken[i - 1];
        } else {
          assert s'.spoken[i] == s.spoken[i] && s'.spoken[i - 1] == s.spoken[i - 1];
        }
      }
    }
  }

  /** Handling an event keeps prompts spaced out, and one event reads at
      most one prompt aloud. */
  lemma {:induction false} FinalsSpacedOut(s: Session, results: seq<SpeechResult>, matches: seq<seq<string>>,
                                           autoClarify: bool, now: int, newId: nat -> string)
    requires |matches| == |results|
    requires SpacedOut(s)
    requires |s.spoken| > 0 ==> s.spoken[|s.spoken| - 1].0 <= now
    ensures SpokenSince(s, Finals(results, matches, s, autoClarify, now, newId), now)
  {
    if |results| > 0 {
      var n := |results| - 1;
      var s0 := Finals(results[..n], matches[..n], s, autoClarify, now, newId);
      FinalsSpacedOut(s, results[..n], matches[..n], autoClarify, now, newId);
      if results[n].isFinal {
        var s1 := OnFinal(s0, results[n], matches[n], autoClarify, now, newId);
        OnFinalSpacedOut(s0, results[n], matches[n], autoClarify, now, newId);
        OnFinalCooldown(s0, results[n], matches[n], autoClarify, now, newId);
        if |s1.spoken| > |s0.spoken| {
          assert s0.spoken == s.spoken;
        }
      }
    }
  }

  /** Handling an event keeps prompts spaced out, and one event reads at
      most one prompt aloud. */
  lemma OnResultSpacedOut(s: Session, results: seq<SpeechResult>, matches: seq<seq<string>>,
                          autoClarify: bool, now: int, newId: nat -> string)
    requires |matches| == |results|
    requires SpacedOut(s)
    requires |s.spoken| > 0 ==> s.spoken[|s.spoken| - 1].0 <= now
    ensures var s' := OnResult(s, results, matches, autoClarify, now, newId);
            && SpacedOut(s')
            && s.spoken <= s'.spoken
            && |s'.spoken| <= |s.spoken| + 1
            && (|s'.spoken| > |s.spoken| ==> s'.lastClarifyAt == now)
  {
    FinalsSpacedOut(s, results, matches, autoClarify, now, newId);
  }

  /** `resolveClarification(id)`: every clarification with that id is
      marked resolved; nothing else changes. */
  function ResolveClarification(cs: seq<Clarification>, id: string): (r: seq<Clarification>)
    ensures |r| == |cs|
    ensures forall i :: 0 <= i < |cs| ==>
              r[i] == (if cs[i].id == id then cs[i].(resolved := true) else cs[i])
  {
    seq(|cs|, i requires 0 <= i < |cs| => if cs[i].id == id then cs[i].(resolved := true) else cs[i])
  }

  /** Resolving twice is resolving once, and resolving an id no
      clarification has changes nothing. */
  lemma ResolveIdempotent(cs: seq<Clarification>, id: string)
    ensures ResolveClarification(ResolveClarification(cs, id), id) == ResolveClarification(cs, id)
    ensures (forall i :: 0 <= i < |cs| ==> cs[i].id != id) ==> ResolveClarification(cs, id) == cs
  {
  }
}
