/** The voice path's mapper: one `record` tool input becomes chart commands,
    and the commands of a commit are dispatched in order. The mapper checks
    the tooth number and nothing else: the site is passed through as given
    and no value is range-checked. */
module VoiceMapper {
  import opened Wrappers
  import opened Strings
  import opened PerioTypes
  import opened PerioConstants
  import opened EmptyExamination
  import opened PerioReducer
  import opened VoiceTypes

  /** Where a command stands in the mapper's fixed output order: comment,
      then bleeding, plaque, furcation, then pocket depth, gingival margin. */
  function Rank(a: PerioAction): nat {
    match a
    case SetComment(_, _) => 0
    case SetCheckbox(_, _, f, _) => (match f case Bleeding => 1 case Plaque => 2 case _ => 3)
    case SetNumeric(_, _, f, _) => (match f case PocketDepth => 4 case _ => 5)
    case _ => 6
  }

  function Count<T>(o: Option<T>): nat {
    if o.Some? then 1 else 0
  }

  /** How many of the six command-producing fields the record defines. */
  function DefinedFields(rec: RecordInput): nat {
    Count(rec.comment) + Count(rec.bleeding) + Count(rec.plaque) + Count(rec.furcation)
    + Count(rec.pocketDepth) + Count(rec.gingivalMargin)
  }

  /** The record sets at least one per-site field. */
  predicate HasSiteField(rec: RecordInput) {
    rec.bleeding.Some? || rec.plaque.Some? || rec.furcation.Some? || rec.pocketDepth.Some? || rec.gingivalMargin.Some?
  }

  /** Every command addresses tooth `t`, and every per-site one site `site`. */
  predicate Addressed(r: seq<PerioAction>, t: Tooth, site: string) {
    forall i :: 0 <= i < |r| ==>
      && !r[i].ClearAll? && !r[i].ToggleMissing? && r[i].tooth == t
      && ((r[i].SetCheckbox? || r[i].SetNumeric?) ==> r[i].site == site)
  }

  /** Ranks strictly increase along the list. */
  predicate RankOrdered(r: seq<PerioAction>) {
    forall i, j :: 0 <= i < j < |r| ==> Rank(r[i]) < Rank(r[j])
  }

  predicate RanksBelow(r: seq<PerioAction>, k: nat) {
    forall i :: 0 <= i < |r| ==> Rank(r[i]) < k
  }

  predicate RanksAtLeast(r: seq<PerioAction>, k: nat) {
    forall i :: 0 <= i < |r| ==> Rank(r[i]) >= k
  }

  lemma OrderedConcat(x: seq<PerioAction>, y: seq<PerioAction>, t: Tooth, site: string, k: nat)
    requires Addressed(x, t, site) && Addressed(y, t, site)
    requires RankOrdered(x) && RankOrdered(y)
    requires RanksBelow(x, k) && RanksAtLeast(y, k)
    ensures Addressed(x + y, t, site) && RankOrdered(x + y)
  {
    forall i, j | 0 <= i < j < |x + y| ensures Rank((x + y)[i]) < Rank((x + y)[j]) {
      if j < |x| {
        assert (x + y)[i] == x[i] && (x + y)[j] == x[j];
      } else if i < |x| {
        assert (x + y)[i] == x[i] && (x + y)[j] == y[j - |x|];
      } else {
        assert (x + y)[i] == y[i - |x|] && (x + y)[j] == y[j - |x|];
      }
    }
  }

  function CommentCommand(t: Tooth, c: Option<string>): (r: seq<PerioAction>)
    ensures |r| == Count(c) && RanksBelow(r, 1)
    ensures forall i :: 0 <= i < |r| ==> r[i] == SetComment(t, c.value)
  {
    if c.Some? then [SetComment(t, c.value)] else []
  }

  function CheckboxCommand(t: Tooth, site: string, f: CheckboxField, v: Option<bool>): (r: seq<PerioAction>)
    ensures |r| == Count(v) && Addressed(r, t, site)
    ensures forall i :: 0 <= i < |r| ==> r[i] == SetCheckbox(t, site, f, v.value) && Rank(r[i]) == Rank(r[0])
  {
    if v.Some? then [SetCheckbox(t, site, f, v.value)] else []
  }

  function NumericCommand(t: Tooth, site: string, f: NumericField, v: Option<Option<int>>): (r: seq<PerioAction>)
    ensures |r| == Count(v) && Addressed(r, t, site)
    ensures forall i :: 0 <= i < |r| ==> r[i] == SetNumeric(t, site, f, v.value)
  {
    if v.Some? then [SetNumeric(t, site, f, v.value)] else []
  }

  /** `toActions`. An unknown tooth gives nothing. `missing: true` gives one
      TOGGLE_MISSING and nothing else. Otherwise every defined field gives
      one command for that tooth, in rank order, carrying the given site or
      "D". */
  function ToActions(rec: RecordInput): (r: seq<PerioAction>)
    ensures !IsToothNumber(rec.tooth) ==> r == []
    ensures IsToothNumber(rec.tooth) && rec.missing == Some(true) ==> r == [ToggleMissing(rec.tooth)]
    ensures IsToothNumber(rec.tooth) && rec.missing != Some(true) ==> |r| == DefinedFields(rec)
    ensures forall i :: 0 <= i < |r| ==> !r[i].ClearAll? && r[i].tooth == rec.tooth
    ensures forall i :: 0 <= i < |r| && (r[i].SetCheckbox? || r[i].SetNumeric?) ==> r[i].site == rec.site.GetOr("D")
    ensures forall i, j :: 0 <= i < j < |r| ==> Rank(r[i]) < Rank(r[j])
  {
    if !IsToothNumber(rec.tooth) then []
    else if rec.missing == Some(true) then [ToggleMissing(rec.tooth)]
    else
      FieldCommands(rec.tooth, rec.site.GetOr("D"), rec)
  }

  /** The commands of the defined fields, in rank order. */
  function FieldCommands(t: Tooth, site: string, rec: RecordInput): (r: seq<PerioAction>)
    ensures |r| == DefinedFields(rec)
    ensures Addressed(r, t, site) && RankOrdered(r)
  {
    var comment := CommentCommand(t, rec.comment);
    var b := CheckboxCommand(t, site, Bleeding, rec.bleeding);
    var p := CheckboxCommand(t, site, Plaque, rec.plaque);
    var f := CheckboxCommand(t, site, Furcation, rec.furcation);
    var pd := NumericCommand(t, site, PocketDepth, rec.pocketDepth);
    var gm := NumericCommand(t, site, GingivalMargin, rec.gingivalMargin);
    assert Addressed(comment, t, site) && RankOrdered(comment);
    AppendRank(comment, b, t, site, 1);
    AppendRank(comment + b, p, t, site, 2);
    AppendRank(comment + b + p, f, t, site, 3);
    AppendRank(comment + b + p + f, pd, t, site, 4);
    AppendRank(comment + b + p + f + pd, gm, t, site, 5);
    comment + b + p + f + pd + gm
  }

  /** Every command in the list has rank `k`. */
  predicate RanksEqual(r: seq<PerioAction>, k: nat) {
    forall i :: 0 <= i < |r| ==> Rank(r[i]) == k
  }

  /** Appending at most one command of rank `k` to commands ranked below
      `k` keeps the order. */
  lemma AppendRank(x: seq<PerioAction>, y: seq<PerioAction>, t: Tooth, site: string, k: nat)
    requires Addressed(x, t, site) && Addressed(y, t, site)
    requires RankOrdered(x) && RanksBelow(x, k) && RanksEqual(y, k) && |y| <= 1
    ensures Addressed(x + y, t, site) && RankOrdered(x + y) && RanksBelow(x + y, k + 1)
  {
    OrderedConcat(x, y, t, site, k);
    forall i | 0 <= i < |x + y| ensures Rank((x + y)[i]) < k + 1 {
      if i < |x| { assert (x + y)[i] == x[i]; } else { assert (x + y)[i] == y[i - |x|]; }
    }
  }

  /** Reading a command back into a record: the field it sets, and the site
      it carries. */
  function Absorb(rec: RecordInput, a: PerioAction): RecordInput {
    match a
    case SetComment(_, c) => rec.(comment := Some(c))
    case SetCheckbox(_, s, f, v) =>
      (match f
       case Bleeding => rec.(bleeding := Some(v), site := Some(s))
       case Plaque => rec.(plaque := Some(v), site := Some(s))
       case _ => rec.(furcation := Some(v), site := Some(s)))
    case SetNumeric(_, s, f, v) =>
      (match f
       case PocketDepth => rec.(pocketDepth := Some(v), site := Some(s))
       case _ => rec.(gingivalMargin := Some(v), site := Some(s)))
    case ToggleMissing(_) => rec.(missing := Some(true))
    case ClearAll => rec
  }

  /** The record a list of commands describes, read in order. */
  function Decode(base: RecordInput, cmds: seq<PerioAction>): RecordInput {
    if |cmds| == 0 then base else Absorb(Decode(base, cmds[..|cmds| - 1]), cmds[|cmds| - 1])
  }

  lemma {:induction false} DecodeAppend(base: RecordInput, xs: seq<PerioAction>, ys: seq<PerioAction>)
    ensures Decode(base, xs + ys) == Decode(Decode(base, xs), ys)
  {
    if |ys| > 0 {
      assert (xs + ys)[..|xs + ys| - 1] == xs + ys[..|ys| - 1];
      DecodeAppend(base, xs, ys[..|ys| - 1]);
    } else {
      assert xs + ys == xs;
    }
  }

  function EmptyRecord(tooth: int): RecordInput {
    RecordInput(tooth, None, None, None, None, None, None, None, None)
  }

  /** Decoding the (zero or one) command of one field. */
  lemma DecodeCheckbox(base: RecordInput, t: Tooth, site: string, f: CheckboxField, v: Option<bool>)
    ensures Decode(base, CheckboxCommand(t, site, f, v))
         == if v.Some? then Absorb(base, SetCheckbox(t, site, f, v.value)) else base
  {
    if v.Some? { assert CheckboxCommand(t, site, f, v)[..0] == []; }
  }

  lemma DecodeNumeric(base: RecordInput, t: Tooth, site: string, f: NumericField, v: Option<Option<int>>)
    ensures Decode(base, NumericCommand(t, site, f, v))
         == if v.Some? then Absorb(base, SetNumeric(t, site, f, v.value)) else base
  {
    if v.Some? { assert NumericCommand(t, site, f, v)[..0] == []; }
  }

  /** The site a decoded record ends with: the last per-site field's. */
  function SiteAfter(prior: Option<string>, v: bool, site: string): Option<string> {
    if v then Some(site) else prior
  }

  /** Decoding the comment, bleeding and plaque commands. */
  lemma DecodeHead(rec: RecordInput, t: Tooth, site: string)
    ensures Decode(EmptyRecord(t), CommentCommand(t, rec.comment) + CheckboxCommand(t, site, Bleeding, rec.bleeding)
                                   + CheckboxCommand(t, site, Plaque, rec.plaque))
         == EmptyRecord(t).(comment := rec.comment, bleeding := rec.bleeding, plaque := rec.plaque,
                            site := SiteAfter(SiteAfter(None, rec.bleeding.Some?, site), rec.plaque.Some?, site))
  {
    var c := CommentCommand(t, rec.comment);
    var b := CheckboxCommand(t, site, Bleeding, rec.bleeding);
    var p := CheckboxCommand(t, site, Plaque, rec.plaque);
    var r0 := EmptyRecord(t);
    var r1 := r0.(comment := rec.comment);
    var r2 := r1.(bleeding := rec.bleeding, site := SiteAfter(r1.site, rec.bleeding.Some?, site));
    assert Decode(r0, c) == r1 by {
      if rec.comment.Some? { assert c[..0] == []; }
    }
    assert Decode(r0, c + b) == r2 by {
      DecodeAppend(r0, c, b);
      DecodeCheckbox(r1, t, site, Bleeding, rec.bleeding);
    }
    DecodeAppend(r0, c + b, p);
    DecodeCheckbox(r2, t, site, Plaque, rec.plaque);
  }

  /** Decoding the furcation, pocket depth and gingival margin commands. */
  lemma DecodeTail(base: RecordInput, rec: RecordInput, t: Tooth, site: string)
    ensures Decode(base, CheckboxCommand(t, site, Furcation, rec.furcation) + NumericCommand(t, site, PocketDepth, rec.pocketDepth)
                         + NumericCommand(t, site, GingivalMargin, rec.gingivalMargin))
         == base.(furcation := if rec.furcation.Some? then rec.furcation else base.furcation,
                  pocketDepth := if rec.pocketDepth.Some? then rec.pocketDepth else base.pocketDepth,
                  gingivalMargin := if rec.gingivalMargin.Some? then rec.gingivalMargin else base.gingivalMargin,
                  site := SiteAfter(SiteAfter(SiteAfter(base.site, rec.furcation.Some?, site), rec.pocketDepth.Some?, site),
                                    rec.gingivalMargin.Some?, site))
  {
    var f := CheckboxCommand(t, site, Furcation, rec.furcation);
    var pd := NumericCommand(t, site, PocketDepth, rec.pocketDepth);
    var gm := NumericCommand(t, site, GingivalMargin, rec.gingivalMargin);
    var r1 := Decode(base, f);
    DecodeCheckbox(base, t, site, Furcation, rec.furcation);
    var r2 := Decode(base, f + pd);
    assert r2 == Decode(r1, pd) by { DecodeAppend(base, f, pd); }
    DecodeNumeric(r1, t, site, PocketDepth, rec.pocketDepth);
    DecodeAppend(base, f + pd, gm);
    DecodeNumeric(r2, t, site, GingivalMargin, rec.gingivalMargin);
  }

  /** The mapper loses nothing: reading its commands back gives the record
      with every value unchanged. Only the site is normalised (to the
      default "D" when the record had none, and dropped when no per-site
      field is set) and `missing: false` is dropped. */
  lemma ToActionsRoundTrip(rec: RecordInput)
    requires IsToothNumber(rec.tooth) && rec.missing != Some(true)
    ensures Decode(EmptyRecord(rec.tooth), ToActions(rec))
         == rec.(missing := None, site := if HasSiteField(rec) then Some(rec.site.GetOr("D")) else None)
  {
    var t: Tooth := rec.tooth;
    var site := rec.site.GetOr("D");
    var c := CommentCommand(t, rec.comment);
    var b := CheckboxCommand(t, site, Bleeding, rec.bleeding);
    var p := CheckboxCommand(t, site, Plaque, rec.plaque);
    var f := CheckboxCommand(t, site, Furcation, rec.furcation);
    var pd := NumericCommand(t, site, PocketDepth, rec.pocketDepth);
    var gm := NumericCommand(t, site, GingivalMargin, rec.gingivalMargin);
    assert ToActions(rec) == FieldCommands(t, site, rec);
    assert c + b + p + f + pd + gm == (c + b + p) + (f + pd + gm);
    DecodeAppend(EmptyRecord(t), c + b + p, f + pd + gm);
    DecodeHead(rec, t, site);
    DecodeTail(Decode(EmptyRecord(t), c + b + p), rec, t, site);
    SiteAfterChain(rec, site);
  }

  /** The site survives decoding exactly when some per-site field is set. */
  lemma SiteAfterChain(rec: RecordInput, site: string)
    ensures SiteAfter(SiteAfter(SiteAfter(SiteAfter(SiteAfter(None, rec.bleeding.Some?, site), rec.plaque.Some?, site),
                                          rec.furcation.Some?, site), rec.pocketDepth.Some?, site), rec.gingivalMargin.Some?, site)
         == if HasSiteField(rec) then Some(site) else None
  {
  }

  /** A record with only a valid tooth number yields no command. */
  lemma ToothOnlyYieldsNothing(t: Tooth)
    ensures ToActions(EmptyRecord(t)) == []
  {
  }

  /** Every command the mapper emits for a record is one the chart accepts
      exactly when the record sets no per-site field, or names no site, or
      names D or M. */
  lemma {:induction false} ChartSitesIff(rec: RecordInput)
    requires IsToothNumber(rec.tooth) && rec.missing != Some(true)
    ensures (forall i :: 0 <= i < |ToActions(rec)| ==> HasChartSite(ToActions(rec)[i]))
        <==> (!HasSiteField(rec) || rec.site.None? || rec.site.value in {"D", "M"})
  {
    var r := ToActions(rec);
    var site := rec.site.GetOr("D");
    if HasSiteField(rec) && !(rec.site.None? || rec.site.value in {"D", "M"}) {
      assert ParseSite(site).None?;
      CommandWithSite(rec);
    } else {
      forall i | 0 <= i < |r| ensures HasChartSite(r[i]) {
        if r[i].SetCheckbox? || r[i].SetNumeric? {
          assert r[i].site == site;
        }
      }
    }
  }

  /** When the record sets a per-site field, some emitted command carries the
      record's site. */
  lemma CommandWithSite(rec: RecordInput)
    requires IsToothNumber(rec.tooth) && rec.missing != Some(true) && HasSiteField(rec)
    ensures exists i :: 0 <= i < |ToActions(rec)| && (ToActions(rec)[i].SetCheckbox? || ToActions(rec)[i].SetNumeric?)
  {
    var r := ToActions(rec);
    var d := Decode(EmptyRecord(rec.tooth), r);
    ToActionsRoundTrip(rec);
    if forall i :: 0 <= i < |r| ==> !(r[i].SetCheckbox? || r[i].SetNumeric?) {
      DecodeKeepsSiteFields(EmptyRecord(rec.tooth), r);
    }
  }

  /** Commands that carry no site leave the per-site fields alone. */
  lemma {:induction false} DecodeKeepsSiteFields(base: RecordInput, cmds: seq<PerioAction>)
    requires forall i :: 0 <= i < |cmds| ==> !(cmds[i].SetCheckbox? || cmds[i].SetNumeric?)
    ensures HasSiteField(Decode(base, cmds)) == HasSiteField(base)
  {
    if |cmds| > 0 {
      DecodeKeepsSiteFields(base, cmds[..|cmds| - 1]);
    }
  }

  /** The record tool's site values, and the ones it requires. */
  function SiteEnum(): seq<string> {
    ["D", "B", "M", "P", "L"]
  }

  function RequiredKeys(): seq<string> {
    ["tooth"]
  }

  /** A record input the tool schema admits: any number as tooth, and a site
      from the schema's list if one is given. */
  predicate SchemaValid(rec: RecordInput) {
    rec.site.None? || rec.site.value in SiteEnum()
  }

  /** The schema admits sites the chart does not have, and the mapper passes
      them through: this record yields a command the reducer cannot apply
      to a chart site. */
  lemma SchemaSiteOffChart()
    ensures var rec := RecordInput(16, Some("B"), Some(Some(3)), None, None, None, None, None, None);
            && SchemaValid(rec)
            && ToActions(rec) == [SetNumeric(16, "B", PocketDepth, Some(3))]
            && !HasChartSite(ToActions(rec)[0])
  {
  }

  /** No bound is checked on the voice path: a pocket depth of 99 mm, beyond
      the 12 the chart's own input allows, reaches the chart unchanged. */
  lemma VoiceValuesUnbounded(e: PerioExamination)
    requires WellFormed(e)
    ensures var rec := RecordInput(16, None, Some(Some(99)), None, None, None, None, None, None);
            && ToActions(rec) == [SetNumeric(16, "D", PocketDepth, Some(99))]
            && NumberAt(Reduce(e, ToActions(rec)[0]), 16, D, PocketDepth) == Some(99)
  {
    SetNumericFrame(e, 16, "D", PocketDepth, Some(99));
  }

  /** Nor is the tooth checked against the furcation field: a furcation
      for the single-rooted tooth 11, which the chart's table never offers,
      becomes a command and is stored. */
  lemma SingleRootedFurcationStored(e: PerioExamination)
    requires WellFormed(e)
    ensures var rec := RecordInput(11, None, None, None, None, None, Some(true), None, None);
            && 11 !in MultiRootedTeeth()
            && ToActions(rec) == [SetCheckbox(11, "D", Furcation, true)]
            && FlagAt(Reduce(e, ToActions(rec)[0]), 11, D, Furcation)
  {
    SetCheckboxFrame(e, 11, "D", Furcation, true);
  }

  /** All commands of a commit: each record's commands, records in order. */
  function CommitActions(records: seq<RecordInput>): (r: seq<PerioAction>)
  {
    if |records| == 0 then [] else CommitActions(records[..|records| - 1]) + ToActions(records[|records| - 1])
  }

  predicate AllOnChart(cmds: seq<PerioAction>) {
    forall i :: 0 <= i < |cmds| ==> HasChartSite(cmds[i])
  }

  lemma {:induction false} CommitActionsOnChart(records: seq<RecordInput>, k: nat)
    requires k <= |records|
    requires forall i :: 0 <= i < |records| ==> AllOnChart(ToActions(records[i]))
    ensures AllOnChart(CommitActions(records[..k]))
  {
    if k > 0 {
      CommitActionsOnChart(records, k - 1);
      assert records[..k][..k - 1] == records[..k - 1];
      var xs, ys := CommitActions(records[..k - 1]), ToActions(records[k - 1]);
      assert CommitActions(records[..k]) == xs + ys;
      assert AllOnChart(ys);
      OnChartConcat(xs, ys);
    }
  }

  lemma OnChartConcat(xs: seq<PerioAction>, ys: seq<PerioAction>)
    requires AllOnChart(xs) && AllOnChart(ys)
    ensures AllOnChart(xs + ys)
  {
    forall i | 0 <= i < |xs + ys| ensures HasChartSite((xs + ys)[i]) {
      if i < |xs| { assert (xs + ys)[i] == xs[i]; } else { assert (xs + ys)[i] == ys[i - |xs|]; }
    }
  }

  /** The inner dispatch loop: one record's commands applied in order. */
  method DispatchCommands(e: PerioExamination, cmds: seq<PerioAction>) returns (r: PerioExamination, applied: nat)
    requires WellFormed(e) && AllOnChart(cmds)
    ensures WellFormed(r)
    ensures applied == |cmds|
    ensures r == ApplyAll(e, cmds)
  {
    r, applied := e, 0;
    for j := 0 to |cmds|
      invariant WellFormed(r)
      invariant applied == j
      invariant r == ApplyAll(e, cmds[..j])
    {
      ApplyOneMore(e, cmds, j);
      r := Reduce(r, cmds[j]);
      applied := applied + 1;
    }
    assert cmds[..|cmds|] == cmds;
  }

  lemma ApplyOneMore(e: PerioExamination, cmds: seq<PerioAction>, j: nat)
    requires WellFormed(e) && AllOnChart(cmds) && j < |cmds|
    ensures AllOnChart(cmds[..j]) && AllOnChart(cmds[..j + 1])
    ensures ApplyAll(e, cmds[..j + 1]) == Reduce(ApplyAll(e, cmds[..j]), cmds[j])
  {
    assert cmds[..j + 1] == cmds[..j] + [cmds[j]];
    ApplyAllAppend(e, cmds[..j], [cmds[j]]);
    var r := ApplyAll(e, cmds[..j]);
    assert ApplyAll(r, [cmds[j]]) == ApplyAll(Reduce(r, cmds[j]), []);
  }

  /** The dispatch loop of a commit: every record's commands applied in
      order, counting each one applied. */
  method DispatchRecords(e: PerioExamination, records: seq<RecordInput>) returns (r: PerioExamination, applied: nat)
    requires WellFormed(e)
    requires forall k :: 0 <= k < |records| ==> AllOnChart(ToActions(records[k]))
    ensures AllOnChart(CommitActions(records))
    ensures WellFormed(r)
    ensures applied == |CommitActions(records)|
    ensures r == ApplyAll(e, CommitActions(records))
  {
    r, applied := e, 0;
    for k := 0 to |records|
      invariant AllOnChart(CommitActions(records[..k]))
      invariant WellFormed(r)
      invariant applied == |CommitActions(records[..k])|
      invariant r == ApplyAll(e, CommitActions(records[..k]))
    {
      CommitActionsOnChart(records, k + 1);
      assert records[..k + 1][..k] == records[..k];
      var cmds := ToActions(records[k]);
      assert CommitActions(records[..k + 1]) == CommitActions(records[..k]) + cmds;
      var n;
      ghost var before := r;
      r, n := DispatchCommands(r, cmds);
      applied := applied + n;
      ApplyAllAppend(e, CommitActions(records[..k]), cmds);
    }
    assert records[..|records|] == records;
  }

  /** The text sent for one commit. A blank Scribe transcript is dropped.
      With a non-empty Whisper transcript both are sent, labelled;
      otherwise the Scribe transcript alone. */
  function CombineTranscripts(scribe: string, whisper: Option<string>): (r: Option<string>)
    ensures r.None? <==> AllSpace(scribe)
    ensures r.Some? && (whisper.None? || whisper.value == "") ==> r.value == scribe
    ensures r.Some? && whisper.Some? && whisper.value != "" ==> r.value == Labelled(scribe, whisper.value)
  {
    TrimOfAllSpace(scribe);
    if Trim(scribe) == "" then None
    else if whisper.Some? && whisper.value != "" then Some(Labelled(scribe, whisper.value))
    else Some(scribe)
  }

  /** Both transcripts, each after its label, on two lines. */
  function Labelled(scribe: string, whisper: string): string {
    "[Scribe]: " + scribe + "\n[Whisper]: " + whisper
  }

  /** The labelled text splits back into its label, the Scribe transcript,
      the second label and the Whisper transcript. */
  lemma LabelledLayout(scribe: string, whisper: string)
    ensures var r := Labelled(scribe, whisper);
            && |r| == |scribe| + |whisper| + 22
            && r[..10] == "[Scribe]: "
            && r[10..10 + |scribe|] == scribe
            && r[10 + |scribe|..22 + |scribe|] == "\n[Whisper]: "
            && r[22 + |scribe|..] == whisper
  {
    var a := "[Scribe]: " + scribe;
    var r := Labelled(scribe, whisper);
    assert r == a + "\n[Whisper]: " + whisper;
    assert r[..10] == a[..10];
    assert r[10..10 + |scribe|] == a[10..];
    assert (a + "\n[Whisper]: ")[10 + |scribe|..] == "\n[Whisper]: ";
  }
}
