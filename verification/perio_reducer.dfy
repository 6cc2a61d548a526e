/** The chart's state machine: each of the five commands returns a new
    examination. Nothing outside the addressed cell, flag or comment
    changes. The reducer consults neither the missing flag nor any value
    range. */
module PerioReducer {
  import opened Wrappers
  import opened PerioTypes
  import opened EmptyExamination

  /** Flag `f` of site `s` of tooth `t`. */
  function FlagAt(e: PerioExamination, t: Tooth, s: Site, f: CheckboxField): bool
    requires WellFormed(e)
  {
    e.teeth[t].sites[s].Flag(f)
  }

  /** Numeric field `f` of site `s` of tooth `t`. */
  function NumberAt(e: PerioExamination, t: Tooth, s: Site, f: NumericField): Option<int>
    requires WellFormed(e)
  {
    e.teeth[t].sites[s].Number(f)
  }

  /** Every tooth keeps its missing flag and its comment. */
  ghost predicate ToothFlagsKept(a: PerioExamination, b: PerioExamination)
    requires WellFormed(a) && WellFormed(b)
  {
    forall t: Tooth :: b.teeth[t].missing == a.teeth[t].missing && b.teeth[t].comment == a.teeth[t].comment
  }

  /** Every check box and number of every site is the same in `a` and `b`. */
  ghost predicate SitesKept(a: PerioExamination, b: PerioExamination)
    requires WellFormed(a) && WellFormed(b)
  {
    && (forall t: Tooth, s: Site, f: CheckboxField :: FlagAt(b, t, s, f) == FlagAt(a, t, s, f))
    && (forall t: Tooth, s: Site, f: NumericField :: NumberAt(b, t, s, f) == NumberAt(a, t, s, f))
  }

  /** Two examinations that agree on every observable are equal. */
  lemma ExamExt(a: PerioExamination, b: PerioExamination)
    requires WellFormed(a) && WellFormed(b)
    requires SitesKept(a, b) && ToothFlagsKept(a, b)
    ensures a == b
  {
    forall t: Tooth ensures a.teeth[t] == b.teeth[t] {
      var x, y := a.teeth[t], b.teeth[t];
      forall s: Site ensures x.sites[s] == y.sites[s] {
        forall f: CheckboxField ensures x.sites[s].Flag(f) == y.sites[s].Flag(f) {
          assert FlagAt(a, t, s, f) == FlagAt(b, t, s, f);
        }
        forall f: NumericField ensures x.sites[s].Number(f) == y.sites[s].Number(f) {
          assert NumberAt(a, t, s, f) == NumberAt(b, t, s, f);
        }
        SiteMeasurementExt(x.sites[s], y.sites[s]);
      }
      assert x.sites.Keys == y.sites.Keys;
      assert x.sites == y.sites;
    }
    assert a.teeth.Keys == b.teeth.Keys;
    assert a.teeth == b.teeth;
  }

  /** `b` is `a` with check box `f` of site `s` of tooth `t` set to `v`. */
  ghost predicate OnlyFlagSet(a: PerioExamination, b: PerioExamination, t: Tooth, s: Site, f: CheckboxField, v: bool)
    requires WellFormed(a) && WellFormed(b)
  {
    && FlagAt(b, t, s, f) == v
    && (forall t': Tooth, s': Site, f': CheckboxField :: (t', s', f') != (t, s, f) ==> FlagAt(b, t', s', f') == FlagAt(a, t', s', f'))
    && (forall t': Tooth, s': Site, f': NumericField :: NumberAt(b, t', s', f') == NumberAt(a, t', s', f'))
    && ToothFlagsKept(a, b)
  }

  /** `b` is `a` with numeric field `f` of site `s` of tooth `t` set to `v`. */
  ghost predicate OnlyNumberSet(a: PerioExamination, b: PerioExamination, t: Tooth, s: Site, f: NumericField, v: Option<int>)
    requires WellFormed(a) && WellFormed(b)
  {
    && NumberAt(b, t, s, f) == v
    && (forall t': Tooth, s': Site, f': NumericField :: (t', s', f') != (t, s, f) ==> NumberAt(b, t', s', f') == NumberAt(a, t', s', f'))
    && (forall t': Tooth, s': Site, f': CheckboxField :: FlagAt(b, t', s', f') == FlagAt(a, t', s', f'))
    && ToothFlagsKept(a, b)
  }

  /** Replace site `s` of tooth `t` with `m`, keeping everything else. */
  function PutSite(e: PerioExamination, t: Tooth, s: Site, m: SiteMeasurement): (r: PerioExamination)
    requires WellFormed(e)
    ensures WellFormed(r)
    ensures r.teeth[t].sites[s] == m
    ensures forall t': Tooth, s': Site :: (t', s') != (t, s) ==> r.teeth[t'].sites[s'] == e.teeth[t'].sites[s']
    ensures ToothFlagsKept(e, r)
  {
    var tooth := e.teeth[t];
    var r := PerioExamination(e.teeth[t := tooth.(sites := tooth.sites[s := m])]);
    assert forall t': Tooth :: t' != t ==> r.teeth[t'] == e.teeth[t'];
    r
  }

  /** `perioReducer`: apply one command. The command's site must be D or M
      (see the mapper module for a command that is not). */
  function Reduce(e: PerioExamination, a: PerioAction): (r: PerioExamination)
    requires WellFormed(e)
    requires HasChartSite(a)
    ensures WellFormed(r)
  {
    match a
    case SetCheckbox(t, site, f, v) =>
      var s := ParseSite(site).value;
      PutSite(e, t, s, e.teeth[t].sites[s].WithFlag(f, v))
    case SetNumeric(t, site, f, v) =>
      var s := ParseSite(site).value;
      PutSite(e, t, s, e.teeth[t].sites[s].WithNumber(f, v))
    case ToggleMissing(t) =>
      var r := PerioExamination(e.teeth[t := e.teeth[t].(missing := !e.teeth[t].missing)]);
      assert forall t': Tooth :: t' != t ==> r.teeth[t'] == e.teeth[t'];
      r
    case SetComment(t, c) =>
      var r := PerioExamination(e.teeth[t := e.teeth[t].(comment := c)]);
      assert forall t': Tooth :: t' != t ==> r.teeth[t'] == e.teeth[t'];
      r
    case ClearAll =>
      CreateEmptyExamination()
  }

  /** SET_CHECKBOX sets exactly the addressed check box. */
  lemma SetCheckboxFrame(e: PerioExamination, t: Tooth, site: string, f: CheckboxField, v: bool)
    requires WellFormed(e) && ParseSite(site).Some?
    ensures OnlyFlagSet(e, Reduce(e, SetCheckbox(t, site, f, v)), t, ParseSite(site).value, f, v)
  {
    var s := ParseSite(site).value;
    var m := e.teeth[t].sites[s].WithFlag(f, v);
    var r := Reduce(e, SetCheckbox(t, site, f, v));
    assert r == PutSite(e, t, s, m);
    forall t': Tooth, s': Site, f': CheckboxField | (t', s', f') != (t, s, f)
      ensures FlagAt(r, t', s', f') == FlagAt(e, t', s', f')
    {
      if (t', s') == (t, s) {
        assert r.teeth[t].sites[s] == m;
        assert f' != f;
      } else {
        assert r.teeth[t'].sites[s'] == e.teeth[t'].sites[s'];
      }
    }
    forall t': Tooth, s': Site, f': NumericField
      ensures NumberAt(r, t', s', f') == NumberAt(e, t', s', f')
    {
      if (t', s') == (t, s) {
        assert r.teeth[t].sites[s] == m;
      } else {
        assert r.teeth[t'].sites[s'] == e.teeth[t'].sites[s'];
      }
    }
  }

  /** SET_NUMERIC sets exactly the addressed number; `None` (null) is
      accepted like any value. */
  lemma SetNumericFrame(e: PerioExamination, t: Tooth, site: string, f: NumericField, v: Option<int>)
    requires WellFormed(e) && ParseSite(site).Some?
    ensures OnlyNumberSet(e, Reduce(e, SetNumeric(t, site, f, v)), t, ParseSite(site).value, f, v)
  {
    var s := ParseSite(site).value;
    var r := Reduce(e, SetNumeric(t, site, f, v));
    forall t': Tooth, s': Site, f': NumericField | (t', s', f') != (t, s, f)
      ensures NumberAt(r, t', s', f') == NumberAt(e, t', s', f')
    {
      if (t', s') == (t, s) { assert f' != f; }
    }
  }

  /** TOGGLE_MISSING negates that tooth's missing flag and changes nothing
      else: no site and no comment is cleared. */
  lemma ToggleMissingFrame(e: PerioExamination, t: Tooth)
    requires WellFormed(e)
    ensures var r := Reduce(e, ToggleMissing(t));
            && r.teeth[t].missing == !e.teeth[t].missing
            && (forall t': Tooth :: t' != t ==> r.teeth[t'].missing == e.teeth[t'].missing)
            && (forall t': Tooth :: r.teeth[t'].comment == e.teeth[t'].comment)
            && SitesKept(e, r)
  {
  }

  /** SET_COMMENT replaces that tooth's comment and changes nothing else. */
  lemma SetCommentFrame(e: PerioExamination, t: Tooth, c: string)
    requires WellFormed(e)
    ensures var r := Reduce(e, SetComment(t, c));
            && r.teeth[t].comment == c
            && (forall t': Tooth :: t' != t ==> r.teeth[t'].comment == e.teeth[t'].comment)
            && (forall t': Tooth :: r.teeth[t'].missing == e.teeth[t'].missing)
            && SitesKept(e, r)
  {
  }

  /** CLEAR_ALL gives a fresh examination whatever came before. */
  lemma ClearAllResets(e: PerioExamination, e': PerioExamination)
    requires WellFormed(e) && WellFormed(e')
    ensures Reduce(e, ClearAll) == Reduce(e', ClearAll) == CreateEmptyExamination()
  {
  }

  /** Applying the same SET_CHECKBOX or SET_NUMERIC twice is the same as
      applying it once. */
  lemma SetIsIdempotent(e: PerioExamination, a: PerioAction)
    requires WellFormed(e) && HasChartSite(a)
    requires a.SetCheckbox? || a.SetNumeric?
    ensures Reduce(Reduce(e, a), a) == Reduce(e, a)
  {
    var once := Reduce(e, a);
    var twice := Reduce(once, a);
    if a.SetCheckbox? {
      SetCheckboxFrame(e, a.tooth, a.site, a.field, a.value);
      SetCheckboxFrame(once, a.tooth, a.site, a.field, a.value);
    } else {
      SetNumericFrame(e, a.tooth, a.site, a.numField, a.number);
      SetNumericFrame(once, a.tooth, a.site, a.numField, a.number);
    }
    ExamExt(once, twice);
  }

  /** Setting a cell of a tooth marked missing still records the value, and
      the tooth stays missing. */
  lemma SetIgnoresMissing(e: PerioExamination, t: Tooth, s: Site, f: NumericField, v: Option<int>)
    requires WellFormed(e) && e.teeth[t].missing
    ensures var r := Reduce(e, SetNumeric(t, SiteName(s), f, v));
            r.teeth[t].missing && NumberAt(r, t, s, f) == v
  {
    ParseSiteName(s);
    SetNumericFrame(e, t, SiteName(s), f, v);
  }

  /** TOGGLE_MISSING twice on the same tooth gives back the examination. */
  lemma ToggleMissingTwice(e: PerioExamination, t: Tooth)
    requires WellFormed(e)
    ensures Reduce(Reduce(e, ToggleMissing(t)), ToggleMissing(t)) == e
  {
    var once := Reduce(e, ToggleMissing(t));
    var twice := Reduce(once, ToggleMissing(t));
    ToggleMissingFrame(e, t);
    ToggleMissingFrame(once, t);
    ExamExt(e, twice);
  }

  /** Marking a tooth missing keeps its measurements and its comment: the
      toggle clears nothing, so un-marking it brings the old values back. */
  lemma ToggleMissingKeepsData(e: PerioExamination, t: Tooth)
    requires WellFormed(e)
    ensures var r := Reduce(e, ToggleMissing(t));
            r.teeth[t].sites == e.teeth[t].sites && r.teeth[t].comment == e.teeth[t].comment
  {
  }

  /** Commands addressing different cells commute. */
  lemma SetsOnDifferentCellsCommute(e: PerioExamination, a: PerioAction, b: PerioAction)
    requires WellFormed(e) && HasChartSite(a) && HasChartSite(b)
    requires a.SetCheckbox? && b.SetCheckbox?
    requires (a.tooth, ParseSite(a.site), a.field) != (b.tooth, ParseSite(b.site), b.field)
    ensures Reduce(Reduce(e, a), b) == Reduce(Reduce(e, b), a)
  {
    var ea, eb := Reduce(e, a), Reduce(e, b);
    var ab, ba := Reduce(ea, b), Reduce(eb, a);
    var sa, sb := ParseSite(a.site).value, ParseSite(b.site).value;
    SetCheckboxFrame(e, a.tooth, a.site, a.field, a.value);
    SetCheckboxFrame(e, b.tooth, b.site, b.field, b.value);
    SetCheckboxFrame(ea, b.tooth, b.site, b.field, b.value);
    SetCheckboxFrame(eb, a.tooth, a.site, a.field, a.value);
    forall t: Tooth, s: Site, f: CheckboxField ensures FlagAt(ab, t, s, f) == FlagAt(ba, t, s, f) {
      if (t, s, f) == (a.tooth, sa, a.field) {
        assert FlagAt(ab, t, s, f) == a.value == FlagAt(ba, t, s, f);
      } else if (t, s, f) == (b.tooth, sb, b.field) {
        assert FlagAt(ab, t, s, f) == b.value == FlagAt(ba, t, s, f);
      } else {
        assert FlagAt(ab, t, s, f) == FlagAt(e, t, s, f) == FlagAt(ba, t, s, f);
      }
    }
    ExamExt(ab, ba);
  }

  /** Apply a sequence of commands in order, as the dispatch loops do. */
  function ApplyAll(e: PerioExamination, cmds: seq<PerioAction>): (r: PerioExamination)
    requires WellFormed(e)
    requires forall i :: 0 <= i < |cmds| ==> HasChartSite(cmds[i])
    ensures WellFormed(r)
    decreases |cmds|
  {
    if |cmds| == 0 then e else ApplyAll(Reduce(e, cmds[0]), cmds[1..])
  }

  /** Dispatching two batches one after the other is dispatching their
      concatenation. */
  lemma {:induction false} ApplyAllAppend(e: PerioExamination, xs: seq<PerioAction>, ys: seq<PerioAction>)
    requires WellFormed(e)
    requires forall i :: 0 <= i < |xs| ==> HasChartSite(xs[i])
    requires forall i :: 0 <= i < |ys| ==> HasChartSite(ys[i])
    ensures forall i :: 0 <= i < |xs + ys| ==> HasChartSite((xs + ys)[i])
    ensures ApplyAll(e, xs + ys) == ApplyAll(ApplyAll(e, xs), ys)
    decreases |xs|
  {
    assert forall i :: 0 <= i < |xs + ys| ==> HasChartSite((xs + ys)[i]) by {
      forall i | 0 <= i < |xs + ys| ensures HasChartSite((xs + ys)[i]) {
        if i < |xs| { assert (xs + ys)[i] == xs[i]; } else { assert (xs + ys)[i] == ys[i - |xs|]; }
      }
    }
    if |xs| > 0 {
      assert (xs + ys)[1..] == xs[1..] + ys;
      ApplyAllAppend(Reduce(e, xs[0]), xs[1..], ys);
    } else {
      assert xs + ys == ys;
    }
  }
}
