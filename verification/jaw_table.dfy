/** One jaw of the chart as a table: which teeth and rows it shows, what
    each cell is (check box, number input or a placeholder), the bounds and
    the alert of number inputs, and the command a click or a keystroke
    dispatches. This is the only place where values are range-checked. */
module JawTable {
  import opened Wrappers
  import opened PerioTypes
  import opened PerioConstants
  import opened Sequences
  import opened EmptyExamination
  import opened PerioReducer
  import opened NumericCell

  datatype Jaw = Upper | Lower

  /** The teeth of a jaw, in column order. */
  function JawTeeth(j: Jaw): seq<Tooth> {
    if j == Upper then UpperJawTeeth() else LowerJawTeeth()
  }

  /** The rows of a jaw, top to bottom. */
  function RowOrder(j: Jaw): seq<Field> {
    if j == Upper then UpperRowOrder() else LowerRowOrder()
  }

  /** The two tables together show every tooth once, the upper table the
      first two quadrants and the lower table the other two, and each shows
      all five rows once. */
  lemma JawLayout()
    ensures JawTeeth(Upper) + JawTeeth(Lower) == AllTeeth()
    ensures forall t: Tooth :: t in JawTeeth(Upper) <==> Quadrant(t) <= 2
    ensures forall t: Tooth :: t in JawTeeth(Lower) <==> Quadrant(t) >= 3
    ensures Distinct(JawTeeth(Upper)) && Distinct(JawTeeth(Lower))
    ensures IsRowOrder(RowOrder(Upper)) && IsRowOrder(RowOrder(Lower))
  {
    UpperJawTeethExact();
    LowerJawTeethExact();
    RowOrdersMirror();
  }

  /** The rows drawn as check boxes. */
  const CheckboxRows: seq<Field> := [Furcation, Bleeding, Plaque]

  predicate IsCheckboxRow(f: Field) {
    f in CheckboxRows
  }

  /** The check-box rows are exactly the check-box fields. */
  lemma CheckboxRowIff(f: Field)
    ensures IsCheckboxRow(f) <==> f.IsCheckbox()
  {
    if f.IsCheckbox() {
      match f
      case Furcation => assert CheckboxRows[0] == f;
      case Bleeding => assert CheckboxRows[1] == f;
      case Plaque => assert CheckboxRows[2] == f;
    }
  }

  /** The sub-columns under every tooth header. */
  const Columns: seq<Site> := [D, M]

  /** Each tooth has one column per chart site, D before M. */
  lemma ColumnsAreSites()
    ensures |Columns| == 2 && Columns[0] != Columns[1]
    ensures forall s: Site :: s in Columns
  {
    forall s: Site ensures s in Columns {
      match s
      case D => assert Columns[0] == s;
      case M => assert Columns[1] == s;
    }
  }

  /** Upper bound of a number input: 12 for pocket depth, 3 for the
      gingival margin. The lower bound is always 0. */
  function NumericMax(f: NumericField): int {
    if f == PocketDepth then 12 else 3
  }

  const NumericMin: int := 0

  /** What a cell shows. */
  datatype Cell =
    | Placeholder
    | CheckboxCell(checked: bool, disabled: bool)
    | NumberCell(value: Option<int>, min: int, max: int, disabled: bool, alert: bool)

  /** The cell of row `f`, site `s`, tooth `t`. */
  function CellAt(e: PerioExamination, t: Tooth, s: Site, f: Field): (r: Cell)
    requires WellFormed(e)
    ensures r.Placeholder? <==> f == Furcation && t !in MultiRootedTeeth()
    ensures r.NumberCell? <==> !f.IsCheckbox()
    ensures r.CheckboxCell? ==>
              && f.IsCheckbox()
              && r.checked == FlagAt(e, t, s, f)
              && r.disabled == e.teeth[t].missing
    ensures r.NumberCell? ==>
              && r.value == NumberAt(e, t, s, f)
              && r.min == 0 && r.max == NumericMax(f)
              && r.disabled == e.teeth[t].missing
              && (r.alert <==> f == PocketDepth && r.value.GetOr(0) >= 4)
  {
    var tooth := e.teeth[t];
    CheckboxRowIff(f);
    if IsCheckboxRow(f) then
      if f == Furcation && t !in MultiRootedTeeth() then Placeholder
      else CheckboxCell(tooth.sites[s].Flag(f), tooth.missing)
    else
      NumberCell(tooth.sites[s].Number(f), NumericMin, NumericMax(f), tooth.missing,
                 f == PocketDepth && tooth.sites[s].pocketDepth.GetOr(0) >= 4)
  }

  /** What the user does to a cell: click it, or type into it. */
  datatype UiEvent = Click | Typed(text: string)

  /** The command dispatched for an event on a cell, if any: a set command
      for that very cell. */
  function CellEdit(e: PerioExamination, t: Tooth, s: Site, f: Field, ev: UiEvent): (r: Option<PerioAction>)
    requires WellFormed(e)
    ensures r.Some? ==> && (r.value.SetCheckbox? || r.value.SetNumeric?)
                        && HasChartSite(r.value)
                        && ParseSite(r.value.site) == Some(s)
                        && r.value.tooth == t
  {
    ParseSiteName(s);
    match CellAt(e, t, s, f)
    case Placeholder => None
    case CheckboxCell(checked, disabled) =>
      if disabled || !ev.Click? then None
      else Some(SetCheckbox(t, SiteName(s), f, !checked))
    case NumberCell(_, min, max, disabled, _) =>
      if disabled || !ev.Typed? then None
      else
        match OnNumericInput(ev.text, min, max)
        case None => None
        case Some(v) => Some(SetNumeric(t, SiteName(s), f, v))
  }

  /** Disabled cells and placeholders dispatch nothing: no command ever
      reaches a missing tooth, nor the furcation of a single-rooted one. */
  lemma CellEditGated(e: PerioExamination, t: Tooth, s: Site, f: Field, ev: UiEvent)
    requires WellFormed(e)
    requires e.teeth[t].missing || (f == Furcation && t !in MultiRootedTeeth())
    ensures CellEdit(e, t, s, f, ev).None?
  {
  }

  /** A click on an enabled check box sets it to the opposite of what it
      shows; typing into one does nothing. */
  lemma ClickToggles(e: PerioExamination, t: Tooth, s: Site, f: CheckboxField)
    requires WellFormed(e) && !e.teeth[t].missing
    requires f == Furcation ==> t in MultiRootedTeeth()
    ensures CellEdit(e, t, s, f, Click) == Some(SetCheckbox(t, SiteName(s), f, !FlagAt(e, t, s, f)))
    ensures FlagAt(Reduce(e, CellEdit(e, t, s, f, Click).value), t, s, f) == !FlagAt(e, t, s, f)
  {
    ParseSiteName(s);
    SetCheckboxFrame(e, t, SiteName(s), f, !FlagAt(e, t, s, f));
  }

  /** Typing into an enabled number input dispatches exactly what the
      input's filter passes on, with the row's bounds, and every number it
      dispatches is within them. */
  lemma TypingFiltered(e: PerioExamination, t: Tooth, s: Site, f: NumericField, text: string)
    requires WellFormed(e) && !e.teeth[t].missing
    ensures var o := OnNumericInput(text, NumericMin, NumericMax(f));
            CellEdit(e, t, s, f, Typed(text)) == if o.None? then None else Some(SetNumeric(t, SiteName(s), f, o.value))
    ensures var r := CellEdit(e, t, s, f, Typed(text));
            r.Some? && r.value.number.Some? ==> NumericMin <= r.value.number.value <= NumericMax(f)
  {
    var c := CellAt(e, t, s, f);
    assert c.NumberCell? && !c.disabled && c.min == NumericMin && c.max == NumericMax(f);
  }

  /** A click on a number input, and typing at a check box, do nothing. */
  lemma MismatchedEventInert(e: PerioExamination, t: Tooth, s: Site, f: Field, text: string)
    requires WellFormed(e)
    ensures f.IsCheckbox() ==> CellEdit(e, t, s, f, Typed(text)).None?
    ensures !f.IsCheckbox() ==> CellEdit(e, t, s, f, Click).None?
  {
  }

  /** A click on a tooth's header marks it missing, or present again. */
  function HeaderClick(t: Tooth): PerioAction {
    ToggleMissing(t)
  }

  /** After a header click every cell of that tooth flips between enabled
      and disabled, and no cell of any other tooth does. */
  lemma HeaderClickFlipsCells(e: PerioExamination, t: Tooth, s: Site, f: Field, t': Tooth)
    requires WellFormed(e)
    requires !CellAt(e, t', s, f).Placeholder?
    ensures var c0 := CellAt(e, t', s, f);
            var c1 := CellAt(Reduce(e, HeaderClick(t)), t', s, f);
            c1.disabled == (if t' == t then !c0.disabled else c0.disabled)
  {
    ToggleMissingFrame(e, t);
  }

  /** Every number in the chart lies within its row's bounds. */
  ghost predicate InBounds(e: PerioExamination)
    requires WellFormed(e)
  {
    forall t: Tooth, s: Site, f: NumericField ::
      NumberAt(e, t, s, f).Some? ==> NumericMin <= NumberAt(e, t, s, f).value <= NumericMax(f)
  }

  /** A fresh chart is within bounds. */
  lemma EmptyInBounds()
    ensures InBounds(CreateEmptyExamination())
  {
    forall t: Tooth, s: Site, f: NumericField ensures NumberAt(CreateEmptyExamination(), t, s, f).None? {
      EmptyNumber(t, s, f);
    }
  }

  lemma EmptyNumber(t: Tooth, s: Site, f: NumericField)
    ensures NumberAt(CreateEmptyExamination(), t, s, f) == None
  {
    var e := CreateEmptyExamination();
    assert e.teeth[t] == CreateEmptyTooth(t);
    assert s in e.teeth[t].sites;
    assert e.teeth[t].sites[s] == CreateEmptySite();
  }

  /** Edits made through the table keep the chart within bounds. */
  lemma TableEditKeepsBounds(e: PerioExamination, t: Tooth, s: Site, f: Field, ev: UiEvent)
    requires WellFormed(e) && InBounds(e)
    requires CellEdit(e, t, s, f, ev).Some?
    ensures InBounds(Reduce(e, CellEdit(e, t, s, f, ev).value))
  {
    var a := CellEdit(e, t, s, f, ev).value;
    var r := Reduce(e, a);
    match a
    case SetCheckbox(_, site, g, v) =>
      SetCheckboxFrame(e, t, site, g, v);
    case SetNumeric(_, site, g, v) =>
      SetNumericFrame(e, t, site, g, v);
      forall t': Tooth, s': Site, f': NumericField | NumberAt(r, t', s', f').Some?
        ensures NumericMin <= NumberAt(r, t', s', f').value <= NumericMax(f')
      {
        if (t', s', f') != (t, s, g) {
          assert NumberAt(r, t', s', f') == NumberAt(e, t', s', f');
        }
      }
  }

  /** A header click keeps the chart within bounds. */
  lemma HeaderClickKeepsBounds(e: PerioExamination, t: Tooth)
    requires WellFormed(e) && InBounds(e)
    ensures InBounds(Reduce(e, HeaderClick(t)))
  {
    ToggleMissingFrame(e, t);
  }

  /** The reducer itself does not check bounds: a pocket depth of 99, which
      no number input lets through, is stored when it arrives by voice. */
  lemma ReducerAcceptsOutOfBounds()
    ensures InBounds(CreateEmptyExamination())
    ensures !InBounds(Reduce(CreateEmptyExamination(), SetNumeric(11, "D", PocketDepth, Some(99))))
  {
    EmptyInBounds();
    DeepPocketOutOfBounds();
  }

  lemma DeepPocketOutOfBounds()
    ensures !InBounds(Reduce(CreateEmptyExamination(), SetNumeric(11, "D", PocketDepth, Some(99))))
  {
    assert ParseSite("D") == Some(D);
    OutOfBoundsStored(CreateEmptyExamination(), 11, "D", PocketDepth, 99);
  }

  /** A number above its row's maximum, once reduced, leaves the chart out
      of bounds. */
  lemma OutOfBoundsStored(e: PerioExamination, t: Tooth, site: string, f: NumericField, v: int)
    requires WellFormed(e) && ParseSite(site).Some? && v > NumericMax(f)
    ensures !InBounds(Reduce(e, SetNumeric(t, site, f, Some(v))))
  {
    SetNumericFrame(e, t, site, f, Some(v));
    var r := Reduce(e, SetNumeric(t, site, f, Some(v)));
    assert NumberAt(r, t, ParseSite(site).value, f) == Some(v);
  }
}
