/** Fixed tables of the chart: the tooth order of each jaw, the multi-rooted
    teeth, the row labels and the row order of each jaw. */
module PerioConstants {
  import opened PerioTypes
  import opened Sequences

  /** Upper jaw, as drawn: 18 down to 11, then 21 up to 28. */
  function UpperJawTeeth(): (r: seq<Tooth>)
    ensures |r| == 16
    ensures forall i :: 0 <= i < 8 ==> r[i] == 18 - i
    ensures forall i :: 8 <= i < 16 ==> r[i] == 13 + i
  {
    [18, 17, 16, 15, 14, 13, 12, 11, 21, 22, 23, 24, 25, 26, 27, 28]
  }

  /** Lower jaw, as drawn: 48 down to 41, then 31 up to 38. */
  function LowerJawTeeth(): (r: seq<Tooth>)
    ensures |r| == 16
    ensures forall i :: 0 <= i < 8 ==> r[i] == 48 - i
    ensures forall i :: 8 <= i < 16 ==> r[i] == 23 + i
  {
    [48, 47, 46, 45, 44, 43, 42, 41, 31, 32, 33, 34, 35, 36, 37, 38]
  }

  /** The upper jaw list holds each upper tooth once and nothing else. */
  lemma UpperJawTeethExact()
    ensures Distinct(UpperJawTeeth())
    ensures forall t: Tooth :: t in UpperJawTeeth() <==> Quadrant(t) <= 2
  {
    var r := UpperJawTeeth();
    forall t: Tooth | Quadrant(t) <= 2 ensures t in r {
      assert IsToothNumber(t);
      if t <= 18 { assert r[18 - t] == t; } else { assert r[t - 13] == t; }
    }
  }

  /** The lower jaw list holds each lower tooth once and nothing else. */
  lemma LowerJawTeethExact()
    ensures Distinct(LowerJawTeeth())
    ensures forall t: Tooth :: t in LowerJawTeeth() <==> Quadrant(t) >= 3
  {
    var r := LowerJawTeeth();
    forall t: Tooth | Quadrant(t) >= 3 ensures t in r {
      assert IsToothNumber(t);
      if t >= 41 { assert r[48 - t] == t; } else { assert r[t - 23] == t; }
    }
  }

  /** Upper jaw followed by lower jaw. */
  function AllTeeth(): seq<Tooth> {
    UpperJawTeeth() + LowerJawTeeth()
  }

  /** ALL_TEETH lists all 32 teeth, each exactly once. */
  lemma AllTeethExact()
    ensures |AllTeeth()| == 32 && Distinct(AllTeeth())
    ensures forall t: Tooth :: t in AllTeeth()
  {
    var u := UpperJawTeeth();
    var l := LowerJawTeeth();
    UpperJawTeethExact();
    LowerJawTeethExact();
    forall i, j | 0 <= i < j < 32 ensures (u + l)[i] != (u + l)[j] {
      if i < 16 <= j {
        assert (u + l)[i] == u[i] && Quadrant(u[i]) <= 2;
        assert (u + l)[j] == l[j - 16] && Quadrant(l[j - 16]) >= 3;
      }
    }
    forall t: Tooth ensures t in u + l {
      if Quadrant(t) <= 2 { assert t in u; } else { assert t in l; }
    }
  }

  /** The set of all teeth, the key set of every examination. */
  function AllTeethSet(): (s: set<Tooth>)
    ensures forall t: Tooth :: t in s
    ensures |s| == 32
  {
    AllTeethExact();
    DistinctCard(AllTeeth());
    set t | t in AllTeeth()
  }

  /** Teeth with more than one root, where furcation can be recorded. */
  function MultiRootedTeeth(): set<Tooth> {
    {14, 15, 16, 17, 18, 24, 25, 26, 27, 28, 36, 37, 38, 46, 47, 48}
  }

  /** The multi-rooted teeth are positions 4-8 in the upper jaw and 6-8 in
      the lower jaw. */
  lemma MultiRootedTeethExact()
    ensures forall t: Tooth :: t in MultiRootedTeeth() <==>
              (Quadrant(t) <= 2 && Position(t) >= 4) || (Quadrant(t) >= 3 && Position(t) >= 6)
  {
    forall t: Tooth ensures t in MultiRootedTeeth() <==>
        (Quadrant(t) <= 2 && Position(t) >= 4) || (Quadrant(t) >= 3 && Position(t) >= 6) {
      assert IsToothNumber(t);
    }
  }

  /** There are 16 multi-rooted teeth. */
  lemma MultiRootedTeethCount()
    ensures |MultiRootedTeeth()| == 16
  {
    var upper: set<Tooth> := {14, 15, 16, 17, 18, 24, 25, 26, 27, 28};
    var lower: set<Tooth> := {36, 37, 38, 46, 47, 48};
    assert |upper| == 10;
    assert |lower| == 6;
    assert upper !! lower;
    assert MultiRootedTeeth() == upper + lower;
  }

  /** Swedish row labels. */
  function RowLabel(f: Field): (r: string)
    ensures |r| > 0
  {
    match f
    case Furcation => "Furk. inv."
    case Bleeding => "Blödning"
    case Plaque => "Plack"
    case GingivalMargin => "Marg. gingiva"
    case PocketDepth => "Fickdjup"
  }

  /** No two rows share a label. */
  lemma RowLabelsDistinct(f: Field, g: Field)
    requires f != g
    ensures RowLabel(f) != RowLabel(g)
  {
  }

  /** A row order shows each of the five rows exactly once. */
  predicate IsRowOrder(s: seq<Field>) {
    |s| == 5 && Distinct(s) && forall f: Field :: f in s
  }

  /** Upper jaw rows: furcation outermost, pocket depth next to the tongue. */
  function UpperRowOrder(): seq<Field> {
    [Furcation, Bleeding, Plaque, GingivalMargin, PocketDepth]
  }

  /** Lower jaw rows. */
  function LowerRowOrder(): seq<Field> {
    [PocketDepth, GingivalMargin, Plaque, Bleeding, Furcation]
  }

  /** Both orders are permutations of the five rows, and the lower order is
      the upper one mirrored. */
  lemma RowOrdersMirror()
    ensures IsRowOrder(UpperRowOrder()) && IsRowOrder(LowerRowOrder())
    ensures forall i :: 0 <= i < 5 ==> LowerRowOrder()[i] == UpperRowOrder()[4 - i]
  {
    var u := UpperRowOrder();
    forall f: Field ensures f in u && f in LowerRowOrder() {
      match f
      case Furcation => assert u[0] == f;
      case Bleeding => assert u[1] == f;
      case Plaque => assert u[2] == f;
      case GingivalMargin => assert u[3] == f;
      case PocketDepth => assert u[4] == f;
    }
  }
}
