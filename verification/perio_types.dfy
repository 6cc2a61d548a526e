/** The periodontal chart's data model: FDI tooth numbers, the two
    measurement sites, the per-site record, the per-tooth record, the
    examination, the summary, and the closed set of five chart commands. */
module PerioTypes {
  import opened Wrappers

  /** FDI (ISO 3950) two-digit tooth numbers: quadrant 1-4, position 1-8. */
  predicate IsToothNumber(n: int) {
    || 11 <= n <= 18
    || 21 <= n <= 28
    || 31 <= n <= 38
    || 41 <= n <= 48
  }

  type Tooth = n: int | IsToothNumber(n) witness 11

  /** The quadrant digit: 1 upper right, 2 upper left, 3 lower left,
      4 lower right. */
  function Quadrant(t: Tooth): (q: int)
    ensures 1 <= q <= 4
  {
    if t <= 18 then 1 else if t <= 28 then 2 else if t <= 38 then 3 else 4
  }

  /** The position digit, 1 (central incisor) to 8 (third molar). */
  function Position(t: Tooth): (p: int)
    ensures 1 <= p <= 8
    ensures t == 10 * Quadrant(t) + p
  {
    assert IsToothNumber(t);
    t - 10 * Quadrant(t)
  }

  /** Every quadrant/position pair is a tooth number, and reading its digits
      back gives the pair. */
  lemma FdiCodes(q: int, p: int)
    requires 1 <= q <= 4 && 1 <= p <= 8
    ensures IsToothNumber(10 * q + p)
    ensures Quadrant(10 * q + p) == q && Position(10 * q + p) == p
  {
  }

  /** D = distal, M = mesial: the two sites of the chart. */
  datatype Site = D | M

  function SiteName(s: Site): string {
    match s
    case D => "D"
    case M => "M"
  }

  /** The chart site a raw site string names, if any. */
  function ParseSite(s: string): (r: Option<Site>)
    ensures r.Some? ==> SiteName(r.value) == s
    ensures r.None? ==> s != "D" && s != "M"
  {
    if s == "D" then Some(D) else if s == "M" then Some(M) else None
  }

  lemma ParseSiteName(s: Site)
    ensures ParseSite(SiteName(s)) == Some(s)
  {
  }

  /** The five rows of the chart. The first three are check boxes, the
      last two hold a number or nothing. */
  datatype Field = Furcation | Bleeding | Plaque | GingivalMargin | PocketDepth {
    predicate IsCheckbox() {
      Furcation? || Bleeding? || Plaque?
    }
  }

  type CheckboxField = f: Field | f.IsCheckbox() witness Furcation
  type NumericField = f: Field | !f.IsCheckbox() witness PocketDepth

  datatype SiteMeasurement = SiteMeasurement(
    furcation: bool,
    bleeding: bool,
    plaque: bool,
    pocketDepth: Option<int>,
    gingivalMargin: Option<int>)
  {
    function Flag(f: CheckboxField): bool {
      match f
      case Furcation => furcation
      case Bleeding => bleeding
      case Plaque => plaque
    }

    function Number(f: NumericField): Option<int> {
      match f
      case PocketDepth => pocketDepth
      case GingivalMargin => gingivalMargin
    }

    /** This record with check box `f` set to `v` and nothing else changed. */
    function WithFlag(f: CheckboxField, v: bool): (r: SiteMeasurement)
      ensures r.Flag(f) == v
      ensures forall g: CheckboxField :: g != f ==> r.Flag(g) == Flag(g)
      ensures forall g: NumericField :: r.Number(g) == Number(g)
    {
      match f
      case Furcation => this.(furcation := v)
      case Bleeding => this.(bleeding := v)
      case Plaque => this.(plaque := v)
    }

    /** This record with numeric field `f` set to `v` and nothing else changed. */
    function WithNumber(f: NumericField, v: Option<int>): (r: SiteMeasurement)
      ensures r.Number(f) == v
      ensures forall g: NumericField :: g != f ==> r.Number(g) == Number(g)
      ensures forall g: CheckboxField :: r.Flag(g) == Flag(g)
    {
      match f
      case PocketDepth => this.(pocketDepth := v)
      case GingivalMargin => this.(gingivalMargin := v)
    }
  }

  /** Two site records with the same flags and numbers are the same record. */
  lemma SiteMeasurementExt(a: SiteMeasurement, b: SiteMeasurement)
    requires forall f: CheckboxField :: a.Flag(f) == b.Flag(f)
    requires forall f: NumericField :: a.Number(f) == b.Number(f)
    ensures a == b
  {
    assert a.Flag(Furcation) == b.Flag(Furcation);
    assert a.Flag(Bleeding) == b.Flag(Bleeding);
    assert a.Flag(Plaque) == b.Flag(Plaque);
    assert a.Number(PocketDepth) == b.Number(PocketDepth);
    assert a.Number(GingivalMargin) == b.Number(GingivalMargin);
  }

  datatype ToothData = ToothData(
    toothNumber: Tooth,
    missing: bool,
    sites: map<Site, SiteMeasurement>,
    comment: string)

  datatype PerioExamination = PerioExamination(teeth: map<Tooth, ToothData>)

  /** Percentages are kept as integer tenths of a percent (`bvsTenths == 253`
      stands for 25.3 %). */
  datatype PerioSummary = PerioSummary(
    bvsTenths: int,
    pliTenths: int,
    bleedingSites: nat,
    plaqueSites: nat,
    totalSites: nat)

  /** The five chart commands. `site` is the raw string the command carries:
      the voice path casts whatever site the language model produced. */
  datatype PerioAction =
    | SetCheckbox(tooth: Tooth, site: string, field: CheckboxField, value: bool)
    | SetNumeric(tooth: Tooth, site: string, numField: NumericField, number: Option<int>)
    | ToggleMissing(tooth: Tooth)
    | SetComment(tooth: Tooth, comment: string)
    | ClearAll

  /** A command whose site, if it has one, is one of the chart's sites. */
  predicate HasChartSite(a: PerioAction) {
    (a.SetCheckbox? || a.SetNumeric?) ==> ParseSite(a.site).Some?
  }
}
