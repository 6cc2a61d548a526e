/** A fresh examination: every tooth present, not missing, no comment, and
    both sites of every tooth empty. */
module EmptyExamination {
  import opened Wrappers
  import opened PerioTypes
  import opened PerioConstants

  /** The shape every examination has: one record per tooth, filed under its
      own number, each with exactly the sites D and M. */
  ghost predicate WellFormed(e: PerioExamination) {
    forall t: Tooth :: t in e.teeth && e.teeth[t].toothNumber == t && HasChartSites(e.teeth[t])
  }

  /** Both chart sites are present in the tooth's site map. */
  ghost predicate HasChartSites(td: ToothData) {
    forall s: Site :: s in td.sites
  }

  /** A site map holding D and M holds every chart site. */
  lemma ChartSitesPresent(td: ToothData)
    requires D in td.sites && M in td.sites
    ensures HasChartSites(td)
  {
    forall s: Site ensures s in td.sites {
      match s
      case D =>
      case M =>
    }
  }

  /** A site with all three flags off and both numbers blank. */
  function CreateEmptySite(): (r: SiteMeasurement)
    ensures forall f: CheckboxField :: !r.Flag(f)
    ensures forall f: NumericField :: r.Number(f) == None
  {
    SiteMeasurement(false, false, false, None, None)
  }

  /** The `general` site list of a tooth's site configuration. The table it
      comes from is not part of this model; the chart draws, counts and edits
      the sites D and M for every tooth, so that is the list used here. */
  function GeneralSites(t: Tooth): seq<Site> {
    [D, M]
  }

  /** One empty site per listed site, built in list order. */
  function SitesFrom(list: seq<Site>): (r: map<Site, SiteMeasurement>)
    ensures r.Keys == set s | s in list
    ensures forall s :: s in r ==> r[s] == CreateEmptySite()
  {
    if |list| == 0 then map[]
    else SitesFrom(list[..|list| - 1])[list[|list| - 1] := CreateEmptySite()]
  }

  /** The configured general sites of the tooth, each empty, and no others. */
  function CreateEmptySites(t: Tooth): (r: map<Site, SiteMeasurement>)
    ensures r.Keys == {D, M}
    ensures forall s :: s in r ==> r[s] == CreateEmptySite()
  {
    var list := GeneralSites(t);
    assert (set s | s in list) == {D, M};
    SitesFrom(list)
  }

  function CreateEmptyTooth(t: Tooth): (r: ToothData)
    ensures r.toothNumber == t && !r.missing && r.comment == ""
    ensures r.sites.Keys == {D, M} && HasChartSites(r)
    ensures forall s :: s in r.sites ==> r.sites[s] == CreateEmptySite()
  {
    var r := ToothData(t, false, CreateEmptySites(t), "");
    ChartSitesPresent(r);
    r
  }

  /** One empty tooth per tooth of ALL_TEETH, keyed by its number. */
  function EmptyTeeth(): (r: map<Tooth, ToothData>)
    ensures r.Keys == set t | t in AllTeeth()
    ensures forall t :: t in r ==> r[t] == CreateEmptyTooth(t)
  {
    map t | t in AllTeeth() :: CreateEmptyTooth(t)
  }

  /** Exactly one entry per tooth of ALL_TEETH, keyed by that tooth, each an
      empty tooth. */
  function CreateEmptyExamination(): (r: PerioExamination)
    ensures WellFormed(r)
    ensures r.teeth.Keys == AllTeethSet()
    ensures forall t: Tooth :: r.teeth[t] == CreateEmptyTooth(t)
  {
    EmptyTeethComplete();
    PerioExamination(EmptyTeeth())
  }

  /** The map built from ALL_TEETH has an empty entry for every tooth, and
      its keys are the set of all teeth. */
  lemma EmptyTeethComplete()
    ensures forall t: Tooth :: t in EmptyTeeth() && EmptyTeeth()[t] == CreateEmptyTooth(t)
    ensures forall t: Tooth :: HasChartSites(EmptyTeeth()[t])
    ensures EmptyTeeth().Keys == AllTeethSet()
  {
    var m := EmptyTeeth();
    AllTeethExact();
    forall t: Tooth ensures t in m && m[t] == CreateEmptyTooth(t) && HasChartSites(m[t]) {
      assert t in AllTeeth();
      assert t in m.Keys;
    }
    var all := AllTeethSet();
    assert forall t: Tooth :: t in all && t in m.Keys;
    assert m.Keys == all;
  }
}
