/** The chart's summary: how many sites are counted, how many bleed, how many
    carry plaque, and the two percentages (BVS, bleeding on probing, and PLI,
    plaque index) rounded to one decimal. Teeth marked missing are skipped. */
module PerioCalculations {
  import opened Wrappers
  import opened PerioTypes
  import opened PerioConstants
  import opened EmptyExamination
  import opened PerioReducer

  /** The sites the summary visits on every present tooth, in order. */
  function SummarySites(): seq<Site> {
    [D, M]
  }

  function Indicator(b: bool): (n: nat)
    ensures n <= 1 && (n == 1 <==> b)
  {
    if b then 1 else 0
  }

  /** How many of the listed sites of a tooth have check box `f` ticked. */
  function SitesFlagged(td: ToothData, f: CheckboxField, sites: seq<Site>): (n: nat)
    requires HasChartSites(td)
    ensures n <= |sites|
  {
    if |sites| == 0 then 0
    else SitesFlagged(td, f, sites[..|sites| - 1]) + Indicator(td.sites[sites[|sites| - 1]].Flag(f))
  }

  /** Sites counted over the listed teeth: two per tooth not marked missing. */
  function CountedSites(e: PerioExamination, teeth: seq<Tooth>): (n: nat)
    requires WellFormed(e)
  {
    if |teeth| == 0 then 0
    else
      var t := teeth[|teeth| - 1];
      CountedSites(e, teeth[..|teeth| - 1]) + (if e.teeth[t].missing then 0 else |SummarySites()|)
  }

  /** How many of the listed teeth are marked missing. */
  function MissingTeeth(e: PerioExamination, teeth: seq<Tooth>): (n: nat)
    requires WellFormed(e)
    ensures n <= |teeth|
  {
    if |teeth| == 0 then 0
    else MissingTeeth(e, teeth[..|teeth| - 1]) + Indicator(e.teeth[teeth[|teeth| - 1]].missing)
  }

  /** Sites with check box `f` ticked over the listed teeth, skipping teeth
      marked missing; never more than the sites counted. */
  function FlaggedSites(e: PerioExamination, teeth: seq<Tooth>, f: CheckboxField): (n: nat)
    requires WellFormed(e)
    ensures n <= CountedSites(e, teeth)
  {
    if |teeth| == 0 then 0
    else
      var t := teeth[|teeth| - 1];
      FlaggedSites(e, teeth[..|teeth| - 1], f) + (if e.teeth[t].missing then 0 else SitesFlagged(e.teeth[t], f, SummarySites()))
  }

  /** `Math.round(count / total * 1000) / 10` as a whole number of tenths of
      a percent: the nearest tenth, halves rounded up, and 0 when nothing is
      counted. */
  function Tenths(count: nat, total: nat): (r: int)
    requires count <= total
    ensures total == 0 ==> r == 0
    ensures total > 0 ==> -(total as int) <= 2000 * count - 2 * total * r < total
    ensures 0 <= r <= 1000
  {
    if total > 0 then
      RoundedTenths(count, total);
      (2000 * count + total) / (2 * total)
    else 0
  }

  lemma RoundedTenths(count: nat, total: nat)
    requires count <= total && total > 0
    ensures var q := (2000 * count + total) / (2 * total);
            -(total as int) <= 2000 * count - 2 * total * q < total && 0 <= q <= 1000
  {
    var x, y := 2000 * count + total, 2 * total;
    var q := x / y;
    DivBounds(x, y);
    assert y * q == 2 * total * q;
    assert x < y * 1001 by { assert 2000 * count <= 2000 * total; }
    MulBelow(y, q, 1001);
  }

  lemma MulBelow(y: nat, q: int, k: int)
    requires y > 0 && y * q < y * k
    ensures q < k
  {
  }

  lemma DivBounds(x: nat, y: nat)
    requires y > 0
    ensures y * (x / y) <= x < y * (x / y) + y
  {
  }

  /** The reference summary: every count over ALL_TEETH, and both
      percentages derived from the counts. */
  function Summarize(e: PerioExamination): (r: PerioSummary)
    requires WellFormed(e)
    ensures r.bleedingSites <= r.totalSites && r.plaqueSites <= r.totalSites
    ensures r.totalSites == CountedSites(e, AllTeeth())
    ensures r.bleedingSites == FlaggedSites(e, AllTeeth(), Bleeding)
    ensures r.plaqueSites == FlaggedSites(e, AllTeeth(), Plaque)
    ensures r.bvsTenths == Tenths(r.bleedingSites, r.totalSites)
    ensures r.pliTenths == Tenths(r.plaqueSites, r.totalSites)
  {
    var total := CountedSites(e, AllTeeth());
    var bleeding := FlaggedSites(e, AllTeeth(), Bleeding);
    var plaque := FlaggedSites(e, AllTeeth(), Plaque);
    PerioSummary(Tenths(bleeding, total), Tenths(plaque, total), bleeding, plaque, total)
  }

  /** `calculateSummary`: one pass over ALL_TEETH, and over the sites D and
      M of every tooth not marked missing. */
  method CalculateSummary(e: PerioExamination) returns (r: PerioSummary)
    requires WellFormed(e)
    ensures r == Summarize(e)
  {
    var teeth := AllTeeth();
    var totalSites, bleedingSites, plaqueSites := 0, 0, 0;
    for i := 0 to |teeth|
      invariant totalSites == CountedSites(e, teeth[..i])
      invariant bleedingSites == FlaggedSites(e, teeth[..i], Bleeding)
      invariant plaqueSites == FlaggedSites(e, teeth[..i], Plaque)
    {
      TeethStep(e, teeth, i);
      var tooth := e.teeth[teeth[i]];
      if tooth.missing {
        continue;
      }
      var sites := SummarySites();
      ghost var total0, bleeding0, plaque0 := totalSites, bleedingSites, plaqueSites;
      for j := 0 to |sites|
        invariant totalSites == total0 + j
        invariant bleedingSites == bleeding0 + SitesFlagged(tooth, Bleeding, sites[..j])
        invariant plaqueSites == plaque0 + SitesFlagged(tooth, Plaque, sites[..j])
      {
        SitesStep(tooth, Bleeding, sites, j);
        SitesStep(tooth, Plaque, sites, j);
        totalSites := totalSites + 1;
        if tooth.sites[sites[j]].bleeding {
          bleedingSites := bleedingSites + 1;
        }
        if tooth.sites[sites[j]].plaque {
          plaqueSites := plaqueSites + 1;
        }
      }
      assert sites[..|sites|] == sites;
    }
    assert teeth[..|teeth|] == teeth;
    var bvs := if totalSites > 0 then (2000 * bleedingSites + totalSites) / (2 * totalSites) else 0;
    var pli := if totalSites > 0 then (2000 * plaqueSites + totalSites) / (2 * totalSites) else 0;
    assert bvs == Tenths(bleedingSites, totalSites);
    assert pli == Tenths(plaqueSites, totalSites);
    r := PerioSummary(bvs, pli, bleedingSites, plaqueSites, totalSites);
  }

  lemma TeethStep(e: PerioExamination, teeth: seq<Tooth>, i: nat)
    requires WellFormed(e) && i < |teeth|
    ensures var td := e.teeth[teeth[i]];
            && CountedSites(e, teeth[..i + 1]) == CountedSites(e, teeth[..i]) + (if td.missing then 0 else 2)
            && FlaggedSites(e, teeth[..i + 1], Bleeding)
               == FlaggedSites(e, teeth[..i], Bleeding) + (if td.missing then 0 else SitesFlagged(td, Bleeding, SummarySites()))
            && FlaggedSites(e, teeth[..i + 1], Plaque)
               == FlaggedSites(e, teeth[..i], Plaque) + (if td.missing then 0 else SitesFlagged(td, Plaque, SummarySites()))
  {
    assert teeth[..i + 1][..i] == teeth[..i];
  }

  lemma SitesStep(td: ToothData, f: CheckboxField, sites: seq<Site>, j: nat)
    requires HasChartSites(td) && j < |sites|
    ensures SitesFlagged(td, f, sites[..j + 1]) == SitesFlagged(td, f, sites[..j]) + Indicator(td.sites[sites[j]].Flag(f))
  {
    assert sites[..j + 1][..j] == sites[..j];
  }

  /** Every present tooth contributes two sites, every missing tooth none. */
  lemma {:induction false} CountedSitesMissing(e: PerioExamination, teeth: seq<Tooth>)
    requires WellFormed(e)
    ensures CountedSites(e, teeth) + 2 * MissingTeeth(e, teeth) == 2 * |teeth|
  {
    if |teeth| > 0 {
      CountedSitesMissing(e, teeth[..|teeth| - 1]);
    }
  }

  /** The total is 64 minus two per missing tooth. */
  lemma TotalSites(e: PerioExamination)
    requires WellFormed(e)
    ensures Summarize(e).totalSites == 64 - 2 * MissingTeeth(e, AllTeeth())
  {
    AllTeethExact();
    CountedSitesMissing(e, AllTeeth());
  }

  /** The counts depend only on the missing flags and on the bleeding and
      plaque check boxes of present teeth. */
  predicate SameCountedData(a: PerioExamination, b: PerioExamination, t: Tooth)
    requires WellFormed(a) && WellFormed(b)
  {
    && a.teeth[t].missing == b.teeth[t].missing
    && (!a.teeth[t].missing ==>
          forall s: Site :: FlagAt(a, t, s, Bleeding) == FlagAt(b, t, s, Bleeding)
                         && FlagAt(a, t, s, Plaque) == FlagAt(b, t, s, Plaque))
  }

  lemma {:induction false} SitesFlaggedAgree(a: ToothData, b: ToothData, f: CheckboxField, sites: seq<Site>)
    requires HasChartSites(a) && HasChartSites(b)
    requires forall s: Site :: a.sites[s].Flag(f) == b.sites[s].Flag(f)
    ensures SitesFlagged(a, f, sites) == SitesFlagged(b, f, sites)
  {
    if |sites| > 0 {
      SitesFlaggedAgree(a, b, f, sites[..|sites| - 1]);
    }
  }

  lemma {:induction false} CountsAgree(a: PerioExamination, b: PerioExamination, teeth: seq<Tooth>)
    requires WellFormed(a) && WellFormed(b)
    requires forall t: Tooth :: SameCountedData(a, b, t)
    ensures CountedSites(a, teeth) == CountedSites(b, teeth)
    ensures FlaggedSites(a, teeth, Bleeding) == FlaggedSites(b, teeth, Bleeding)
    ensures FlaggedSites(a, teeth, Plaque) == FlaggedSites(b, teeth, Plaque)
  {
    if |teeth| > 0 {
      var t := teeth[|teeth| - 1];
      CountsAgree(a, b, teeth[..|teeth| - 1]);
      assert SameCountedData(a, b, t);
      if !a.teeth[t].missing {
        forall s: Site ensures a.teeth[t].sites[s].Flag(Bleeding) == b.teeth[t].sites[s].Flag(Bleeding) {
          assert FlagAt(a, t, s, Bleeding) == FlagAt(b, t, s, Bleeding);
        }
        forall s: Site ensures a.teeth[t].sites[s].Flag(Plaque) == b.teeth[t].sites[s].Flag(Plaque) {
          assert FlagAt(a, t, s, Plaque) == FlagAt(b, t, s, Plaque);
        }
        SitesFlaggedAgree(a.teeth[t], b.teeth[t], Bleeding, SummarySites());
        SitesFlaggedAgree(a.teeth[t], b.teeth[t], Plaque, SummarySites());
      }
    }
  }

  /** Two examinations with the same missing flags and the same bleeding and
      plaque check boxes on present teeth have the same summary: furcation,
      the two numbers, comments and everything recorded on missing teeth
      are ignored. */
  lemma SummaryDependsOnCountedData(a: PerioExamination, b: PerioExamination)
    requires WellFormed(a) && WellFormed(b)
    requires forall t: Tooth :: SameCountedData(a, b, t)
    ensures Summarize(a) == Summarize(b)
  {
    CountsAgree(a, b, AllTeeth());
  }

  /** Recording furcation leaves the summary as it was. */
  lemma FurcationKeepsSummary(e: PerioExamination, t: Tooth, site: string, v: bool)
    requires WellFormed(e) && ParseSite(site).Some?
    ensures Summarize(Reduce(e, SetCheckbox(t, site, Furcation, v))) == Summarize(e)
  {
    SetCheckboxFrame(e, t, site, Furcation, v);
    SummaryDependsOnCountedData(e, Reduce(e, SetCheckbox(t, site, Furcation, v)));
  }

  /** Recording a pocket depth or gingival margin leaves the summary as it
      was. */
  lemma NumberKeepsSummary(e: PerioExamination, t: Tooth, site: string, f: NumericField, v: Option<int>)
    requires WellFormed(e) && ParseSite(site).Some?
    ensures Summarize(Reduce(e, SetNumeric(t, site, f, v))) == Summarize(e)
  {
    SetNumericFrame(e, t, site, f, v);
    SummaryDependsOnCountedData(e, Reduce(e, SetNumeric(t, site, f, v)));
  }

  /** A tick on a tooth marked missing does not count. */
  lemma MissingToothNotCounted(e: PerioExamination, t: Tooth, site: string, f: CheckboxField, v: bool)
    requires WellFormed(e) && ParseSite(site).Some? && e.teeth[t].missing
    ensures Summarize(Reduce(e, SetCheckbox(t, site, f, v))) == Summarize(e)
  {
    SetCheckboxFrame(e, t, site, f, v);
    SummaryDependsOnCountedData(e, Reduce(e, SetCheckbox(t, site, f, v)));
  }

  lemma {:induction false} EmptyCounts(teeth: seq<Tooth>)
    ensures CountedSites(CreateEmptyExamination(), teeth) == 2 * |teeth|
    ensures FlaggedSites(CreateEmptyExamination(), teeth, Bleeding) == 0
    ensures FlaggedSites(CreateEmptyExamination(), teeth, Plaque) == 0
  {
    if |teeth| > 0 {
      var e := CreateEmptyExamination();
      var t := teeth[|teeth| - 1];
      EmptyCounts(teeth[..|teeth| - 1]);
      assert e.teeth[t] == CreateEmptyTooth(t);
      EmptyToothUnflagged(t, Bleeding);
      EmptyToothUnflagged(t, Plaque);
    }
  }

  lemma EmptyToothUnflagged(t: Tooth, f: CheckboxField)
    ensures SitesFlagged(CreateEmptyTooth(t), f, SummarySites()) == 0
  {
    var td := CreateEmptyTooth(t);
    var sites := SummarySites();
    assert td.sites[D] == CreateEmptySite() && td.sites[M] == CreateEmptySite();
    assert sites[..1] == [D] && sites[..1][..0] == [];
    assert SitesFlagged(td, f, sites[..1]) == 0;
  }

  /** A fresh chart counts all 64 sites, none bleeding, none with plaque. */
  lemma EmptySummary()
    ensures Summarize(CreateEmptyExamination()) == PerioSummary(0, 0, 0, 0, 64)
  {
    AllTeethExact();
    EmptyCounts(AllTeeth());
  }
}
