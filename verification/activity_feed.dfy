/** The dashboard's activity feed: the type filter, the titles, the search
    box, the day a log entry is filed under, the relative time, and the
    grouping of the filtered list by day. Local calendar days and locale
    formatting are parameters. */
module ActivityFeed {
  import opened Wrappers
  import opened Strings
  import opened EmailDisplay
  import opened ReviewItem
  import opened Sequences

  datatype EmailRef = EmailRef(subject: Option<string>, fromAddress: Option<string>)
  datatype DraftRef = DraftRef(responseSubject: Option<string>)

  /** A log entry; `createdAt` is in milliseconds since the epoch. The
      free-form data is not modelled. */
  datatype Activity = Activity(id: string, kind: string, createdAt: int, email: Option<EmailRef>, draft: Option<DraftRef>)

  datatype Filter = All | Sent | Booked | Drafts | Escalated

  /** `matchesFilter` */
  function MatchesFilter(a: Activity, f: Filter): bool {
    if f == All then true
    else
      match f
      case Sent => a.kind == "email_sent" || a.kind == "draft_sent"
      case Booked => a.kind == "booking_created"
      case Drafts => a.kind == "draft_created" || a.kind == "pipeline_complete"
      case Escalated => a.kind == "escalated"
      case All => true
  }

  /** The log types each filter button stands for. */
  function FilterTypes(f: Filter): set<string>
    requires f != All
  {
    match f
    case Sent => {"email_sent", "draft_sent"}
    case Booked => {"booking_created"}
    case Drafts => {"draft_created", "pipeline_complete"}
    case Escalated => {"escalated"}
  }

  /** "All" lets everything through; every other filter keeps exactly its
      own log types, and no type belongs to two filters. */
  lemma MatchesFilterExactly(a: Activity, f: Filter, g: Filter)
    ensures f == All ==> MatchesFilter(a, f)
    ensures f != All ==> (MatchesFilter(a, f) <==> a.kind in FilterTypes(f))
    ensures f != All && g != All && f != g ==> FilterTypes(f) !! FilterTypes(g)
  {
  }

  /** `getActivityTitle` */
  function ActivityTitle(kind: string): string {
    if kind == "email_sent" || kind == "draft_sent" then "Sent reply"
    else if kind == "booking_created" then "Booked appointment"
    else if kind == "draft_created" || kind == "pipeline_complete" then "Drafted reply"
    else if kind == "escalated" then "Escalated"
    else if kind == "draft_rejected" then "Draft rejected"
    else if kind == "draft_approved" then "Draft approved"
    else ReplaceChar(kind, '_', ' ')
  }

  const TitledKinds: set<string> := {"email_sent", "draft_sent", "booking_created", "draft_created",
                                     "pipeline_complete", "escalated", "draft_rejected", "draft_approved"}

  /** A type without a title of its own is shown with spaces for
      underscores; when the type has no spaces itself, the title gives it
      back. */
  lemma ActivityTitleFallback(kind: string)
    requires kind !in TitledKinds
    ensures '_' !in ActivityTitle(kind) && |ActivityTitle(kind)| == |kind|
    ensures ' ' !in kind ==> ReplaceChar(ActivityTitle(kind), ' ', '_') == kind
  {
  }

  /** The subject searched: the email's, else the draft's, else nothing. */
  function SearchSubject(a: Activity): string {
    if a.email.Some? && Present(a.email.value.subject) then a.email.value.subject.value
    else if a.draft.Some? && Present(a.draft.value.responseSubject) then a.draft.value.responseSubject.value
    else ""
  }

  function SearchFrom(a: Activity): string {
    if a.email.Some? && Present(a.email.value.fromAddress) then a.email.value.fromAddress.value else ""
  }

  /** The search box: an empty search passes everything; otherwise the
      lower-cased search must occur in the lower-cased subject, sender or
      type. */
  predicate MatchesSearch(a: Activity, search: string) {
    search == ""
    || Contains(Lower(SearchSubject(a)), Lower(search))
    || Contains(Lower(SearchFrom(a)), Lower(search))
    || Contains(Lower(a.kind), Lower(search))
  }

  /** The test the list applies to each entry. */
  predicate Keep(a: Activity, f: Filter, search: string) {
    MatchesFilter(a, f) && MatchesSearch(a, search)
  }

  /** An empty search leaves only the type filter. */
  lemma EmptySearchFiltersOnly(a: Activity, f: Filter)
    ensures Keep(a, f, "") == MatchesFilter(a, f)
  {
  }

  /** The search ignores ASCII case. */
  lemma SearchIgnoresCase(a: Activity, f: Filter, s: string, t: string)
    requires Lower(s) == Lower(t)
    ensures Keep(a, f, s) == Keep(a, f, t)
  {
    assert |s| == |Lower(s)| && |t| == |Lower(t)|;
  }

  /** An entry that passes the type filter and whose type contains the
      search, in any case, is kept. */
  lemma SearchFindsType(a: Activity, f: Filter, s: string)
    requires MatchesFilter(a, f) && Contains(a.kind, s)
    ensures Keep(a, f, s)
  {
    ContainsLower(a.kind, s);
  }

  lemma ContainsLower(hay: string, needle: string)
    requires Contains(hay, needle)
    ensures Contains(Lower(hay), Lower(needle))
  {
    var i :| 0 <= i <= |hay| - |needle| && OccursAt(hay, needle, i);
    var lh := Lower(hay);
    var ln := Lower(needle);
    forall j | 0 <= j < |needle| ensures lh[i + j] == ln[j] {
      assert hay[i + j] == needle[j];
    }
    assert lh[i..i + |ln|] == ln;
    assert OccursAt(lh, ln, i);
  }

  /** `activities.filter(...)`: the entries the test keeps, in order. */
  function FilterActivities(acts: seq<Activity>, f: Filter, search: string): (r: seq<Activity>)
    ensures forall k :: 0 <= k < |r| ==> Keep(r[k], f, search)
  {
    Sequences.Filter(acts, a => Keep(a, f, search))
  }

  /** The filtered list is the input with exactly the entries the test
      rejects taken out: positions `idx`, increasing, pick the entries of
      the result, and every entry the test keeps is picked. */
  lemma FilterIsSubsequence(acts: seq<Activity>, f: Filter, search: string) returns (idx: seq<nat>)
    ensures |idx| == |FilterActivities(acts, f, search)|
    ensures forall k :: 0 <= k < |idx| ==> idx[k] < |acts| && FilterActivities(acts, f, search)[k] == acts[idx[k]]
    ensures forall k, l :: 0 <= k < l < |idx| ==> idx[k] < idx[l]
    ensures forall i :: 0 <= i < |acts| && Keep(acts[i], f, search) ==> i in idx
  {
    var p := a => Keep(a, f, search);
    idx := FilterPicks(acts, p);
    assert forall i :: 0 <= i < |acts| ==> p(acts[i]) == Keep(acts[i], f, search);
  }

  /** The day heading of an entry: "Today", "Yesterday", or the locale's
      month and day. `midnight` gives the start of the local day of a time
      and `monthDay` the locale text of a date. */
  function DayLabel(t: int, now: int, midnight: int -> int, monthDay: int -> string): string {
    var today := midnight(now);
    var yesterday := today - MsPerDay;
    var day := midnight(t);
    if day == today then "Today"
    else if day == yesterday then "Yesterday"
    else monthDay(t)
  }

  /** Headings are never empty when the locale's dates are not. */
  lemma DayLabelNonEmpty(t: int, now: int, midnight: int -> int, monthDay: int -> string)
    requires monthDay(t) != ""
    ensures DayLabel(t, now, midnight, monthDay) != ""
    ensures midnight(t) == midnight(now) ==> DayLabel(t, now, midnight, monthDay) == "Today"
  {
  }

  /** `formatTime`: the locale's time of day from 24 hours on, and
      otherwise the same relative time as a draft under review. */
  function FormatTime(diff: int, timeOfDay: string): string {
    var hours := diff / MsPerHour;
    var minutes := diff / MsPerMinute;
    if hours >= 24 then timeOfDay
    else if hours >= 1 then IntToString(hours) + "h ago"
    else if minutes >= 1 then IntToString(minutes) + "m ago"
    else "just now"
  }

  /** Within a day the feed's relative time is the review list's; from a
      day on it is the time of day. */
  lemma FormatTimeAgreesWithReview(diff: int, timeOfDay: string)
    ensures diff < MsPerDay ==> FormatTime(diff, timeOfDay) == FormatTimeAgo(diff)
    ensures diff >= MsPerDay ==> FormatTime(diff, timeOfDay) == timeOfDay
  {
    DivBounds(diff, MsPerHour);
  }

  /** A heading and the entries under it. */
  datatype Group = Group(date: string, items: seq<Activity>)

  /** All entries of the groups, group after group. */
  function Flatten(groups: seq<Group>): seq<Activity> {
    if |groups| == 0 then []
    else Flatten(groups[..|groups| - 1]) + groups[|groups| - 1].items
  }

  /** The shape the grouping promises: no empty group, every entry under
      its own heading, and two neighbouring groups never share a heading. */
  predicate WellGrouped(groups: seq<Group>, heading: Activity -> string) {
    && (forall k :: 0 <= k < |groups| ==> |groups[k].items| > 0)
    && (forall k, j :: 0 <= k < |groups| && 0 <= j < |groups[k].items| ==> heading(groups[k].items[j]) == groups[k].date)
    && (forall k :: 0 < k < |groups| ==> groups[k - 1].date != groups[k].date)
  }

  lemma FlattenOpen(groups: seq<Group>, g: Group)
    ensures Flatten(groups + [g]) == Flatten(groups) + g.items
  {
    assert (groups + [g])[..|groups|] == groups;
  }

  lemma FlattenExtend(groups: seq<Group>, a: Activity)
    requires |groups| > 0
    ensures var n := |groups| - 1;
            Flatten(groups[..n] + [groups[n].(items := groups[n].items + [a])]) == Flatten(groups) + [a]
  {
    var n := |groups| - 1;
    var g := groups[n].(items := groups[n].items + [a]);
    var f := Flatten(groups[..n]);
    assert Flatten(groups) == f + groups[n].items;
    FlattenOpen(groups[..n], g);
    assert f + (groups[n].items + [a]) == (f + groups[n].items) + [a];
  }

  lemma WellGroupedOpen(groups: seq<Group>, a: Activity, heading: Activity -> string)
    requires WellGrouped(groups, heading)
    requires |groups| == 0 || groups[|groups| - 1].date != heading(a)
    ensures WellGrouped(groups + [Group(heading(a), [a])], heading)
  {
  }

  lemma WellGroupedExtend(groups: seq<Group>, a: Activity, heading: Activity -> string)
    requires WellGrouped(groups, heading)
    requires |groups| > 0 && groups[|groups| - 1].date == heading(a)
    ensures var n := |groups| - 1;
            WellGrouped(groups[..n] + [groups[n].(items := groups[n].items + [a])], heading)
  {
    var n := |groups| - 1;
    var gs := groups[..n] + [groups[n].(items := groups[n].items + [a])];
    assert forall k :: 0 <= k < n ==> gs[k] == groups[k];
  }

  /** The grouping loop: a new group starts whenever the heading differs
      from the current one, which starts as the empty string; the entry
      then goes into the last group. The headings are never empty, so the
      first entry always opens a group. */
  method GroupByDate(acts: seq<Activity>, heading: Activity -> string) returns (groups: seq<Group>)
    requires forall i :: 0 <= i < |acts| ==> heading(acts[i]) != ""
    ensures Flatten(groups) == acts
    ensures WellGrouped(groups, heading)
    ensures |groups| <= |acts|
  {
    groups := [];
    var current := "";
    var i := 0;
    while i < |acts|
      invariant 0 <= i <= |acts|
      invariant Flatten(groups) == acts[..i]
      invariant WellGrouped(groups, heading)
      invariant |groups| <= i
      invariant i == 0 ==> |groups| == 0 && current == ""
      invariant i > 0 ==> |groups| > 0 && current == groups[|groups| - 1].date
    {
      var a := acts[i];
      var date := heading(a);
      if date != current {
        current := date;
        WellGroupedOpen(groups, a, heading);
        FlattenOpen(groups, Group(date, [a]));
        groups := groups + [Group(date, [a])];
      } else {
        var n := |groups| - 1;
        WellGroupedExtend(groups, a, heading);
        FlattenExtend(groups, a);
        groups := groups[..n] + [groups[n].(items := groups[n].items + [a])];
      }
      assert acts[..i + 1] == acts[..i] + [a];
      i := i + 1;
    }
    assert acts[..|acts|] == acts;
  }
}
