/** The helpers the inbox list and the inbox item share (both files define
    the same three): the sender's display name, truncation of long text,
    and the choice of date format by age. The locale formatting of times
    and dates is not modelled; the format is named by a label. */
module EmailDisplay {
  import opened Wrappers
  import opened Strings

  const Unknown: string := "Unknown"

  /** A string JavaScript treats as true: present and not empty. */
  predicate Present(s: Option<string>) {
    s.Some? && s.value != ""
  }

  /** The match of `/^([^<]+)/`: the text before the first '<', when that
      text is not empty. */
  function NamePrefix(s: string): (r: Option<string>)
    ensures r.Some? <==> |s| > 0 && s[0] != '<'
    ensures r.Some? ==> r.value <= s && '<' !in r.value
  {
    var k := IndexOf(s, '<');
    if k == 0 then None else Some(s[..k])
  }

  /** The display form of the matched text: trimmed, every '"' removed. */
  function CleanName(prefix: string): (r: string)
    ensures '"' !in r
  {
    RemoveChar(Trim(prefix), '"')
  }

  /** `extractName`: "Unknown" for a missing or empty sender, the cleaned
      text before the first '<', or the whole sender when it starts with
      '<'. */
  function ExtractName(from: Option<string>): string {
    if !Present(from) then Unknown
    else
      match NamePrefix(from.value)
      case Some(p) => CleanName(p)
      case None => from.value
  }

  /** A display name that survives the round trip: non-empty, not padded,
      and free of '<' and '"'. */
  predicate PlainName(name: string) {
    name != "" && !IsJsSpace(name[0]) && !IsJsSpace(name[|name| - 1])
    && '<' !in name && '"' !in name
  }

  /** `Name <address>` gives back the name. */
  lemma ExtractNameOfNamed(name: string, addr: string)
    requires PlainName(name)
    ensures ExtractName(Some(name + " <" + addr + ">")) == name
  {
    NameOfFormatted(name, addr);
    ExtractFromPrefix(name + " <" + addr + ">", name + " ");
  }

  /** `"Name" <address>` gives back the name without the quotes. */
  lemma ExtractNameOfQuoted(name: string, addr: string)
    requires PlainName(name)
    ensures ExtractName(Some("\"" + name + "\" <" + addr + ">")) == name
  {
    QuotedNameOfFormatted(name, addr);
    ExtractFromPrefix("\"" + name + "\" <" + addr + ">", "\"" + name + "\" ");
  }

  /** Missing or empty senders are "Unknown"; a sender starting with '<'
      is shown as it is. */
  lemma ExtractNameFallbacks(from: string)
    ensures ExtractName(None) == Unknown && ExtractName(Some("")) == Unknown
    ensures from != "" && from[0] == '<' ==> ExtractName(Some(from)) == from
  {
  }

  lemma ExtractFromPrefix(s: string, p: string)
    requires NamePrefix(s) == Some(p)
    ensures ExtractName(Some(s)) == CleanName(p)
  {
  }

  lemma NameOfFormatted(name: string, addr: string)
    requires PlainName(name)
    ensures NamePrefix(name + " <" + addr + ">") == Some(name + " ")
    ensures CleanName(name + " ") == name
  {
    var s := name + " <" + addr + ">";
    assert s == (name + " ") + ['<'] + (addr + ">");
    IndexOfFirst(name + " ", '<', addr + ">");
    assert s[..|name| + 1] == name + " ";
    assert name + " " == [] + name + " ";
    TrimPadded([], name, " ");
    RemoveCharAbsent(name, '"');
  }

  lemma QuotedNameOfFormatted(name: string, addr: string)
    requires PlainName(name)
    ensures NamePrefix("\"" + name + "\" <" + addr + ">") == Some("\"" + name + "\" ")
    ensures CleanName("\"" + name + "\" ") == name
  {
    var q := "\"" + name + "\"";
    var s := "\"" + name + "\" <" + addr + ">";
    assert s == (q + " ") + ['<'] + (addr + ">");
    assert '<' !in q + " ";
    IndexOfFirst(q + " ", '<', addr + ">");
    assert s[..|q| + 1] == q + " ";
    TrimQuoted(q);
    assert q + " " == "\"" + name + "\" ";
    UnquoteName(name);
  }

  lemma TrimQuoted(q: string)
    requires q != [] && !IsJsSpace(q[0]) && !IsJsSpace(q[|q| - 1])
    ensures Trim(q + " ") == q
  {
    assert q + " " == [] + q + " ";
    TrimPadded([], q, " ");
  }

  lemma UnquoteName(name: string)
    requires '"' !in name
    ensures RemoveChar("\"" + name + "\"", '"') == name
  {
    RemoveCharConcat("\"" + name, "\"", '"');
    RemoveCharConcat("\"", name, '"');
    RemoveCharAbsent(name, '"');
    assert RemoveChar("\"", '"') == "";
  }

  /** A name taken from before '<' holds neither '<' nor '"'. */
  lemma ExtractedNameIsClean(from: string)
    requires from != "" && from[0] != '<'
    ensures '<' !in ExtractName(Some(from)) && '"' !in ExtractName(Some(from))
  {
    var p := NamePrefix(from).value;
    var t := Trim(p);
    var l := LeadingSpace(p);
    assert forall j :: 0 <= j < |t| ==> t[j] == p[l + j];
    assert '<' !in t;
  }

  /** `truncate`: nothing for a missing or empty text, the text when it
      fits, else its first `max` characters and "...". */
  function Truncate(text: Option<string>, max: nat): string {
    if !Present(text) then ""
    else if |text.value| <= max then text.value
    else text.value[..max] + "..."
  }

  /** The result is at most three characters over the limit; a text that
      fits is kept whole, a longer one keeps its first `max` characters
      followed by "...". */
  lemma TruncateExactly(text: Option<string>, max: nat)
    ensures |Truncate(text, max)| <= max + 3
    ensures text.None? ==> Truncate(text, max) == ""
    ensures text.Some? && |text.value| <= max ==> Truncate(text, max) == text.value
    ensures text.Some? && |text.value| > max ==>
              && |Truncate(text, max)| == max + 3
              && Truncate(text, max)[..max] == text.value[..max]
              && EndsWith(Truncate(text, max), "...")
  {
    if text.Some? && |text.value| > max {
      var r := Truncate(text, max);
      assert r[..max] == text.value[..max];
      assert r[max..] == "...";
    }
  }

  const MsPerMinute: nat := 60000
  const MsPerHour: nat := 3600000
  const MsPerDay: nat := 86400000

  /** Which format the list shows a date in. */
  datatype DateFormat = NoDate | TimeOfDay | Yesterday | Weekday | MonthDay

  /** The format for a message `diff` milliseconds old: by the whole
      number of days, rounded down (`Math.floor`), 0 gives the time, 1
      "Yesterday", under 7 the weekday, and anything else month and day. */
  function DayFormat(diff: int): DateFormat {
    var days := diff / MsPerDay;
    if days == 0 then TimeOfDay
    else if days == 1 then Yesterday
    else if days < 7 then Weekday
    else MonthDay
  }

  /** `formatDate`: no text for a missing date. Times are milliseconds
      since the epoch; `now` is the reading of the clock. */
  function FormatDate(date: Option<int>, now: int): DateFormat {
    match date
    case None => NoDate
    case Some(t) => DayFormat(now - t)
  }

  /** The formats by age: the time within the first day, "Yesterday" in
      the second, the weekday up to a week and also for dates in the
      future, and month and day from the seventh day on. */
  lemma DayFormatExactly(diff: int)
    ensures DayFormat(diff) == TimeOfDay <==> 0 <= diff < MsPerDay
    ensures DayFormat(diff) == Yesterday <==> MsPerDay <= diff < 2 * MsPerDay
    ensures DayFormat(diff) == Weekday <==> diff < 0 || 2 * MsPerDay <= diff < 7 * MsPerDay
    ensures DayFormat(diff) == MonthDay <==> 7 * MsPerDay <= diff
  {
    DivBounds(diff, MsPerDay);
  }

  /** Floor division pins the dividend between two multiples. */
  lemma DivBounds(a: int, b: nat)
    requires b > 0
    ensures b * (a / b) <= a < b * (a / b) + b
  {
  }
}
