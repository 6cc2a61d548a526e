/** The helpers of a draft awaiting review: how long ago the email came,
    the sender's name, the confidence shown in percent and whether it is
    low, and the preview of the original body. */
module ReviewItem {
  import opened Wrappers
  import opened Strings
  import opened JsMath
  import opened EmailDisplay

  /** `formatTimeAgo` for a message `diff` milliseconds old: whole hours
      and minutes are rounded down, and the days are the whole hours
      divided by 24, rounded down. */
  function FormatTimeAgo(diff: int): string {
    var hours := diff / MsPerHour;
    var minutes := diff / MsPerMinute;
    if hours >= 24 then IntToString(hours / 24) + "d ago"
    else if hours >= 1 then IntToString(hours) + "h ago"
    else if minutes >= 1 then IntToString(minutes) + "m ago"
    else "just now"
  }

  /** The text by age: whole days from one day on, whole hours from one
      hour, whole minutes from one minute, and "just now" for anything
      younger, a date in the future included. */
  lemma FormatTimeAgoExactly(diff: int)
    ensures MsPerDay <= diff ==> FormatTimeAgo(diff) == IntToString(diff / MsPerDay) + "d ago"
    ensures MsPerHour <= diff < MsPerDay ==> FormatTimeAgo(diff) == IntToString(diff / MsPerHour) + "h ago"
    ensures MsPerMinute <= diff < MsPerHour ==> FormatTimeAgo(diff) == IntToString(diff / MsPerMinute) + "m ago"
    ensures diff < MsPerMinute ==> FormatTimeAgo(diff) == "just now"
  {
    DivBounds(diff, MsPerHour);
    DivBounds(diff, MsPerMinute);
    if diff >= MsPerDay {
      DaysFromHours(diff);
    }
  }

  /** Counting whole hours and then whole days of 24 hours gives the whole
      days. */
  lemma DaysFromHours(diff: int)
    ensures diff / MsPerHour / 24 == diff / MsPerDay
  {
    var d := diff / MsPerDay;
    var rest := diff % MsPerDay;
    assert diff == MsPerDay * d + rest;
    assert MsPerDay * d == MsPerHour * (24 * d);
    HourSplit(diff, 24 * d, rest);
    assert rest / MsPerHour < 24;
  }

  lemma HourSplit(diff: int, h: int, rest: int)
    requires diff == MsPerHour * h + rest && 0 <= rest
    ensures diff / MsPerHour == h + rest / MsPerHour
  {
  }

  /** `extractSenderName`: like the inbox's name, except that a sender
      starting with '<' is cut at the first '@'. */
  function ExtractSenderName(from: Option<string>): string {
    if !Present(from) then Unknown
    else
      match NamePrefix(from.value)
      case Some(p) => CleanName(p)
      case None => Split(from.value, '@')[0]
  }

  /** The sender name agrees with the inbox's name whenever the sender does
      not start with '<'; a bare `<address>` is shown up to its '@', which
      keeps the '<'. */
  lemma SenderNameExactly(from: Option<string>, user: string, domain: string)
    requires '@' !in user
    ensures !(Present(from) && from.value[0] == '<') ==> ExtractSenderName(from) == ExtractName(from)
    ensures ExtractSenderName(Some("<" + user + "@" + domain + ">")) == "<" + user
  {
    var s := "<" + user + "@" + domain + ">";
    assert s == ("<" + user) + ['@'] + (domain + ">");
    assert '@' !in "<" + user;
    IndexOfFirst("<" + user, '@', domain + ">");
    assert s[..|user| + 1] == "<" + user;
  }

  /** The confidence shown: the reply's, unless it is missing or zero, in
      which case the classifier's (`responseConfidence || intentConfidence`). */
  function UsedConfidence(responseConfidence: Option<real>, intentConfidence: real): real {
    if responseConfidence.Some? && responseConfidence.value != 0.0 then responseConfidence.value
    else intentConfidence
  }

  /** The confidence in whole percent, rounded as `Math.round` does. */
  function ConfidencePercent(responseConfidence: Option<real>, intentConfidence: real): int {
    JsRound(UsedConfidence(responseConfidence, intentConfidence) * 100.0)
  }

  const LowConfidenceBelow: int := 80

  predicate IsLowConfidence(responseConfidence: Option<real>, intentConfidence: real) {
    ConfidencePercent(responseConfidence, intentConfidence) < LowConfidenceBelow
  }

  /** A draft is marked low exactly when the confidence used is below
      0.795, the point from which it rounds to 80 percent; a zero reply
      confidence counts as missing. */
  lemma LowConfidenceExactly(responseConfidence: Option<real>, intentConfidence: real)
    ensures (IsLowConfidence(responseConfidence, intentConfidence)
             <==> UsedConfidence(responseConfidence, intentConfidence) < 0.795)
    ensures responseConfidence == Some(0.0) ==>
              ConfidencePercent(responseConfidence, intentConfidence) == ConfidencePercent(None, intentConfidence)
  {
  }

  const PreviewLength: nat := 500
  const NoBody: string := "(no body)"

  /** The preview of the original body: its first 500 characters, or
      "(no body)" when it is missing or empty, followed by "..." when it is
      longer than 500. */
  function BodyPreview(body: Option<string>): string {
    var text := body.GetOr("");
    var head := if |text| <= PreviewLength then text else text[..PreviewLength];
    (if head != "" then head else NoBody) + (if |text| > PreviewLength then "..." else "")
  }

  /** A short body is shown whole, a long one cut to 500 characters with
      "...", and a missing or empty one as "(no body)". */
  lemma BodyPreviewExactly(body: Option<string>)
    ensures body.None? || body == Some("") ==> BodyPreview(body) == NoBody
    ensures body.Some? && 0 < |body.value| <= PreviewLength ==> BodyPreview(body) == body.value
    ensures body.Some? && |body.value| > PreviewLength ==>
              && |BodyPreview(body)| == PreviewLength + 3
              && BodyPreview(body)[..PreviewLength] == body.value[..PreviewLength]
              && EndsWith(BodyPreview(body), "...")
  {
    if body.Some? && |body.value| > PreviewLength {
      var r := BodyPreview(body);
      assert r[..PreviewLength] == body.value[..PreviewLength];
      assert r[PreviewLength..] == "...";
    }
  }
}
