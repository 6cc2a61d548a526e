/** The mail-provider helpers that are pure logic: reading a header by
    name, choosing the plain-text and HTML bodies of a fetched message,
    splitting the recipient list, the read flag, and composing and
    encoding an outgoing message (section 2.1 of RFC 5322 for the
    header/body layout, section 3.6.4 of RFC 5322 for the threading
    headers). The HTTP calls, token handling and UTF-8 conversion are
    parameters or left out. */
module Gmail {
  import opened Wrappers
  import opened Strings
  import opened Base64

  /** A header as the provider returns it: both fields may be missing. */
  datatype Header = Header(name: Option<string>, value: Option<string>)

  /** `h.name?.toLowerCase() === name.toLowerCase()` */
  predicate NameMatches(h: Header, name: string) {
    h.name.Some? && Lower(h.name.value) == Lower(name)
  }

  /** A value JavaScript treats as true: present and not the empty string. */
  predicate Truthy(v: Option<string>) {
    v.Some? && v.value != ""
  }

  /** The position `headers.find` stops at: the first header whose name
      matches, ignoring ASCII case. */
  function FindHeader(headers: seq<Header>, name: string): (r: Option<nat>)
    ensures r.Some? ==> r.value < |headers| && NameMatches(headers[r.value], name)
    ensures r.Some? ==> forall k :: 0 <= k < r.value ==> !NameMatches(headers[k], name)
    ensures r.None? ==> forall k :: 0 <= k < |headers| ==> !NameMatches(headers[k], name)
  {
    if |headers| == 0 then None
    else if NameMatches(headers[0], name) then Some(0)
    else
      match FindHeader(headers[1..], name)
      case None => None
      case Some(k) => Some(k + 1)
  }

  /** `getHeader`: the value of the first matching header, or nothing when
      there is none or its value is missing or empty. */
  function GetHeader(headers: seq<Header>, name: string): Option<string> {
    match FindHeader(headers, name)
    case None => None
    case Some(k) => if Truthy(headers[k].value) then headers[k].value else None
  }

  /** A header value is found exactly when the first header with that
      name, in any ASCII case, carries a non-empty value; a later header
      of the same name is never consulted. */
  lemma GetHeaderExactly(headers: seq<Header>, name: string, v: string)
    ensures GetHeader(headers, name) == Some(v) <==>
              exists k :: && 0 <= k < |headers| && NameMatches(headers[k], name)
                          && (forall j :: 0 <= j < k ==> !NameMatches(headers[j], name))
                          && headers[k].value == Some(v) && v != ""
  {
    if GetHeader(headers, name) == Some(v) {
      var k := FindHeader(headers, name).value;
      assert NameMatches(headers[k], name);
    }
    if exists k :: && 0 <= k < |headers| && NameMatches(headers[k], name)
                   && (forall j :: 0 <= j < k ==> !NameMatches(headers[j], name))
                   && headers[k].value == Some(v) && v != "" {
      var k :| && 0 <= k < |headers| && NameMatches(headers[k], name)
               && (forall j :: 0 <= j < k ==> !NameMatches(headers[j], name))
               && headers[k].value == Some(v) && v != "";
      assert FindHeader(headers, name) == Some(k);
    }
  }

  /** The name is looked up without regard to ASCII case. */
  lemma {:induction false} GetHeaderIgnoresCase(headers: seq<Header>, a: string, b: string)
    requires Lower(a) == Lower(b)
    ensures GetHeader(headers, a) == GetHeader(headers, b)
  {
    FindHeaderIgnoresCase(headers, a, b);
  }

  lemma {:induction false} FindHeaderIgnoresCase(headers: seq<Header>, a: string, b: string)
    requires Lower(a) == Lower(b)
    ensures FindHeader(headers, a) == FindHeader(headers, b)
    decreases |headers|
  {
    if |headers| > 0 {
      FindHeaderIgnoresCase(headers[1..], a, b);
    }
  }

  /** A first header with an empty value hides a later one with a value. */
  lemma EmptyFirstHeaderHides(name: string, later: string)
    requires later != ""
    ensures GetHeader([Header(Some(name), Some("")), Header(Some(name), Some(later))], name) == None
  {
  }

  /** The non-empty entries of a list, in order (`filter(Boolean)`). */
  function NonEmpty(xs: seq<string>): (r: seq<string>)
    ensures |r| <= |xs|
    ensures forall i :: 0 <= i < |r| ==> r[i] != "" && r[i] in xs
  {
    if |xs| == 0 then []
    else (if xs[0] == "" then [] else [xs[0]]) + NonEmpty(xs[1..])
  }

  /** Every entry trimmed (`map((addr) => addr.trim())`). */
  function TrimAll(xs: seq<string>): (r: seq<string>)
    ensures |r| == |xs|
    ensures forall i :: 0 <= i < |xs| ==> r[i] == Trim(xs[i])
  {
    seq(|xs|, i requires 0 <= i < |xs| => Trim(xs[i]))
  }

  /** The recipients of a header value: split at commas, trimmed, empty
      entries dropped. */
  function AddressList(s: string): seq<string> {
    NonEmpty(TrimAll(Split(s, ',')))
  }

  /** The recipients of a fetched message, from its `To` header. */
  function ToAddresses(headers: seq<Header>): seq<string> {
    AddressList(GetHeader(headers, "To").GetOr(""))
  }

  /** A string that `trim` leaves alone and that holds no comma: the form
      of one clean recipient. */
  predicate CleanAddress(a: string) {
    a != "" && !IsJsSpace(a[0]) && !IsJsSpace(a[|a| - 1]) && ',' !in a
  }

  lemma TrimOfTrimmed(s: string)
    requires s == [] || (!IsJsSpace(s[0]) && !IsJsSpace(s[|s| - 1]))
    ensures Trim(s) == s
  {
  }

  /** Every recipient found is clean: non-empty, trimmed, comma-free. */
  lemma AddressListClean(s: string)
    ensures forall i :: 0 <= i < |AddressList(s)| ==> CleanAddress(AddressList(s)[i])
  {
    var parts := Split(s, ',');
    var trimmed := TrimAll(parts);
    forall i | 0 <= i < |trimmed| ensures trimmed[i] == [] || CleanAddress(trimmed[i]) {
      TrimKeepsOut(parts[i], ',');
    }
    NonEmptyFrom(trimmed);
  }

  lemma TrimKeepsOut(p: string, c: char)
    requires c !in p
    ensures c !in Trim(p)
  {
    var l := LeadingSpace(p);
    var x := Trim(p);
    assert forall j :: 0 <= j < |x| ==> x[j] == p[l + j];
  }

  lemma NonEmptyFrom(xs: seq<string>)
    requires forall i :: 0 <= i < |xs| ==> xs[i] == [] || CleanAddress(xs[i])
    ensures forall i :: 0 <= i < |NonEmpty(xs)| ==> CleanAddress(NonEmpty(xs)[i])
  {
    var r := NonEmpty(xs);
    forall i | 0 <= i < |r| ensures CleanAddress(r[i]) {
      assert r[i] in xs;
    }
  }

  /** A list of clean addresses written with commas between them is read
      back as that list. */
  lemma AddressListOfJoin(addrs: seq<string>)
    requires forall i :: 0 <= i < |addrs| ==> CleanAddress(addrs[i])
    ensures AddressList(Join(addrs, ",")) == addrs
  {
    if |addrs| == 0 {
      AddressListOfEmpty();
    } else {
      SplitJoin(addrs, ',');
      TrimAllClean(addrs);
      NonEmptyOfNonEmpty(addrs);
    }
  }

  lemma AddressListOfEmpty()
    ensures AddressList("") == []
  {
    assert Split("", ',') == [""];
    assert TrimAll([""]) == [""];
  }

  lemma TrimAllClean(addrs: seq<string>)
    requires forall i :: 0 <= i < |addrs| ==> CleanAddress(addrs[i])
    ensures TrimAll(addrs) == addrs
  {
    forall i | 0 <= i < |addrs| ensures Trim(addrs[i]) == addrs[i] {
      TrimOfTrimmed(addrs[i]);
    }
  }

  lemma {:induction false} NonEmptyOfNonEmpty(xs: seq<string>)
    requires forall i :: 0 <= i < |xs| ==> xs[i] != ""
    ensures NonEmpty(xs) == xs
  {
    if |xs| > 0 {
      NonEmptyOfNonEmpty(xs[1..]);
      assert [xs[0]] + xs[1..] == xs;
    }
  }

  /** A message without a `To` header, or with an empty one, has no
      recipients. */
  lemma NoToHeaderNoRecipients(headers: seq<Header>)
    requires GetHeader(headers, "To").None?
    ensures ToAddresses(headers) == []
  {
    AddressListOfEmpty();
  }

  /** `isRead`: a message is read unless it carries the `UNREAD` label; a
      message without labels is read. */
  function IsRead(labelIds: Option<seq<string>>): (r: bool)
    ensures labelIds.None? ==> r
    ensures labelIds.Some? ==> (r <==> forall i :: 0 <= i < |labelIds.value| ==> labelIds.value[i] != "UNREAD")
  {
    "UNREAD" !in labelIds.GetOr([])
  }

  /** One part of a multipart message. */
  datatype Part = Part(mimeType: Option<string>, data: Option<string>)

  /** The top-level payload: its own type and data, and its parts. */
  datatype Payload = Payload(mimeType: Option<string>, data: Option<string>, parts: Option<seq<Part>>)

  /** The two bodies a fetched message may have. */
  datatype Bodies = Bodies(text: Option<string>, html: Option<string>)

  const Html: string := "text/html"
  const Plain: string := "text/plain"

  /** The top-level data, when present, is HTML if the payload says so and
      plain text otherwise. */
  function TopLevelBodies(p: Payload, decode: string -> string): Bodies {
    if Truthy(p.data) then
      if p.mimeType == Some(Html) then Bodies(None, Some(decode(p.data.value)))
      else Bodies(Some(decode(p.data.value)), None)
    else Bodies(None, None)
  }

  /** One step of the loop over the parts: an HTML or plain-text part with
      data replaces that body; any other part changes nothing. */
  function ApplyPart(b: Bodies, part: Part, decode: string -> string): Bodies {
    if Truthy(part.data) then
      if part.mimeType == Some(Html) then b.(html := Some(decode(part.data.value)))
      else if part.mimeType == Some(Plain) then b.(text := Some(decode(part.data.value)))
      else b
    else b
  }

  /** The loop over the parts, first to last. */
  function ApplyParts(b: Bodies, parts: seq<Part>, decode: string -> string): Bodies
    decreases |parts|
  {
    if |parts| == 0 then b else ApplyParts(ApplyPart(b, parts[0], decode), parts[1..], decode)
  }

  /** The bodies of a fetched message. */
  function ParseBodies(payload: Option<Payload>, decode: string -> string): Bodies {
    match payload
    case None => Bodies(None, None)
    case Some(p) =>
      var top := TopLevelBodies(p, decode);
      match p.parts
      case None => top
      case Some(parts) => ApplyParts(top, parts, decode)
  }

  predicate PartCarries(part: Part, mime: string) {
    Truthy(part.data) && part.mimeType == Some(mime)
  }

  /** The last part of the given type that has data. */
  function LastPart(parts: seq<Part>, mime: string): (r: Option<nat>)
    ensures r.Some? ==> r.value < |parts| && PartCarries(parts[r.value], mime)
    ensures r.Some? ==> forall k :: r.value < k < |parts| ==> !PartCarries(parts[k], mime)
    ensures r.None? ==> forall k :: 0 <= k < |parts| ==> !PartCarries(parts[k], mime)
    decreases |parts|
  {
    if |parts| == 0 then None
    else
      match LastPart(parts[1..], mime)
      case Some(k) => Some(k + 1)
      case None => if PartCarries(parts[0], mime) then Some(0) else None
  }

  /** The body of a given type chosen among the parts: the decoded data of
      the last part of that type with data, or what was there before. */
  function Chosen(parts: seq<Part>, mime: string, before: Option<string>, decode: string -> string): Option<string> {
    match LastPart(parts, mime)
    case Some(k) => Some(decode(parts[k].data.value))
    case None => before
  }

  /** Later parts overwrite earlier ones: after the loop each body is the
      last part of its type, or what the loop started with. */
  lemma {:induction false} ApplyPartsLastWins(b: Bodies, parts: seq<Part>, decode: string -> string)
    ensures ApplyParts(b, parts, decode).html == Chosen(parts, Html, b.html, decode)
    ensures ApplyParts(b, parts, decode).text == Chosen(parts, Plain, b.text, decode)
    decreases |parts|
  {
    if |parts| > 0 {
      var b1 := ApplyPart(b, parts[0], decode);
      ApplyPartsLastWins(b1, parts[1..], decode);
      assert parts[1..][0..] == parts[1..];
    }
  }

  /** The HTML body of a message is its last HTML part with data, else the
      top-level data when the payload is HTML; the text body is its last
      plain-text part with data, else the top-level data when the payload
      is not HTML. */
  lemma ParseBodiesExactly(p: Payload, decode: string -> string)
    ensures var parts := p.parts.GetOr([]);
            var top := Truthy(p.data);
            var topHtml := top && p.mimeType == Some(Html);
            && ParseBodies(Some(p), decode).html ==
                 Chosen(parts, Html, if topHtml then Some(decode(p.data.value)) else None, decode)
            && ParseBodies(Some(p), decode).text ==
                 Chosen(parts, Plain, if top && !topHtml then Some(decode(p.data.value)) else None, decode)
  {
    ApplyPartsLastWins(TopLevelBodies(p, decode), p.parts.GetOr([]), decode);
  }

  /** What `sendEmail` is given. The thread id travels beside the raw
      message and is not part of it. */
  datatype SendOptions = SendOptions(
    to: string,
    subject: string,
    body: string,
    threadId: Option<string>,
    inReplyTo: Option<string>,
    references: Option<string>)

  const Crlf: string := "\r\n"
  const ContentType: string := "Content-Type: text/plain; charset=utf-8"

  /** The header lines of an outgoing message. */
  function HeaderLines(o: SendOptions): (r: seq<string>)
    ensures 3 <= |r| <= 5
    ensures r[0] == "To: " + o.to && r[1] == "Subject: " + o.subject && r[2] == ContentType
  {
    ["To: " + o.to, "Subject: " + o.subject, ContentType]
    + (if Truthy(o.inReplyTo) then ["In-Reply-To: " + o.inReplyTo.value] else [])
    + (if Truthy(o.references) then ["References: " + o.references.value] else [])
  }

  /** The threading headers appear only when given a non-empty value,
      In-Reply-To before References. */
  lemma ThreadingHeaders(o: SendOptions)
    ensures |HeaderLines(o)| == 3 + (if Truthy(o.inReplyTo) then 1 else 0) + (if Truthy(o.references) then 1 else 0)
    ensures Truthy(o.inReplyTo) ==> HeaderLines(o)[3] == "In-Reply-To: " + o.inReplyTo.value
    ensures Truthy(o.references) ==> HeaderLines(o)[|HeaderLines(o)| - 1] == "References: " + o.references.value
  {
  }

  /** The raw message: the header lines, an empty line, then the body, all
      joined by CRLF. */
  function RawMessage(o: SendOptions): string {
    Join(HeaderLines(o) + ["", o.body], Crlf)
  }

  /** The raw message is the header block, one blank line (two CRLFs) and
      the body, as section 2.1 of RFC 5322 lays it out. */
  lemma RawMessageLayout(o: SendOptions)
    ensures RawMessage(o) == Join(HeaderLines(o), Crlf) + Crlf + Crlf + o.body
  {
    JoinAppend(HeaderLines(o), ["", o.body], Crlf);
    assert ["", o.body][1..] == [o.body];
  }

  /** The `raw` field sent: the UTF-8 bytes of the message in base 64, made
      URL-safe by replacing characters and dropping the padding. */
  function EncodedRaw(o: SendOptions, utf8: string -> seq<byte>): string {
    ToUrlSafe(EncodeStd(utf8(RawMessage(o))))
  }

  /** The text sent is the unpadded URL-safe base 64 of the message bytes,
      and decoding it gives those bytes back. */
  lemma EncodedRawRoundTrip(o: SendOptions, utf8: string -> seq<byte>)
    ensures EncodedRaw(o, utf8) == EncodeUrl(utf8(RawMessage(o)))
    ensures DecodeUrl(EncodedRaw(o, utf8)) == Some(utf8(RawMessage(o)))
  {
    ToUrlSafeOfStd(utf8(RawMessage(o)));
    DecodeEncodeUrl(utf8(RawMessage(o)));
  }
}
