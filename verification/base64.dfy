/** Base 64 encoding of bytes: the standard alphabet with '=' padding
    (section 4 of RFC 4648), the URL- and filename-safe alphabet without
    padding (section 5 of RFC 4648, padding omitted as section 3.2 allows),
    and the conversion between the two that the mail sender performs. */
module Base64 {
  import opened Wrappers
  import opened Strings

  type byte = x: int | 0 <= x < 256
  type sextet = x: int | 0 <= x < 64

  /** The 6-bit groups of `b`: four per three bytes, and two or three
      for a final one or two bytes, whose unused low bits are zero. */
  function Sextets(b: seq<byte>): seq<sextet>
    decreases |b|
  {
    if |b| == 0 then []
    else if |b| == 1 then Group1(b[0])
    else if |b| == 2 then Group2(b[0], b[1])
    else Group3(b[0], b[1], b[2]) + Sextets(b[3..])
  }

  /** The 6-bit values of three bytes, and of a final one or two. */
  function Group3(b0: byte, b1: byte, b2: byte): (r: seq<sextet>)
    ensures |r| == 4
  {
    [b0 / 4, b0 % 4 * 16 + b1 / 16, b1 % 16 * 4 + b2 / 64, b2 % 64]
  }

  function Group2(b0: byte, b1: byte): (r: seq<sextet>)
    ensures |r| == 3
  {
    [b0 / 4, b0 % 4 * 16 + b1 / 16, b1 % 16 * 4]
  }

  function Group1(b0: byte): (r: seq<sextet>)
    ensures |r| == 2
  {
    [b0 / 4, b0 % 4 * 16]
  }

  /** Four values per three bytes, and one more than the bytes in a final
      short group. */
  lemma {:induction false} SextetsLength(b: seq<byte>)
    ensures |Sextets(b)| == |b| / 3 * 4 + (if |b| % 3 == 0 then 0 else |b| % 3 + 1)
    decreases |b|
  {
    if |b| >= 3 {
      SextetsLength(b[3..]);
    }
  }

  /** A 6-bit value as a letter, digit or one of the two extra
      characters, which are `p` and `q`. */
  function AlphabetChar(v: sextet, p: char, q: char): char {
    if v < 26 then ('A' as int + v) as char
    else if v < 52 then ('a' as int + v - 26) as char
    else if v < 62 then ('0' as int + v - 52) as char
    else if v == 62 then p
    else q
  }

  function StdChar(v: sextet): char { AlphabetChar(v, '+', '/') }
  function UrlChar(v: sextet): char { AlphabetChar(v, '-', '_') }

  function MapChars(vs: seq<sextet>, f: sextet -> char): (r: string)
    ensures |r| == |vs|
    ensures forall i :: 0 <= i < |vs| ==> r[i] == f(vs[i])
  {
    seq(|vs|, i requires 0 <= i < |vs| => f(vs[i]))
  }

  /** The '=' characters that fill the last group up to four. */
  function Padding(n: nat): (r: string)
    ensures forall i :: 0 <= i < |r| ==> r[i] == '='
    ensures |r| < 3
  {
    if n % 3 == 1 then "==" else if n % 3 == 2 then "=" else ""
  }

  /** `Buffer.toString("base64")`: standard alphabet, padded. */
  function EncodeStd(b: seq<byte>): (r: string)
    ensures |r| % 4 == 0
  {
    SextetsLength(b);
    MapChars(Sextets(b), StdChar) + Padding(|b|)
  }

  /** Base 64 with the URL-safe alphabet and no padding. */
  function EncodeUrl(b: seq<byte>): (r: string)
  {
    MapChars(Sextets(b), UrlChar)
  }

  /** Removes the run of '=' at the end (`replace(/=+$/, "")`). */
  function StripTrailingEquals(s: string): (r: string)
    ensures r <= s
    ensures |r| == 0 || r[|r| - 1] != '='
    ensures forall i :: |r| <= i < |s| ==> s[i] == '='
  {
    if |s| > 0 && s[|s| - 1] == '=' then StripTrailingEquals(s[..|s| - 1]) else s
  }

  /** What the mail sender does to the standard encoding: '+' becomes
      '-', '/' becomes '_', and the padding is removed. */
  function ToUrlSafe(s: string): string {
    StripTrailingEquals(ReplaceChar(ReplaceChar(s, '+', '-'), '/', '_'))
  }

  /** The sender's conversion of the standard encoding is exactly the
      unpadded URL-safe encoding. */
  lemma ToUrlSafeOfStd(b: seq<byte>)
    ensures ToUrlSafe(EncodeStd(b)) == EncodeUrl(b)
  {
    var vs := Sextets(b);
    var std := MapChars(vs, StdChar);
    var url := MapChars(vs, UrlChar);
    var pad := Padding(|b|);
    var swapped := ReplaceChar(ReplaceChar(std + pad, '+', '-'), '/', '_');
    forall i | 0 <= i < |vs| ensures swapped[i] == url[i] {
      assert (std + pad)[i] == StdChar(vs[i]);
    }
    forall i | |vs| <= i < |swapped| ensures swapped[i] == '=' {
      assert (std + pad)[i] == pad[i - |vs|];
    }
    assert swapped == url + pad;
    StripPadding(url, pad);
  }

  lemma StripPadding(s: string, pad: string)
    requires forall i :: 0 <= i < |pad| ==> pad[i] == '='
    requires |s| == 0 || s[|s| - 1] != '='
    ensures StripTrailingEquals(s + pad) == s
    decreases |pad|
  {
    if |pad| > 0 {
      assert (s + pad)[..|s + pad| - 1] == s + pad[..|pad| - 1];
      StripPadding(s, pad[..|pad| - 1]);
    } else {
      assert s + pad == s;
      if |s| > 0 {
        assert s[|s| - 1] != '=';
      }
    }
  }

  /** The URL-safe encoding contains no '+', '/' or '='. */
  lemma UrlAlphabetOnly(b: seq<byte>)
    ensures forall i :: 0 <= i < |EncodeUrl(b)| ==> EncodeUrl(b)[i] !in {'+', '/', '='}
  {
  }

  /** The 6-bit value of a URL-safe character, if it is one. */
  function UrlValue(c: char): (r: Option<sextet>)
  {
    if 'A' <= c <= 'Z' then Some(c as int - 'A' as int)
    else if 'a' <= c <= 'z' then Some(c as int - 'a' as int + 26)
    else if '0' <= c <= '9' then Some(c as int - '0' as int + 52)
    else if c == '-' then Some(62)
    else if c == '_' then Some(63)
    else None
  }

  lemma UrlValueOfChar(v: sextet)
    ensures UrlValue(UrlChar(v)) == Some(v)
  {
  }

  /** The three bytes a group of four 6-bit values carries. */
  function Byte0(v0: sextet, v1: sextet): byte { v0 * 4 + v1 / 16 }
  function Byte1(v1: sextet, v2: sextet): byte { v1 % 16 * 16 + v2 / 4 }
  function Byte2(v2: sextet, v3: sextet): byte { v2 % 4 * 64 + v3 }

  /** The bytes carried by 6-bit groups, or `None` when a lone group is
      left at the end. */
  function Unsextets(vs: seq<sextet>): (r: Option<seq<byte>>)
    decreases |vs|
  {
    if |vs| == 0 then Some([])
    else if |vs| == 1 then None
    else if |vs| == 2 then Some(Bytes1(vs))
    else if |vs| == 3 then Some(Bytes2(vs))
    else
      match Unsextets(vs[4..])
      case None => None
      case Some(rest) => Some(Bytes3(vs) + rest)
  }

  function Bytes3(vs: seq<sextet>): seq<byte>
    requires |vs| >= 4
  {
    [Byte0(vs[0], vs[1]), Byte1(vs[1], vs[2]), Byte2(vs[2], vs[3])]
  }

  function Bytes2(vs: seq<sextet>): seq<byte>
    requires |vs| >= 3
  {
    [Byte0(vs[0], vs[1]), Byte1(vs[1], vs[2])]
  }

  function Bytes1(vs: seq<sextet>): seq<byte>
    requires |vs| >= 2
  {
    [Byte0(vs[0], vs[1])]
  }

  /** Splitting bytes into 6-bit values and joining them again gives the
      bytes back, for a full group and for the shorter final ones. */
  lemma GroupRoundTrip(b0: byte, b1: byte, b2: byte)
    ensures Bytes3(Group3(b0, b1, b2)) == [b0, b1, b2]
  {
    var g := Group3(b0, b1, b2);
    FirstByteBack(b0, b1);
    SecondByteBack(b0, b1, b2);
    ThirdByteBack(b1, b2);
    assert Bytes3(g) == [Byte0(g[0], g[1]), Byte1(g[1], g[2]), Byte2(g[2], g[3])];
  }

  lemma ShortGroupRoundTrip(b0: byte, b1: byte)
    ensures Bytes2(Group2(b0, b1)) == [b0, b1]
    ensures Bytes1(Group1(b0)) == [b0]
  {
    FirstByteBack(b0, b1);
    SecondByteBack(b0, b1, 0);
    FirstByteBack(b0, 0);
  }

  lemma FirstByteBack(b0: byte, b1: byte)
    ensures Byte0(b0 / 4, b0 % 4 * 16 + b1 / 16) == b0
  {
    Split16(b0 % 4, b1 / 16);
  }

  lemma SecondByteBack(b0: byte, b1: byte, b2: byte)
    ensures Byte1(b0 % 4 * 16 + b1 / 16, b1 % 16 * 4 + b2 / 64) == b1
  {
    Split16(b0 % 4, b1 / 16);
    Split4(b1 % 16, b2 / 64);
  }

  lemma ThirdByteBack(b1: byte, b2: byte)
    ensures Byte2(b1 % 16 * 4 + b2 / 64, b2 % 64) == b2
  {
    Split4(b1 % 16, b2 / 64);
  }

  lemma Split16(x: int, y: int)
    requires 0 <= y < 16
    ensures (x * 16 + y) / 16 == x && (x * 16 + y) % 16 == y
  {
  }

  lemma Split4(x: int, y: int)
    requires 0 <= y < 4
    ensures (x * 4 + y) / 4 == x && (x * 4 + y) % 4 == y
  {
  }

  function UrlValues(s: string): (r: Option<seq<sextet>>)
    ensures r.Some? ==> |r.value| == |s|
  {
    if |s| == 0 then Some([])
    else
      match (UrlValue(s[0]), UrlValues(s[1..]))
      case (Some(v), Some(vs)) => Some([v] + vs)
      case _ => None
  }

  /** Decoding of unpadded URL-safe base 64. */
  function DecodeUrl(s: string): Option<seq<byte>> {
    match UrlValues(s)
    case None => None
    case Some(vs) => Unsextets(vs)
  }

  lemma {:induction false} UrlValuesOfEncoding(vs: seq<sextet>)
    ensures UrlValues(MapChars(vs, UrlChar)) == Some(vs)
  {
    if |vs| > 0 {
      var s := MapChars(vs, UrlChar);
      assert s[1..] == MapChars(vs[1..], UrlChar);
      UrlValuesOfEncoding(vs[1..]);
      UrlValueOfChar(vs[0]);
      assert [vs[0]] + vs[1..] == vs;
    }
  }

  lemma {:induction false} UnsextetsOfSextets(b: seq<byte>)
    ensures Unsextets(Sextets(b)) == Some(b)
    decreases |b|
  {
    if |b| == 1 {
      OneByteRoundTrip(b);
    } else if |b| == 2 {
      TwoBytesRoundTrip(b);
    } else if |b| >= 3 {
      UnsextetsOfSextets(b[3..]);
      GroupsRoundTrip(b);
    }
  }

  lemma OneByteRoundTrip(b: seq<byte>)
    requires |b| == 1
    ensures Unsextets(Sextets(b)) == Some(b)
  {
    ShortGroupRoundTrip(b[0], 0);
    assert [b[0]] == b;
  }

  lemma TwoBytesRoundTrip(b: seq<byte>)
    requires |b| == 2
    ensures Unsextets(Sextets(b)) == Some(b)
  {
    ShortGroupRoundTrip(b[0], b[1]);
    assert [b[0], b[1]] == b;
  }

  lemma GroupsRoundTrip(b: seq<byte>)
    requires |b| >= 3 && Unsextets(Sextets(b[3..])) == Some(b[3..])
    ensures Unsextets(Sextets(b)) == Some(b)
  {
    var g := Group3(b[0], b[1], b[2]);
    var tail := Sextets(b[3..]);
    SextetsStep(b);
    UnsextetsCons(g, tail, b[3..]);
    GroupRoundTrip(b[0], b[1], b[2]);
    FrontAndRest(b);
  }

  lemma SextetsStep(b: seq<byte>)
    requires |b| >= 3
    ensures Sextets(b) == Group3(b[0], b[1], b[2]) + Sextets(b[3..])
  {
  }

  lemma FrontAndRest(b: seq<byte>)
    requires |b| >= 3
    ensures [b[0], b[1], b[2]] + b[3..] == b
  {
  }

  /** One group of four in front of values that decode. */
  lemma UnsextetsCons(g: seq<sextet>, tail: seq<sextet>, rest: seq<byte>)
    requires |g| == 4 && Unsextets(tail) == Some(rest)
    ensures Unsextets(g + tail) == Some(Bytes3(g) + rest)
  {
    assert (g + tail)[4..] == tail;
    assert Bytes3(g + tail) == Bytes3(g);
  }

  /** Decoding undoes the URL-safe encoding. */
  lemma DecodeEncodeUrl(b: seq<byte>)
    ensures DecodeUrl(EncodeUrl(b)) == Some(b)
  {
    UrlValuesOfEncoding(Sextets(b));
    UnsextetsOfSextets(b);
  }
}
