/**
 * `encodeURIComponent` as ECMAScript defines it: every character outside the unreserved
 * set is written as the percent-escaped bytes of its UTF-8 encoding (RFC 3986, section
 * 2.1, with upper-case hexadecimal digits).
 */
module UriComponent {
  import opened Wrappers

  newtype Byte = b: int | 0 <= b < 256

  /** The characters `encodeURIComponent` leaves as they are. */
  predicate Unreserved(c: char) {
    ('A' <= c <= 'Z') || ('a' <= c <= 'z') || ('0' <= c <= '9') || c in "-_.!~*'()"
  }

  /** The UTF-8 encoding of one Unicode scalar value. */
  function Utf8(c: char): (bytes: seq<Byte>)
    ensures 1 <= |bytes| <= 4
    ensures |bytes| == 1 <==> (c as int) < 0x80
    ensures |bytes| == 1 ==> bytes[0] as int == c as int
    ensures |bytes| > 1 ==> forall i :: 1 <= i < |bytes| ==> 0x80 <= bytes[i] < 0xC0
  {
    var n := c as int;
    if n < 0x80 then [n as Byte]
    else if n < 0x800 then [(0xC0 + n / 64) as Byte, (0x80 + n % 64) as Byte]
    else if n < 0x10000 then
      [(0xE0 + n / 4096) as Byte, (0x80 + (n / 64) % 64) as Byte, (0x80 + n % 64) as Byte]
    else
      [(0xF0 + n / 262144) as Byte, (0x80 + (n / 4096) % 64) as Byte,
       (0x80 + (n / 64) % 64) as Byte, (0x80 + n % 64) as Byte]
  }

  /** The UTF-8 encoding of a string. */
  function Utf8String(s: string): seq<Byte> {
    if s == [] then [] else Utf8(s[0]) + Utf8String(s[1..])
  }

  function HexDigit(d: nat): (c: char)
    requires d < 16
    ensures Unreserved(c)
  {
    if d < 10 then ('0' as int + d) as char else ('A' as int + d - 10) as char
  }

  /** The value of a hexadecimal digit, either case. */
  function HexValue(c: char): (r: Option<nat>)
    ensures r.Some? ==> r.value < 16
  {
    if '0' <= c <= '9' then Some(c as int - '0' as int)
    else if 'A' <= c <= 'F' then Some(c as int - 'A' as int + 10)
    else if 'a' <= c <= 'f' then Some(c as int - 'a' as int + 10)
    else None
  }

  lemma HexValueDigit(d: nat)
    requires d < 16
    ensures HexValue(HexDigit(d)) == Some(d)
  {
  }

  /** `%XY` for each byte. */
  function PercentBytes(bytes: seq<Byte>): (s: string)
    ensures |s| == 3 * |bytes|
    ensures forall i :: 0 <= i < |s| ==> Unreserved(s[i]) || s[i] == '%'
  {
    if bytes == [] then []
    else ['%', HexDigit(bytes[0] as nat / 16), HexDigit(bytes[0] as nat % 16)] + PercentBytes(bytes[1..])
  }

  function EncodeChar(c: char): (s: string)
    ensures forall i :: 0 <= i < |s| ==> Unreserved(s[i]) || s[i] == '%'
  {
    if Unreserved(c) then [c] else PercentBytes(Utf8(c))
  }

  /**
   * `encodeURIComponent(s)`. The result holds nothing but unreserved characters and `%`,
   * so it never ends a query value early (`&`, `=`, `#`, space).
   */
  function EncodeURIComponent(s: string): (r: string)
    ensures forall i :: 0 <= i < |r| ==> Unreserved(r[i]) || r[i] == '%'
    ensures |r| >= |s|
  {
    if s == [] then [] else EncodeChar(s[0]) + EncodeURIComponent(s[1..])
  }

  /** None of the characters that end or alter a query value survives encoding. */
  lemma SafeInQuery(c: char)
    requires Unreserved(c) || c == '%'
    ensures c != '&' && c != '#' && c != '=' && c != ' ' && c != '+'
  {
  }

  function Prepend(bytes: seq<Byte>, rest: Option<seq<Byte>>): Option<seq<Byte>> {
    match rest
    case Some(r) => Some(bytes + r)
    case None => None
  }

  /**
   * Percent-decoding to bytes: `%XY` is the byte XY, an ASCII character is its own byte,
   * and a stray `%` or a non-ASCII character is malformed.
   */
  function PercentDecode(s: string): Option<seq<Byte>> {
    if s == [] then Some([])
    else if s[0] == '%' then
      if |s| >= 3 && HexValue(s[1]).Some? && HexValue(s[2]).Some? then
        Prepend([(16 * HexValue(s[1]).value + HexValue(s[2]).value) as Byte], PercentDecode(s[3..]))
      else None
    else if (s[0] as int) < 0x80 then Prepend([s[0] as int as Byte], PercentDecode(s[1..]))
    else None
  }

  lemma DecodeEscape(b: Byte, rest: string)
    ensures PercentDecode(['%', HexDigit(b as nat / 16), HexDigit(b as nat % 16)] + rest)
            == Prepend([b], PercentDecode(rest))
  {
    var s := ['%', HexDigit(b as nat / 16), HexDigit(b as nat % 16)] + rest;
    HexValueDigit(b as nat / 16);
    HexValueDigit(b as nat % 16);
    assert s[3..] == rest;
  }

  lemma PrependPrepend(a: seq<Byte>, b: seq<Byte>, d: Option<seq<Byte>>)
    ensures Prepend(a, Prepend(b, d)) == Prepend(a + b, d)
  {
    if d.Some? {
      assert a + (b + d.value) == (a + b) + d.value;
    }
  }

  lemma Regroup(x: string, y: string, z: string)
    ensures (x + y) + z == x + (y + z)
  {
  }

  lemma {:induction false} DecodePercentBytes(bytes: seq<Byte>, rest: string)
    ensures PercentDecode(PercentBytes(bytes) + rest) == Prepend(bytes, PercentDecode(rest))
  {
    if bytes == [] {
      assert PercentBytes(bytes) + rest == rest;
      if PercentDecode(rest).Some? {
        assert bytes + PercentDecode(rest).value == PercentDecode(rest).value;
      }
    } else {
      var b := bytes[0];
      var escape := ['%', HexDigit(b as nat / 16), HexDigit(b as nat % 16)];
      var tail := PercentBytes(bytes[1..]);
      assert PercentBytes(bytes) == escape + tail;
      Regroup(escape, tail, rest);
      DecodeEscape(b, tail + rest);
      DecodePercentBytes(bytes[1..], rest);
      PrependPrepend([b], bytes[1..], PercentDecode(rest));
      assert [b] + bytes[1..] == bytes;
    }
  }

  lemma DecodeEncodeChar(c: char, rest: string)
    ensures PercentDecode(EncodeChar(c) + rest) == Prepend(Utf8(c), PercentDecode(rest))
  {
    if Unreserved(c) {
      assert (EncodeChar(c) + rest)[1..] == rest;
    } else {
      DecodePercentBytes(Utf8(c), rest);
    }
  }

  /** Percent-decoding `encodeURIComponent(s)` gives back exactly the UTF-8 bytes of `s`. */
  lemma {:induction false} DecodeEncode(s: string)
    ensures PercentDecode(EncodeURIComponent(s)) == Some(Utf8String(s))
  {
    if s != [] {
      DecodeEncode(s[1..]);
      DecodeEncodeChar(s[0], EncodeURIComponent(s[1..]));
    }
  }

  /** A string of unreserved characters is its own encoding. */
  lemma {:induction false} EncodeUnreserved(s: string)
    requires forall i :: 0 <= i < |s| ==> Unreserved(s[i])
    ensures EncodeURIComponent(s) == s
  {
    if s != [] {
      EncodeUnreserved(s[1..]);
      assert [s[0]] + s[1..] == s;
    }
  }
}
