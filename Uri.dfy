/** `encodeURIComponent` and `decodeURIComponent` (ECMAScript, sections
    "Encode" and "Decode" of the URI handling functions): every character
    outside the unreserved set becomes the `%XX` escapes of its UTF-8 bytes,
    and decoding turns every `%XX` run back into a character, failing (the
    `URIError` the runtime throws) on a malformed escape or on bytes that are
    not well-formed UTF-8. Characters are Unicode scalar values, so a
    well-formed string never holds a lone surrogate. */
module Uri {
  import opened Base

  type Byte = b: int | 0 <= b < 256

  /** The characters `encodeURIComponent` leaves alone. */
  predicate IsUnreserved(c: char) {
    ('A' <= c <= 'Z') || ('a' <= c <= 'z') || ('0' <= c <= '9')
    || c == '-' || c == '_' || c == '.' || c == '!' || c == '~' || c == '*'
    || c == '\'' || c == '(' || c == ')'
  }

  /** The UTF-8 encoding of one scalar value. */
  function Utf8(c: char): (bs: seq<Byte>)
    ensures 1 <= |bs| <= 4
  {
    var v := c as int;
    if v < 0x80 then [v]
    else if v < 0x800 then [0xC0 + v / 64, 0x80 + v % 64]
    else if v < 0x10000 then [0xE0 + v / 4096, 0x80 + (v / 64) % 64, 0x80 + v % 64]
    else [0xF0 + v / 262144, 0x80 + (v / 4096) % 64, 0x80 + (v / 64) % 64, 0x80 + v % 64]
  }

  function HexChar(d: int): (c: char)
    requires 0 <= d < 16
    ensures c != '@' && c != '%'
  {
    if d < 10 then ('0' as int + d) as char else ('A' as int + d - 10) as char
  }

  /** The value of a hexadecimal digit of either case. */
  function HexValue(c: char): Option<int> {
    if '0' <= c <= '9' then Some(c as int - '0' as int)
    else if 'A' <= c <= 'F' then Some(c as int - 'A' as int + 10)
    else if 'a' <= c <= 'f' then Some(c as int - 'a' as int + 10)
    else None
  }

  function PercentByte(b: Byte): (s: string)
    ensures |s| == 3 && s[0] == '%' && '@' !in s
  {
    ['%', HexChar(b / 16), HexChar(b % 16)]
  }

  function EncodeBytes(bs: seq<Byte>): (s: string)
    ensures |s| == 3 * |bs| && '@' !in s
  {
    if bs == [] then [] else PercentByte(bs[0]) + EncodeBytes(bs[1..])
  }

  function EncodeChar(c: char): (s: string)
    ensures '@' !in s
  {
    if IsUnreserved(c) then [c] else EncodeBytes(Utf8(c))
  }

  /** `encodeURIComponent(s)`. Its output never contains `@`. */
  function EncodeURIComponent(s: string): (r: string)
    ensures '@' !in r
  {
    if s == [] then [] else EncodeChar(s[0]) + EncodeURIComponent(s[1..])
  }

  // ---------------------------------------------------------------------------
  // decoding

  function Prepend(c: char, rest: Option<string>): Option<string> {
    match rest
    case Some(t) => Some([c] + t)
    case None => None
  }

  /** The byte written as `%XX` at the start of `s`, if `s` starts with one. */
  function OctetAt(s: string): (r: Option<Byte>)
    ensures r.Some? ==> |s| >= 3
  {
    if |s| >= 3 && s[0] == '%' && HexValue(s[1]).Some? && HexValue(s[2]).Some?
    then Some(16 * HexValue(s[1]).value + HexValue(s[2]).value)
    else None
  }

  /** The number of leading one bits of a byte whose top bit is set. */
  function LeadingOnes(b: Byte): nat
    requires b >= 0x80
  {
    if b < 0xC0 then 1 else if b < 0xE0 then 2 else if b < 0xF0 then 3 else if b < 0xF8 then 4 else 5
  }

  /** The `n` continuation bytes `%XX...` at the start of `s`; each must be of the form 10xxxxxx. */
  function Continuations(s: string, n: nat): (r: Option<seq<Byte>>)
    ensures r.Some? ==> |r.value| == n && |s| >= 3 * n
    ensures r.Some? ==> forall i :: 0 <= i < n ==> 0x80 <= r.value[i] < 0xC0
  {
    if n == 0 then Some([])
    else match OctetAt(s)
      case None => None
      case Some(b) =>
        if b < 0x80 || b >= 0xC0 then None
        else match Continuations(s[3..], n - 1)
          case None => None
          case Some(rest) => Some([b] + rest)
  }

  /** The scalar value that a lead byte (announcing an `n`-byte sequence) and
      its continuation bytes encode, if that is its shortest encoding and the
      value is neither a surrogate nor beyond U+10FFFF. */
  function Utf8Decode(lead: Byte, n: nat, cont: seq<Byte>): Option<char>
    requires 2 <= n <= 4 && |cont| == n - 1
  {
    var l: int := lead;
    var v: int :=
      if n == 2 then (l - 0xC0) * 64 + (cont[0] as int - 0x80)
      else if n == 3 then (l - 0xE0) * 4096 + (cont[0] as int - 0x80) * 64 + (cont[1] as int - 0x80)
      else (l - 0xF0) * 262144 + (cont[0] as int - 0x80) * 4096 + (cont[1] as int - 0x80) * 64 + (cont[2] as int - 0x80);
    var least := if n == 2 then 0x80 else if n == 3 then 0x800 else 0x10000;
    if v < least || v > 0x10FFFF || (0xD800 <= v < 0xE000) then None else Some(v as char)
  }

  /** `decodeURIComponent(s)`, or `None` where it throws `URIError`. */
  function DecodeURIComponent(s: string): Option<string>
    decreases |s|
  {
    if s == [] then Some([])
    else if s[0] != '%' then Prepend(s[0], DecodeURIComponent(s[1..]))
    else match OctetAt(s)
      case None => None
      case Some(b) =>
        if b < 0x80 then Prepend(b as char, DecodeURIComponent(s[3..]))
        else
          var n := LeadingOnes(b);
          if n == 1 || n > 4 then None
          else match Continuations(s[3..], n - 1)
            case None => None
            case Some(cont) =>
              match Utf8Decode(b, n, cont)
              case None => None
              case Some(c) => Prepend(c, DecodeURIComponent(s[3 + 3 * (n - 1)..]))
  }

  // ---------------------------------------------------------------------------
  // round trip

  lemma OctetOfPercentByte(b: Byte, rest: string)
    ensures OctetAt(PercentByte(b) + rest) == Some(b)
    ensures (PercentByte(b) + rest)[3..] == rest
  {
    var s := PercentByte(b) + rest;
    assert s[1] == HexChar(b / 16) && s[2] == HexChar(b % 16);
  }

  lemma {:induction false} ContinuationsOfBytes(bs: seq<Byte>, rest: string)
    requires forall i :: 0 <= i < |bs| ==> 0x80 <= bs[i] < 0xC0
    ensures Continuations(EncodeBytes(bs) + rest, |bs|) == Some(bs)
    ensures (EncodeBytes(bs) + rest)[3 * |bs|..] == rest
  {
    if bs != [] {
      var tail := EncodeBytes(bs[1..]) + rest;
      var s := EncodeBytes(bs) + rest;
      assert s == PercentByte(bs[0]) + tail;
      OctetOfPercentByte(bs[0], tail);
      assert s[3..] == tail;
      ContinuationsOfBytes(bs[1..], rest);
      assert Continuations(tail, |bs| - 1) == Some(bs[1..]);
      assert Continuations(s, |bs|) == Some([bs[0]] + bs[1..]);
      assert [bs[0]] + bs[1..] == bs;
      assert s[3 * |bs|..] == tail[3 * (|bs| - 1)..];
    }
  }

  /** One step of the decoder over a multi-byte escape run. */
  lemma DecodeStep(s: string, b: Byte, cont: seq<Byte>, c: char)
    requires s != [] && s[0] == '%' && OctetAt(s) == Some(b) && b >= 0x80
    requires 2 <= LeadingOnes(b) <= 4
    requires Continuations(s[3..], LeadingOnes(b) - 1) == Some(cont)
    requires Utf8Decode(b, LeadingOnes(b), cont) == Some(c)
    ensures DecodeURIComponent(s) == Prepend(c, DecodeURIComponent(s[3 + 3 * (LeadingOnes(b) - 1)..]))
  {
  }

  /** A non-ASCII scalar value's UTF-8 bytes: a lead byte announcing their
      number, continuation bytes, and a decoding back to the value. */
  lemma Utf8Bytes(c: char)
    requires c as int >= 0x80
    ensures var bs := Utf8(c);
      bs[0] >= 0x80 && LeadingOnes(bs[0]) == |bs| >= 2
      && (forall i :: 1 <= i < |bs| ==> 0x80 <= bs[i] < 0xC0)
      && Utf8Decode(bs[0], |bs|, bs[1..]) == Some(c)
  {
    var v := c as int;
    if v < 0x800 {
      Utf8Two(v);
    } else if v < 0x10000 {
      Utf8Three(v);
    } else {
      Utf8Four(v);
    }
  }

  lemma Utf8Two(v: int)
    requires 0x80 <= v < 0x800
    ensures 0xC2 <= 0xC0 + v / 64 < 0xE0
    ensures (v / 64) * 64 + v % 64 == v
  {
  }

  lemma Utf8Three(v: int)
    requires 0x800 <= v < 0x10000
    ensures 0xE0 <= 0xE0 + v / 4096 < 0xF0
    ensures (v / 4096) * 4096 + ((v / 64) % 64) * 64 + v % 64 == v
  {
  }

  lemma Utf8Four(v: int)
    requires 0x10000 <= v < 0x110000
    ensures 0xF0 <= 0xF0 + v / 262144 < 0xF8
    ensures (v / 262144) * 262144 + ((v / 4096) % 64) * 4096 + ((v / 64) % 64) * 64 + v % 64 == v
  {
  }

  /** The decoder reads back the escapes of a non-ASCII scalar value. */
  lemma DecodeEncodeMultiByte(c: char, rest: string)
    requires c as int >= 0x80
    ensures DecodeURIComponent(EncodeChar(c) + rest) == Prepend(c, DecodeURIComponent(rest))
  {
    var bs := Utf8(c);
    var n := |bs|;
    var s := EncodeChar(c) + rest;
    Utf8Bytes(c);
    assert s == PercentByte(bs[0]) + (EncodeBytes(bs[1..]) + rest);
    OctetOfPercentByte(bs[0], EncodeBytes(bs[1..]) + rest);
    assert s[3..] == EncodeBytes(bs[1..]) + rest;
    ContinuationsOfBytes(bs[1..], rest);
    assert s[3..][3 * (n - 1)..] == rest;
    assert s[3 + 3 * (n - 1)..] == rest;
    DecodeStep(s, bs[0], bs[1..], c);
  }

  /** Decoding the escapes of one character yields that character and then
      decodes the rest. */
  lemma DecodeEncodeChar(c: char, rest: string)
    ensures DecodeURIComponent(EncodeChar(c) + rest) == Prepend(c, DecodeURIComponent(rest))
  {
    var s := EncodeChar(c) + rest;
    if IsUnreserved(c) {
      assert s[0] == c && s[1..] == rest;
    } else if c as int < 0x80 {
      OctetOfPercentByte(c as int, rest);
      assert s == PercentByte(c as int) + rest;
    } else {
      DecodeEncodeMultiByte(c, rest);
    }
  }

  /** `decodeURIComponent(encodeURIComponent(s)) === s` for every well-formed string. */
  lemma {:induction false} DecodeEncode(s: string)
    ensures DecodeURIComponent(EncodeURIComponent(s)) == Some(s)
  {
    if s != [] {
      DecodeEncodeChar(s[0], EncodeURIComponent(s[1..]));
      DecodeEncode(s[1..]);
      assert [s[0]] + s[1..] == s;
    }
  }
}
