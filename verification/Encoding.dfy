/** UTF-8 (section 3 of RFC 3629) and Base64 (section 4 of RFC 4648), and that both round-trip. */
module Encoding {
  import opened Prelude

  type Byte = b: int | 0 <= b < 256

  /** A Unicode scalar value: no surrogates. */
  type Scalar = c: int | 0 <= c < 0xD800 || 0xE000 <= c < 0x11_0000

  type Bytes = seq<Byte>

  // --- UTF-8 ------------------------------------------------------------------------

  function EncodeScalar(c: Scalar): Bytes {
    if c < 0x80 then [c]
    else if c < 0x800 then [0xC0 + c / 64, 0x80 + c % 64]
    else if c < 0x1_0000 then [0xE0 + c / 4096, 0x80 + c / 64 % 64, 0x80 + c % 64]
    else [0xF0 + c / 262144, 0x80 + c / 4096 % 64, 0x80 + c / 64 % 64, 0x80 + c % 64]
  }

  function EncodeUtf8(text: seq<Scalar>): Bytes {
    if text == [] then [] else EncodeScalar(text[0]) + EncodeUtf8(text[1..])
  }

  predicate Continuation(b: Byte) { 0x80 <= b < 0xC0 }

  /** The scalar at the front and how many bytes it takes; over-long forms, surrogates and values
      past the last scalar are refused. */
  function DecodeScalar(bs: Bytes): (r: Option<(Scalar, nat)>)
    ensures r.Some? ==> 0 < r.value.1 <= |bs|
  {
    if bs == [] then None
    else if bs[0] < 0x80 then Some((bs[0], 1))
    else if 0xC2 <= bs[0] < 0xE0 then
      if |bs| >= 2 && Continuation(bs[1]) then Some((Join(bs[0] - 0xC0, bs[1]), 2)) else None
    else if 0xE0 <= bs[0] < 0xF0 then
      if |bs| >= 3 && Continuation(bs[1]) && Continuation(bs[2]) then
        var c := Join(Join(bs[0] - 0xE0, bs[1]), bs[2]);
        if c < 0x800 || 0xD800 <= c < 0xE000 then None else Some((c, 3))
      else None
    else if 0xF0 <= bs[0] < 0xF5 then
      if |bs| >= 4 && Continuation(bs[1]) && Continuation(bs[2]) && Continuation(bs[3]) then
        var c := Join(Join(Join(bs[0] - 0xF0, bs[1]), bs[2]), bs[3]);
        if c < 0x1_0000 || 0x11_0000 <= c then None else Some((c, 4))
      else None
    else None
  }

  /** Six more bits, from a continuation byte. */
  function Join(high: int, b: int): int { 64 * high + (b - 0x80) }

  lemma JoinSplits(high: int, b: int)
    requires 0x80 <= b < 0xC0
    ensures Join(high, b) / 64 == high && Join(high, b) % 64 == b - 0x80
  {
  }

  lemma SplitJoins(c: int)
    ensures Join(c / 64, 0x80 + c % 64) == c
  {
  }

  function DecodeUtf8(bs: Bytes): Option<seq<Scalar>> {
    if bs == [] then Some([]) else
      var first := DecodeScalar(bs);
      if first.None? then None else
      var rest := DecodeUtf8(bs[first.value.1..]);
      if rest.None? then None else Some([first.value.0] + rest.value)
  }

  lemma DecodedScalarEncodes(bs: Bytes)
    requires DecodeScalar(bs).Some?
    ensures EncodeScalar(DecodeScalar(bs).value.0) == bs[..DecodeScalar(bs).value.1]
  {
    var (c, n) := DecodeScalar(bs).value;
    if n == 2 {
      JoinSplits(bs[0] - 0xC0, bs[1]);
    } else if n == 3 {
      JoinSplits(Join(bs[0] - 0xE0, bs[1]), bs[2]);
      JoinSplits(bs[0] - 0xE0, bs[1]);
      assert c / 4096 == c / 64 / 64;
    } else if n == 4 {
      JoinSplits(Join(Join(bs[0] - 0xF0, bs[1]), bs[2]), bs[3]);
      JoinSplits(Join(bs[0] - 0xF0, bs[1]), bs[2]);
      JoinSplits(bs[0] - 0xF0, bs[1]);
      assert c / 4096 == c / 64 / 64 && c / 262144 == c / 64 / 64 / 64;
    }
  }

  lemma EncodedScalarDecodes(c: Scalar, rest: Bytes)
    ensures DecodeScalar(EncodeScalar(c) + rest) == Some((c, |EncodeScalar(c)|))
  {
    var bs := EncodeScalar(c) + rest;
    SplitJoins(c);
    if c < 0x80 {
      assert bs[0] == c;
    } else if c < 0x800 {
      assert bs[0] == 0xC0 + c / 64 && bs[1] == 0x80 + c % 64;
    } else if c < 0x1_0000 {
      assert bs[0] == 0xE0 + c / 4096 && bs[1] == 0x80 + c / 64 % 64 && bs[2] == 0x80 + c % 64;
      assert c / 4096 == c / 64 / 64;
      SplitJoins(c / 64);
    } else {
      assert bs[0] == 0xF0 + c / 262144 && bs[1] == 0x80 + c / 4096 % 64;
      assert bs[2] == 0x80 + c / 64 % 64 && bs[3] == 0x80 + c % 64;
      assert c / 4096 == c / 64 / 64 && c / 262144 == c / 4096 / 64;
      SplitJoins(c / 64);
      SplitJoins(c / 4096);
    }
  }

  lemma EncodeUtf8Cons(c: Scalar, rest: seq<Scalar>)
    ensures EncodeUtf8([c] + rest) == EncodeScalar(c) + EncodeUtf8(rest)
  {
    assert ([c] + rest)[1..] == rest;
  }

  lemma DecodeUtf8Step(bs: Bytes) returns (c: Scalar, n: nat)
    requires bs != [] && DecodeUtf8(bs).Some?
    ensures 0 < n <= |bs| && EncodeScalar(c) == bs[..n]
    ensures DecodeUtf8(bs[n..]).Some? && DecodeUtf8(bs).value == [c] + DecodeUtf8(bs[n..]).value
  {
    var first := DecodeScalar(bs).value;
    c, n := first.0, first.1;
    DecodedScalarEncodes(bs);
  }

  /** Bytes that decode are the encoding of what they decode to. */
  lemma {:induction false} DecodedUtf8Encodes(bs: Bytes)
    requires DecodeUtf8(bs).Some?
    ensures EncodeUtf8(DecodeUtf8(bs).value) == bs
  {
    if bs != [] {
      var c, n := DecodeUtf8Step(bs);
      DecodedUtf8Encodes(bs[n..]);
      EncodeUtf8Cons(c, DecodeUtf8(bs[n..]).value);
      assert bs[..n] + bs[n..] == bs;
    }
  }

  /** Every text decodes back from its encoding. */
  lemma {:induction false} EncodedUtf8Decodes(text: seq<Scalar>)
    ensures DecodeUtf8(EncodeUtf8(text)) == Some(text)
  {
    if text != [] {
      var rest := EncodeUtf8(text[1..]);
      EncodedScalarDecodes(text[0], rest);
      EncodedUtf8Decodes(text[1..]);
      assert EncodeUtf8(text)[|EncodeScalar(text[0])|..] == rest;
      assert text == [text[0]] + text[1..];
    }
  }

  // --- Base64 -----------------------------------------------------------------------

  function Symbol(v: int): char
    requires 0 <= v < 64
  {
    if v < 26 then ('A' as int + v) as char
    else if v < 52 then ('a' as int + v - 26) as char
    else if v < 62 then ('0' as int + v - 52) as char
    else if v == 62 then '+' else '/'
  }

  function SymbolValue(c: char): (r: Option<int>)
    ensures r.Some? ==> 0 <= r.value < 64
  {
    if 'A' <= c <= 'Z' then Some(c as int - 'A' as int)
    else if 'a' <= c <= 'z' then Some(c as int - 'a' as int + 26)
    else if '0' <= c <= '9' then Some(c as int - '0' as int + 52)
    else if c == '+' then Some(62) else if c == '/' then Some(63) else None
  }

  lemma SymbolRoundTrip(v: int)
    requires 0 <= v < 64
    ensures SymbolValue(Symbol(v)) == Some(v) && Symbol(v) != '='
  {
  }

  /** The four symbols of a group of three bytes. */
  function Group(x: Byte, y: Byte, z: Byte): string {
    [Symbol(x / 4), Symbol(x % 4 * 16 + y / 16), Symbol(y % 16 * 4 + z / 64), Symbol(z % 64)]
  }

  function EncodeBase64(bs: Bytes): string {
    if |bs| == 0 then ""
    else if |bs| == 1 then Group(bs[0], 0, 0)[..2] + "=="
    else if |bs| == 2 then Group(bs[0], bs[1], 0)[..3] + "="
    else Group(bs[0], bs[1], bs[2]) + EncodeBase64(bs[3..])
  }

  function First(a: int, b: int): (r: int) { a * 4 + b / 16 }

  function Second(b: int, c: int): int { b % 16 * 16 + c / 4 }

  function Third(c: int, d: int): int { c % 4 * 64 + d }

  /** Groups of four symbols; padding only at the very end, and anything else refused. */
  function DecodeBase64(s: string): Option<Bytes> {
    if |s| == 0 then Some([])
    else if |s| < 4 then None
    else
      var a, b, c, d := SymbolValue(s[0]), SymbolValue(s[1]), SymbolValue(s[2]), SymbolValue(s[3]);
      if a.None? || b.None? then None
      else if |s| == 4 && s[2] == '=' && s[3] == '=' then Some([First(a.value, b.value)])
      else if c.None? then None
      else if |s| == 4 && s[3] == '=' then Some([First(a.value, b.value), Second(b.value, c.value)])
      else if d.None? then None
      else
        var rest := DecodeBase64(s[4..]);
        if rest.None? then None
        else Some([First(a.value, b.value), Second(b.value, c.value), Third(c.value, d.value)] + rest.value)
  }

  lemma GroupDecodes(x: Byte, y: Byte, z: Byte)
    ensures var g := Group(x, y, z);
            && g[2] != '=' && g[3] != '='
            && SymbolValue(g[0]).Some? && SymbolValue(g[1]).Some? && SymbolValue(g[2]).Some? && SymbolValue(g[3]).Some?
            && First(SymbolValue(g[0]).value, SymbolValue(g[1]).value) == x
            && Second(SymbolValue(g[1]).value, SymbolValue(g[2]).value) == y
            && Third(SymbolValue(g[2]).value, SymbolValue(g[3]).value) == z
  {
    SymbolRoundTrip(x / 4);
    SymbolRoundTrip(x % 4 * 16 + y / 16);
    SymbolRoundTrip(y % 16 * 4 + z / 64);
    SymbolRoundTrip(z % 64);
    GroupBits(x, y, z);
  }

  lemma GroupBits(x: Byte, y: Byte, z: Byte)
    ensures First(x / 4, x % 4 * 16 + y / 16) == x
    ensures Second(x % 4 * 16 + y / 16, y % 16 * 4 + z / 64) == y
    ensures Third(y % 16 * 4 + z / 64, z % 64) == z
  {
    assert (x % 4 * 16 + y / 16) / 16 == x % 4 && (x % 4 * 16 + y / 16) % 16 == y / 16;
    assert (y % 16 * 4 + z / 64) / 4 == y % 16 && (y % 16 * 4 + z / 64) % 4 == z / 64;
  }

  /** Four symbols that are the last group decode without looking further. */
  lemma FinalGroup(s: string)
    requires |s| == 4 && SymbolValue(s[0]).Some? && SymbolValue(s[1]).Some? && s[3] == '='
    ensures s[2] == '=' ==> DecodeBase64(s) == Some([First(SymbolValue(s[0]).value, SymbolValue(s[1]).value)])
    ensures SymbolValue(s[2]).Some? ==>
              DecodeBase64(s) == Some([First(SymbolValue(s[0]).value, SymbolValue(s[1]).value),
                                       Second(SymbolValue(s[1]).value, SymbolValue(s[2]).value)])
  {
  }

  lemma PaddedDecodes(bs: Bytes)
    requires 1 <= |bs| <= 2
    ensures DecodeBase64(EncodeBase64(bs)) == Some(bs)
  {
    var g := Group(bs[0], if |bs| == 2 then bs[1] else 0, 0);
    var s := EncodeBase64(bs);
    GroupDecodes(bs[0], if |bs| == 2 then bs[1] else 0, 0);
    assert |s| == 4 && s[0] == g[0] && s[1] == g[1] && s[3] == '=';
    assert |bs| == 1 ==> s[2] == '=' && bs == [bs[0]];
    assert |bs| == 2 ==> s[2] == g[2] && bs == [bs[0], bs[1]];
    FinalGroup(s);
  }

  /** Whatever the bytes, decoding their Base64 gives them back. */
  lemma {:induction false} Base64RoundTrip(bs: Bytes)
    ensures DecodeBase64(EncodeBase64(bs)) == Some(bs)
  {
    if 1 <= |bs| <= 2 {
      PaddedDecodes(bs);
    } else if |bs| >= 3 {
      var g, rest := Group(bs[0], bs[1], bs[2]), EncodeBase64(bs[3..]);
      GroupDecodes(bs[0], bs[1], bs[2]);
      Base64RoundTrip(bs[3..]);
      assert (g + rest)[4..] == rest;
      assert bs == [bs[0], bs[1], bs[2]] + bs[3..];
    }
  }
}
