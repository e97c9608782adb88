/**
 * UTF-8 as Rust's `String::from_utf8` accepts it: the well-formed byte
 * sequences of table 3-7 of the Unicode Standard (section 3.9), which are
 * those of section 4 of RFC 3629. Overlong forms, surrogates, scalar values
 * above U+10FFFF and truncated sequences are rejected.
 *
 * `Decode` is the operation the mail handler applies to every DATA chunk;
 * `Encode` is its inverse, and the two round trips are proved below.
 */
module Utf8 {
  import opened Wrappers

  newtype byte = x: int | 0 <= x < 0x100

  predicate IsCont(b: byte) { 0x80 <= b <= 0xBF }

  /** Two-byte sequences: lead C2..DF (C0 and C1 would be overlong). */
  predicate WellFormed2(b0: byte, b1: byte) {
    0xC2 <= b0 <= 0xDF && IsCont(b1)
  }

  /** Three-byte sequences: no overlong forms (E0 A0..BF), no surrogates (ED 80..9F). */
  predicate WellFormed3(b0: byte, b1: byte, b2: byte) {
    ((b0 == 0xE0 && 0xA0 <= b1 <= 0xBF) ||
     (0xE1 <= b0 <= 0xEC && IsCont(b1)) ||
     (b0 == 0xED && 0x80 <= b1 <= 0x9F) ||
     (0xEE <= b0 <= 0xEF && IsCont(b1))) &&
    IsCont(b2)
  }

  /** Four-byte sequences: no overlong forms (F0 90..BF), nothing above U+10FFFF (F4 80..8F). */
  predicate WellFormed4(b0: byte, b1: byte, b2: byte, b3: byte) {
    ((b0 == 0xF0 && 0x90 <= b1 <= 0xBF) ||
     (0xF1 <= b0 <= 0xF3 && IsCont(b1)) ||
     (b0 == 0xF4 && 0x80 <= b1 <= 0x8F)) &&
    IsCont(b2) && IsCont(b3)
  }

  function Scalar2(b0: byte, b1: byte): int {
    (b0 as int - 0xC0) * 64 + (b1 as int - 0x80)
  }

  function Scalar3(b0: byte, b1: byte, b2: byte): int {
    (b0 as int - 0xE0) * 4096 + (b1 as int - 0x80) * 64 + (b2 as int - 0x80)
  }

  function Scalar4(b0: byte, b1: byte, b2: byte, b3: byte): int {
    (b0 as int - 0xF0) * 0x40000 + (b1 as int - 0x80) * 4096 + (b2 as int - 0x80) * 64 + (b3 as int - 0x80)
  }

  /** Prepends `c` to a decoded tail, propagating failure. */
  function Cons(c: char, tail: Option<string>): Option<string> {
    match tail
    case None => None
    case Some(t) => Some([c] + t)
  }

  /**
   * Decodes `s`, or gives `None` when `s` is not well-formed UTF-8 anywhere
   * in it. Every decoded character takes at least one byte.
   */
  function Decode(s: seq<byte>): (r: Option<string>)
    ensures r.Some? ==> |r.value| <= |s|
    decreases |s|
  {
    if s == [] then Some([])
    else if s[0] <= 0x7F then
      Cons(s[0] as int as char, Decode(s[1..]))
    else if |s| >= 2 && WellFormed2(s[0], s[1]) then
      Cons(Scalar2(s[0], s[1]) as char, Decode(s[2..]))
    else if |s| >= 3 && WellFormed3(s[0], s[1], s[2]) then
      Cons(Scalar3(s[0], s[1], s[2]) as char, Decode(s[3..]))
    else if |s| >= 4 && WellFormed4(s[0], s[1], s[2], s[3]) then
      Cons(Scalar4(s[0], s[1], s[2], s[3]) as char, Decode(s[4..]))
    else None
  }

  /** The shortest UTF-8 form of one Unicode scalar value. */
  function EncodeChar(c: char): (r: seq<byte>)
    ensures 1 <= |r| <= 4
    ensures (|r| == 1) == (c as int < 0x80)
  {
    var n := c as int;
    if n < 0x80 then [n as byte]
    else if n < 0x800 then
      [(0xC0 + n / 64) as byte, (0x80 + n % 64) as byte]
    else if n < 0x10000 then
      [(0xE0 + n / 4096) as byte, (0x80 + n / 64 % 64) as byte, (0x80 + n % 64) as byte]
    else
      [(0xF0 + n / 0x40000) as byte, (0x80 + n / 4096 % 64) as byte,
       (0x80 + n / 64 % 64) as byte, (0x80 + n % 64) as byte]
  }

  function Encode(s: string): seq<byte> {
    if s == [] then [] else EncodeChar(s[0]) + Encode(s[1..])
  }

  lemma {:induction false} EncodeAppend(s: string, t: string)
    ensures Encode(s + t) == Encode(s) + Encode(t)
  {
    if s != [] {
      assert (s + t)[1..] == s[1..] + t;
      EncodeAppend(s[1..], t);
    } else {
      assert s + t == t;
    }
  }

  /** The two bytes encoding `c` are well formed and carry its scalar value. */
  lemma EncodeChar2(c: char)
    requires 0x80 <= c as int < 0x800
    ensures var e := EncodeChar(c); |e| == 2 && WellFormed2(e[0], e[1]) && Scalar2(e[0], e[1]) == c as int
  {
    var n := c as int;
    assert n == n / 64 * 64 + n % 64;
  }

  lemma EncodeChar3(c: char)
    requires 0x800 <= c as int < 0x10000
    ensures var e := EncodeChar(c);
      |e| == 3 && !WellFormed2(e[0], e[1]) &&
      WellFormed3(e[0], e[1], e[2]) && Scalar3(e[0], e[1], e[2]) == c as int
  {
    var n := c as int;
    var q1 := n / 64;
    var q2 := q1 / 64;
    assert n == q1 * 64 + n % 64 && q1 == q2 * 64 + q1 % 64;
    assert n / 4096 == q2;
  }

  lemma EncodeChar4(c: char)
    requires 0x10000 <= c as int
    ensures var e := EncodeChar(c);
      |e| == 4 && !WellFormed2(e[0], e[1]) && !WellFormed3(e[0], e[1], e[2]) &&
      WellFormed4(e[0], e[1], e[2], e[3]) && Scalar4(e[0], e[1], e[2], e[3]) == c as int
  {
    var n := c as int;
    var q1 := n / 64;
    var q2 := q1 / 64;
    var q3 := q2 / 64;
    assert n == q1 * 64 + n % 64 && q1 == q2 * 64 + q1 % 64 && q2 == q3 * 64 + q2 % 64;
    assert n / 4096 == q2 && n / 0x40000 == q3;
  }

  /** Decoding the encoding of one character consumes exactly that character. */
  lemma DecodeEncodeChar(c: char, rest: seq<byte>)
    ensures Decode(EncodeChar(c) + rest) == Cons(c, Decode(rest))
  {
    var n := c as int;
    var e := EncodeChar(c);
    var s := e + rest;
    assert s[|e|..] == rest;
    if n < 0x80 {
    } else if n < 0x800 {
      EncodeChar2(c);
      assert s[0] == e[0] && s[1] == e[1];
    } else if n < 0x10000 {
      EncodeChar3(c);
      assert s[0] == e[0] && s[1] == e[1] && s[2] == e[2];
    } else {
      EncodeChar4(c);
      assert s[0] == e[0] && s[1] == e[1] && s[2] == e[2] && s[3] == e[3];
    }
  }

  /** Every string survives encoding and decoding unchanged. */
  lemma {:induction false} DecodeEncode(s: string)
    ensures Decode(Encode(s)) == Some(s)
  {
    if s != [] {
      DecodeEncode(s[1..]);
      DecodeEncodeChar(s[0], Encode(s[1..]));
      assert [s[0]] + s[1..] == s;
    }
  }

  lemma EncodeScalar2(b0: byte, b1: byte)
    requires WellFormed2(b0, b1)
    ensures 0x80 <= Scalar2(b0, b1) < 0x800
    ensures EncodeChar(Scalar2(b0, b1) as char) == [b0, b1]
  {
    var n := Scalar2(b0, b1);
    assert n / 64 == b0 as int - 0xC0 && n % 64 == b1 as int - 0x80;
  }

  lemma EncodeScalar3(b0: byte, b1: byte, b2: byte)
    requires WellFormed3(b0, b1, b2)
    ensures 0x800 <= Scalar3(b0, b1, b2) < 0x10000
    ensures !(0xD800 <= Scalar3(b0, b1, b2) < 0xE000)
    ensures EncodeChar(Scalar3(b0, b1, b2) as char) == [b0, b1, b2]
  {
    var n := Scalar3(b0, b1, b2);
    var q := n / 64;
    assert q == (b0 as int - 0xE0) * 64 + (b1 as int - 0x80) && n % 64 == b2 as int - 0x80;
    assert q / 64 == b0 as int - 0xE0 && q % 64 == b1 as int - 0x80;
    assert n / 4096 == q / 64;
  }

  lemma EncodeScalar4(b0: byte, b1: byte, b2: byte, b3: byte)
    requires WellFormed4(b0, b1, b2, b3)
    ensures 0x10000 <= Scalar4(b0, b1, b2, b3) < 0x110000
    ensures EncodeChar(Scalar4(b0, b1, b2, b3) as char) == [b0, b1, b2, b3]
  {
    var n := Scalar4(b0, b1, b2, b3);
    var q := n / 64;
    var q2 := q / 64;
    assert q == (b0 as int - 0xF0) * 4096 + (b1 as int - 0x80) * 64 + (b2 as int - 0x80) && n % 64 == b3 as int - 0x80;
    assert q2 == (b0 as int - 0xF0) * 64 + (b1 as int - 0x80) && q % 64 == b2 as int - 0x80;
    assert q2 / 64 == b0 as int - 0xF0 && q2 % 64 == b1 as int - 0x80;
    assert n / 4096 == q2 && n / 0x40000 == q2 / 64;
  }

  /** One decoding step: the first character of the text is encoded by the first `k` bytes. */
  lemma DecodeStep(b: seq<byte>, s: string) returns (k: nat)
    requires b != [] && Decode(b) == Some(s)
    ensures 1 <= k <= |b| && s != []
    ensures EncodeChar(s[0]) == b[..k] && Decode(b[k..]) == Some(s[1..])
  {
    if b[0] <= 0x7F {
      k := 1;
    } else if |b| >= 2 && WellFormed2(b[0], b[1]) {
      k := 2;
      EncodeScalar2(b[0], b[1]);
    } else if |b| >= 3 && WellFormed3(b[0], b[1], b[2]) {
      k := 3;
      EncodeScalar3(b[0], b[1], b[2]);
    } else {
      k := 4;
      EncodeScalar4(b[0], b[1], b[2], b[3]);
    }
  }

  /** Decoding loses nothing: a decodable byte sequence is the encoding of what it decodes to. */
  lemma {:induction false} EncodeDecode(b: seq<byte>, s: string)
    requires Decode(b) == Some(s)
    ensures Encode(s) == b
    decreases |b|
  {
    if b != [] {
      var k := DecodeStep(b, s);
      EncodeDecode(b[k..], s[1..]);
      assert b == b[..k] + b[k..];
    }
  }

  /**
   * Chunks that each decode can be decoded separately: the text of the whole
   * is the text of the parts, in order.
   */
  lemma DecodeAppend(a: seq<byte>, b: seq<byte>, s: string, t: string)
    requires Decode(a) == Some(s) && Decode(b) == Some(t)
    ensures Decode(a + b) == Some(s + t)
  {
    EncodeDecode(a, s);
    EncodeDecode(b, t);
    EncodeAppend(s, t);
    DecodeEncode(s + t);
  }

  /**
   * The converse fails: splitting the encoding of any non-ASCII character
   * between two chunks makes each chunk undecodable, although the whole
   * encoding decodes.
   */
  lemma SplitCharacterRejected(c: char, k: nat)
    requires 0x80 <= c as int && 0 < k < |EncodeChar(c)|
    ensures Decode(EncodeChar(c)) == Some([c])
    ensures Decode(EncodeChar(c)[..k]) == None && Decode(EncodeChar(c)[k..]) == None
  {
    var e := EncodeChar(c);
    DecodeEncodeChar(c, []);
    assert e + [] == e;
    assert [c] + [] == [c];
    var n := c as int;
    if n < 0x800 {
      EncodeChar2(c);
    } else if n < 0x10000 {
      EncodeChar3(c);
    } else {
      EncodeChar4(c);
    }
    var tail := e[k..];
    assert tail[0] == e[k];
  }
}
