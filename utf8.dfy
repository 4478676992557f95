/** Well-formed UTF-8, as ValidateKey checks it with utf8.ValidString: the
    byte-sequence grammar of section 4 of RFC 3629 (no overlong forms, no
    surrogates, nothing above U+10FFFF), and its meaning as the encoding of a
    sequence of Unicode scalar values. */
module Utf8 {
  import opened ByteStrings

  predicate IsTail(b: byte)
  {
    0x80 <= b <= 0xBF
  }

  /** The allowed range of the second byte after a lead byte of a 3- or
      4-byte sequence (RFC 3629, section 4). */
  function SecondLow(lead: byte): byte
  {
    if lead == 0xE0 then 0xA0 else if lead == 0xF0 then 0x90 else 0x80
  }

  function SecondHigh(lead: byte): byte
  {
    if lead == 0xED then 0x9F else if lead == 0xF4 then 0x8F else 0xBF
  }

  /** The length of the well-formed character at the head of `s`, or 0 when
      the head is ill-formed. */
  function FirstCharLength(s: Bytes): (n: nat)
    requires s != []
    ensures n <= |s| && n <= 4
  {
    var lead := s[0];
    if lead <= 0x7F then 1
    else if 0xC2 <= lead <= 0xDF then
      if |s| >= 2 && IsTail(s[1]) then 2 else 0
    else if 0xE0 <= lead <= 0xEF then
      if |s| >= 3 && SecondLow(lead) <= s[1] <= SecondHigh(lead) && IsTail(s[2]) then 3 else 0
    else if 0xF0 <= lead <= 0xF4 then
      if |s| >= 4 && SecondLow(lead) <= s[1] <= SecondHigh(lead) && IsTail(s[2]) && IsTail(s[3]) then 4 else 0
    else 0
  }

  /** utf8.ValidString */
  predicate ValidUtf8(s: Bytes)
    decreases |s|
  {
    s == [] || (FirstCharLength(s) > 0 && ValidUtf8(s[FirstCharLength(s)..]))
  }

  predicate IsScalar(cp: int)
  {
    0 <= cp < 0x11_0000 && !(0xD800 <= cp <= 0xDFFF)
  }

  predicate AllScalars(cps: seq<int>)
  {
    forall i :: 0 <= i < |cps| ==> IsScalar(cps[i])
  }

  /** The UTF-8 encoding of one scalar value. */
  function Encode(cp: int): (s: Bytes)
    requires IsScalar(cp)
    ensures 1 <= |s| <= 4
  {
    if cp < 0x80 then [cp as byte]
    else if cp < 0x800 then [(0xC0 + cp / 64) as byte, (0x80 + cp % 64) as byte]
    else if cp < 0x1_0000 then
      [(0xE0 + cp / 4096) as byte, (0x80 + (cp / 64) % 64) as byte, (0x80 + cp % 64) as byte]
    else
      [(0xF0 + cp / 262144) as byte, (0x80 + (cp / 4096) % 64) as byte,
       (0x80 + (cp / 64) % 64) as byte, (0x80 + cp % 64) as byte]
  }

  function EncodeAll(cps: seq<int>): Bytes
    requires forall i :: 0 <= i < |cps| ==> IsScalar(cps[i])
  {
    if cps == [] then [] else Encode(cps[0]) + EncodeAll(cps[1..])
  }

  /** The scalar value of the well-formed character at the head of `s`. */
  function DecodeFirst(s: Bytes): int
    requires s != [] && FirstCharLength(s) > 0
  {
    var n := FirstCharLength(s);
    if n == 1 then s[0] as int
    else if n == 2 then (s[0] - 0xC0) as int * 64 + (s[1] - 0x80) as int
    else if n == 3 then (s[0] - 0xE0) as int * 4096 + (s[1] - 0x80) as int * 64 + (s[2] - 0x80) as int
    else (s[0] - 0xF0) as int * 262144 + (s[1] - 0x80) as int * 4096 + (s[2] - 0x80) as int * 64 + (s[3] - 0x80) as int
  }

  function Decode(s: Bytes): seq<int>
    requires ValidUtf8(s)
    decreases |s|
  {
    if s == [] then [] else [DecodeFirst(s)] + Decode(s[FirstCharLength(s)..])
  }

  /** Base-64 digits of a value below 0x110000, most significant first. */
  lemma Digits(cp: int)
    requires 0 <= cp < 0x11_0000
    ensures 0 <= cp / 262144 < 5 && 0 <= (cp / 4096) % 64 < 64 && 0 <= (cp / 64) % 64 < 64 && 0 <= cp % 64 < 64
    ensures cp < 0x1_0000 ==> cp / 4096 < 16 && cp / 4096 == (cp / 4096) % 64
    ensures cp < 0x800 ==> cp / 64 < 32 && cp / 64 == (cp / 64) % 64
    ensures cp == (cp / 262144) * 262144 + ((cp / 4096) % 64) * 4096 + ((cp / 64) % 64) * 64 + cp % 64
  {
    var q := cp / 64;
    var p := q / 64;
    assert cp == 64 * q + cp % 64;
    assert q == 64 * p + q % 64;
    assert p == cp / 4096;
    assert p == 64 * (p / 64) + p % 64;
    assert p / 64 == cp / 262144;
  }

  lemma Undigits(a: int, b: int, c: int, d: int)
    requires 0 <= a && 0 <= b < 64 && 0 <= c < 64 && 0 <= d < 64
    ensures var cp := a * 262144 + b * 4096 + c * 64 + d;
            cp / 262144 == a && (cp / 4096) % 64 == b && (cp / 64) % 64 == c && cp % 64 == d
            && cp / 4096 == a * 64 + b && cp / 64 == a * 4096 + b * 64 + c
  {
    var cp := a * 262144 + b * 4096 + c * 64 + d;
    assert cp / 64 == a * 4096 + b * 64 + c;
    assert cp / 4096 == a * 64 + b;
  }

  /** The encoding of a scalar value is one well-formed character, whatever
      follows it, and decodes back to that value. */
  lemma EncodeFirst(cp: int, rest: Bytes)
    requires IsScalar(cp)
    ensures var s := Encode(cp) + rest;
            FirstCharLength(s) == |Encode(cp)| && DecodeFirst(s) == cp
  {
    var e := Encode(cp);
    var s := e + rest;
    assert s[..|e|] == e;
    Digits(cp);
    if cp < 0x80 {
    } else if cp < 0x800 {
      EncodeTwo(cp, rest);
    } else if cp < 0x1_0000 {
      EncodeThree(cp, rest);
    } else {
      EncodeFour(cp, rest);
    }
  }

  lemma EncodeTwo(cp: int, rest: Bytes)
    requires IsScalar(cp) && 0x80 <= cp < 0x800
    ensures var s := Encode(cp) + rest;
            FirstCharLength(s) == 2 && DecodeFirst(s) == cp
  {
    var s := Encode(cp) + rest;
    Digits(cp);
    assert s[0] as int == 0xC0 + cp / 64 && s[1] as int == 0x80 + cp % 64;
  }

  lemma EncodeThree(cp: int, rest: Bytes)
    requires IsScalar(cp) && 0x800 <= cp < 0x1_0000
    ensures var s := Encode(cp) + rest;
            FirstCharLength(s) == 3 && DecodeFirst(s) == cp
  {
    var s := Encode(cp) + rest;
    Digits(cp);
    assert s[0] as int == 0xE0 + cp / 4096;
    assert s[1] as int == 0x80 + (cp / 64) % 64 && s[2] as int == 0x80 + cp % 64;
  }

  lemma EncodeFour(cp: int, rest: Bytes)
    requires IsScalar(cp) && 0x1_0000 <= cp
    ensures var s := Encode(cp) + rest;
            FirstCharLength(s) == 4 && DecodeFirst(s) == cp
  {
    var s := Encode(cp) + rest;
    Digits(cp);
    assert s[0] as int == 0xF0 + cp / 262144 && s[1] as int == 0x80 + (cp / 4096) % 64;
    assert s[2] as int == 0x80 + (cp / 64) % 64 && s[3] as int == 0x80 + cp % 64;
  }

  /** A well-formed character encodes a scalar value, and re-encoding that
      value gives the character's bytes back. */
  lemma DecodeFirstScalar(s: Bytes)
    requires s != [] && FirstCharLength(s) > 0
    ensures IsScalar(DecodeFirst(s)) && Encode(DecodeFirst(s)) == s[..FirstCharLength(s)]
  {
    var n := FirstCharLength(s);
    if n == 2 {
      DecodeTwo(s);
    } else if n == 3 {
      DecodeThree(s);
    } else if n == 4 {
      DecodeFour(s);
    }
  }

  lemma DecodeTwo(s: Bytes)
    requires s != [] && FirstCharLength(s) == 2
    ensures IsScalar(DecodeFirst(s)) && Encode(DecodeFirst(s)) == s[..2]
  {
    Undigits(0, 0, (s[0] - 0xC0) as int, (s[1] - 0x80) as int);
  }

  lemma DecodeThree(s: Bytes)
    requires s != [] && FirstCharLength(s) == 3
    ensures IsScalar(DecodeFirst(s)) && Encode(DecodeFirst(s)) == s[..3]
  {
    Undigits(0, (s[0] - 0xE0) as int, (s[1] - 0x80) as int, (s[2] - 0x80) as int);
  }

  lemma DecodeFour(s: Bytes)
    requires s != [] && FirstCharLength(s) == 4
    ensures IsScalar(DecodeFirst(s)) && Encode(DecodeFirst(s)) == s[..4]
  {
    Undigits((s[0] - 0xF0) as int, (s[1] - 0x80) as int, (s[2] - 0x80) as int, (s[3] - 0x80) as int);
  }

  /** Every sequence of scalar values encodes to well-formed UTF-8, which
      decodes back to the same sequence. */
  lemma {:induction false} EncodeAllValid(cps: seq<int>)
    requires forall i :: 0 <= i < |cps| ==> IsScalar(cps[i])
    ensures ValidUtf8(EncodeAll(cps)) && Decode(EncodeAll(cps)) == cps
  {
    if cps != [] {
      var e := Encode(cps[0]);
      var rest := EncodeAll(cps[1..]);
      EncodeFirst(cps[0], rest);
      EncodeAllValid(cps[1..]);
      assert (e + rest)[|e|..] == rest;
      assert [cps[0]] + cps[1..] == cps;
    }
  }

  lemma ScalarsCons(cp: int, t: seq<int>)
    requires IsScalar(cp) && AllScalars(t)
    ensures AllScalars([cp] + t) && ([cp] + t)[1..] == t
  {
    var d := [cp] + t;
    forall i | 0 <= i < |d|
      ensures IsScalar(d[i])
    {
      if i > 0 {
        assert d[i] == t[i - 1];
      }
    }
  }

  /** One decoding step: a scalar value encoded as the head of `s`, followed
      by scalar values encoding the rest, encodes `s`. */
  lemma EncodeAllStep(s: Bytes, n: nat, cp: int, t: seq<int>)
    requires n <= |s| && IsScalar(cp) && AllScalars(t)
    requires Encode(cp) == s[..n] && EncodeAll(t) == s[n..]
    ensures AllScalars([cp] + t) && EncodeAll([cp] + t) == s
  {
    ScalarsCons(cp, t);
    assert s[..n] + s[n..] == s;
  }

  lemma DecodeCons(s: Bytes)
    requires ValidUtf8(s) && s != []
    ensures Decode(s) == [DecodeFirst(s)] + Decode(s[FirstCharLength(s)..])
  {
  }

  /** Every well-formed UTF-8 byte string is the encoding of the scalar values
      it decodes to. */
  lemma {:induction false} DecodeValid(s: Bytes)
    requires ValidUtf8(s)
    ensures AllScalars(Decode(s))
    ensures EncodeAll(Decode(s)) == s
  {
    if s != [] {
      var n := FirstCharLength(s);
      DecodeFirstScalar(s);
      DecodeValid(s[n..]);
      DecodeCons(s);
      EncodeAllStep(s, n, DecodeFirst(s), Decode(s[n..]));
    }
  }

  /** Two concrete refusals: an overlong encoding of NUL, and an encoded
      surrogate half. */
  lemma RejectsOverlongAndSurrogate()
    ensures !ValidUtf8([0xC0, 0x80])
    ensures !ValidUtf8([0xED, 0xA0, 0x80])
  {
  }

  /** A byte string is well-formed UTF-8 exactly when it is the encoding of
      some sequence of scalar values. */
  lemma ValidIffEncoding(s: Bytes)
    ensures ValidUtf8(s) <==> exists cps :: AllScalars(cps) && EncodeAll(cps) == s
  {
    if ValidUtf8(s) {
      DecodeValid(s);
      assert AllScalars(Decode(s));
    }
    forall cps | AllScalars(cps) && EncodeAll(cps) == s
      ensures ValidUtf8(s)
    {
      EncodeAllValid(cps);
    }
  }

  // ------------------------------------------------ strings in JSON documents

  /** U+FFFD, the replacement character, in UTF-8. */
  const Replacement: Bytes := [0xEF, 0xBF, 0xBD]

  /** The bytes a Go string holds once encoding/json has written it into a
      document and CouchDB has read the document: every byte that does not
      start a well-formed character becomes U+FFFD, and everything else is
      kept (escapes such as \u003c decode to the byte they stand for). */
  function JsonString(s: Bytes): Bytes
    decreases |s|
  {
    if s == [] then []
    else if FirstCharLength(s) > 0 then s[..FirstCharLength(s)] + JsonString(s[FirstCharLength(s)..])
    else Replacement + JsonString(s[1..])
  }

  /** Well-formed UTF-8 is written as it is. */
  lemma {:induction false} JsonStringOfValid(s: Bytes)
    ensures ValidUtf8(s) ==> JsonString(s) == s
    decreases |s|
  {
    if s != [] && ValidUtf8(s) {
      var n := FirstCharLength(s);
      JsonStringOfValid(s[n..]);
      assert s[..n] + s[n..] == s;
    }
  }

  /** A well-formed leading character stays the leading character whatever follows. */
  lemma FirstCharLengthAppend(a: Bytes, b: Bytes)
    requires a != [] && FirstCharLength(a) > 0
    ensures FirstCharLength(a + b) == FirstCharLength(a)
  {
    var n := FirstCharLength(a);
    assert forall j :: 0 <= j < n ==> (a + b)[j] == a[j];
  }

  /** Well-formed UTF-8 is closed under concatenation. */
  lemma {:induction false} ValidUtf8Append(a: Bytes, b: Bytes)
    requires ValidUtf8(a) && ValidUtf8(b)
    ensures ValidUtf8(a + b)
    decreases |a|
  {
    if a == [] {
      assert a + b == b;
    } else {
      var n := FirstCharLength(a);
      FirstCharLengthAppend(a, b);
      ValidUtf8Append(a[n..], b);
      assert (a + b)[n..] == a[n..] + b;
    }
  }

  /** Whatever the input, what encoding/json writes is well-formed UTF-8. */
  lemma {:induction false} JsonStringValid(s: Bytes)
    ensures ValidUtf8(JsonString(s))
    decreases |s|
  {
    if s != [] {
      var n := FirstCharLength(s);
      if n > 0 {
        JsonStringValid(s[n..]);
        var head := s[..n];
        assert FirstCharLength(head) == n by {
          assert forall j :: 0 <= j < n ==> head[j] == s[j];
        }
        assert head[n..] == [];
        ValidUtf8Append(head, JsonString(s[n..]));
      } else {
        JsonStringValid(s[1..]);
        assert FirstCharLength(Replacement) == 3 && Replacement[3..] == [];
        ValidUtf8Append(Replacement, JsonString(s[1..]));
      }
    }
  }

  /** An ASCII byte of the input survives the conversion. */
  lemma {:induction false} JsonStringKeepsAscii(s: Bytes, b: byte)
    requires b <= 0x7F && b in s
    ensures b in JsonString(s)
    decreases |s|
  {
    var n := FirstCharLength(s);
    if s[0] == b {
      assert n == 1 && JsonString(s)[0] == b;
    } else if n > 0 {
      assert b in s[n..] by {
        var j :| 0 <= j < |s| && s[j] == b;
        if j < n {
          assert s[0] > 0x7F;
          assert IsTail(s[j]) by {
            if n == 2 { assert j == 1; }
          }
          assert false;
        }
        assert s[n..][j - n] == b;
      }
      JsonStringKeepsAscii(s[n..], b);
      assert JsonString(s) == s[..n] + JsonString(s[n..]);
    } else {
      assert b in s[1..] by {
        var j :| 0 <= j < |s| && s[j] == b;
        assert s[1..][j - 1] == b;
      }
      JsonStringKeepsAscii(s[1..], b);
      assert JsonString(s) == Replacement + JsonString(s[1..]);
    }
  }

  /** A single ASCII byte is a well-formed character. */
  lemma AsciiValid(b: byte)
    requires b <= 0x7F
    ensures ValidUtf8([b])
  {
    assert FirstCharLength([b]) == 1 && [b][1..] == [];
  }

  /** An ASCII byte at the head is written as it is. */
  lemma JsonStringAsciiHead(b: byte, s: Bytes)
    requires b <= 0x7F
    ensures JsonString([b] + s) == [b] + JsonString(s)
  {
    var t := [b] + s;
    assert FirstCharLength(t) == 1 && t[..1] == [b] && t[1..] == s;
  }

  lemma JsonStringStep(t: Bytes, n: nat)
    requires t != [] && n == FirstCharLength(t) > 0
    ensures JsonString(t) == t[..n] + JsonString(t[n..])
  {
  }

  lemma SplitAppend(a: Bytes, s: Bytes, n: nat)
    requires n <= |a|
    ensures (a + s)[..n] == a[..n] && (a + s)[n..] == a[n..] + s
    ensures forall x: Bytes :: a[..n] + (a[n..] + x) == a + x
  {
    forall x: Bytes
      ensures a[..n] + (a[n..] + x) == a + x
    {
      assert a[..n] + a[n..] == a;
    }
  }

  /** A well-formed prefix is written as it is, whatever follows it. */
  lemma {:induction false} JsonStringValidPrefix(a: Bytes, s: Bytes)
    requires ValidUtf8(a)
    ensures JsonString(a + s) == a + JsonString(s)
    decreases |a|
  {
    if a == [] {
      assert a + s == s;
    } else {
      var n := FirstCharLength(a);
      FirstCharLengthAppend(a, s);
      JsonStringValidPrefix(a[n..], s);
      JsonStringStep(a + s, n);
      SplitAppend(a, s, n);
    }
  }

  /** Two different ill-formed strings are written identically. */
  lemma JsonStringCollides()
    ensures JsonString([0xFF]) == JsonString([0xFE]) == Replacement
  {
    assert JsonString([0xFF]) == Replacement + JsonString([]);
    assert JsonString([0xFE]) == Replacement + JsonString([]);
  }
}
