/** Heights and their external form "<blockNum>:<txNum>": the formatting in
    addCouchDBFieldsToValue, and the lenient parsing of createVersionFromString
    (strconv.ParseUint with its error discarded). */
module Versions {
  import opened ByteStrings

  const MaxUint64: int := 0xFFFF_FFFF_FFFF_FFFF

  newtype uint64 = n: int | 0 <= n <= 0xFFFF_FFFF_FFFF_FFFF

  /** version.Height */
  datatype Height = Height(blockNum: uint64, txNum: uint64)

  const Colon: byte := 0x3A
  const DigitZero: byte := 0x30

  predicate IsDigit(b: byte)
  {
    DigitZero <= b <= 0x39
  }

  predicate AllDigits(s: Bytes)
  {
    forall i :: 0 <= i < |s| ==> IsDigit(s[i])
  }

  /** The decimal text of `n` as fmt's %v prints an unsigned integer. */
  function FormatUint(n: nat): (s: Bytes)
    ensures s != [] && AllDigits(s)
    ensures s[0] == DigitZero ==> n == 0
  {
    if n < 10 then [DigitZero + n as byte]
    else FormatUint(n / 10) + [DigitZero + (n % 10) as byte]
  }

  /** The meaning of a digit string: its value read left to right, starting
      from `acc` (Horner's rule). */
  function Horner(s: Bytes, acc: nat): nat
    requires AllDigits(s)
  {
    if s == [] then acc else Horner(s[1..], acc * 10 + (s[0] - DigitZero) as int)
  }

  /** strconv.ParseUint(s, 10, 64) with its error ignored, as every caller in
      the source does: the first character that is not a digit makes the
      result 0 (syntax error), and the first digit that takes the value past
      MaxUint64 makes it MaxUint64 (range error), whichever comes first. */
  function ParseUint(s: Bytes): (n: uint64)
  {
    if s == [] then 0 else ParseDigits(s, 0)
  }

  function ParseDigits(s: Bytes, acc: uint64): uint64
  {
    if s == [] then acc
    else if !IsDigit(s[0]) then 0
    else
      var next := acc as int * 10 + (s[0] - DigitZero) as int;
      if next > MaxUint64 then MaxUint64 as uint64 else ParseDigits(s[1..], next as uint64)
  }

  /** "%v:%v" of a height. */
  function FormatVersion(h: Height): (v: Bytes)
    ensures Colon in v
  {
    var b := FormatUint(h.blockNum as nat);
    assert (b + [Colon])[|b|] == Colon;
    b + [Colon] + FormatUint(h.txNum as nat)
  }

  /** createVersionFromString: blockNum from the text before the first colon,
      txNum from the text between the first and the second colon (or the end).
      The source indexes the second field of the split, which does not exist
      when the text has no colon. */
  function CreateVersionFromString(encoded: Bytes): Height
    requires Colon in encoded
  {
    var i := FirstIndex(encoded, Colon);
    var rest := encoded[i + 1..];
    var second := if Colon in rest then rest[..FirstIndex(rest, Colon)] else rest;
    Height(ParseUint(encoded[..i]), ParseUint(second))
  }

  lemma {:induction false} HornerAtLeast(s: Bytes, acc: nat)
    requires AllDigits(s)
    ensures Horner(s, acc) >= acc
  {
    if s != [] {
      HornerAtLeast(s[1..], acc * 10 + (s[0] - DigitZero) as int);
    }
  }

  lemma {:induction false} HornerSnoc(s: Bytes, d: byte, acc: nat)
    requires AllDigits(s) && IsDigit(d)
    ensures AllDigits(s + [d])
    ensures Horner(s + [d], acc) == Horner(s, acc) * 10 + (d - DigitZero) as int
  {
    if s != [] {
      assert (s + [d])[1..] == s[1..] + [d];
      HornerSnoc(s[1..], d, acc * 10 + (s[0] - DigitZero) as int);
    } else {
      assert ([] + [d])[1..] == [];
    }
  }

  /** The decimal text of n reads back as n. */
  lemma {:induction false} HornerFormat(n: nat)
    ensures Horner(FormatUint(n), 0) == n
  {
    if n >= 10 {
      HornerFormat(n / 10);
      HornerSnoc(FormatUint(n / 10), DigitZero + (n % 10) as byte, 0);
    }
  }

  /** On a digit string ParseDigits is the value, saturated at MaxUint64. */
  lemma {:induction false} ParseDigitsValue(s: Bytes, acc: uint64)
    requires AllDigits(s)
    ensures ParseDigits(s, acc) as int == if Horner(s, acc as nat) > MaxUint64 then MaxUint64 else Horner(s, acc as nat)
  {
    if s != [] {
      var next := acc as int * 10 + (s[0] - DigitZero) as int;
      HornerAtLeast(s[1..], next);
      if next <= MaxUint64 {
        ParseDigitsValue(s[1..], next as uint64);
      }
    }
  }

  /** A non-empty digit string parses to its value, or to MaxUint64 when the
      value does not fit in 64 bits. */
  lemma ParseUintDigits(s: Bytes)
    requires s != [] && AllDigits(s)
    ensures ParseUint(s) as int == if Horner(s, 0) > MaxUint64 then MaxUint64 else Horner(s, 0)
  {
    ParseDigitsValue(s, 0);
  }

  /** A field that is not a number parses as 0 instead of failing: the empty
      field, or a field whose first non-digit comes while the digits before it
      still fit in 64 bits. */
  lemma ParseUintNonNumeric(s: Bytes, j: nat)
    requires s == [] || (j < |s| && !IsDigit(s[j]) && AllDigits(s[..j]) && Horner(s[..j], 0) <= MaxUint64)
    ensures ParseUint(s) == 0
  {
    if s != [] {
      ParseDigitsPrefix(s, j, 0);
    }
  }

  lemma {:induction false} ParseDigitsPrefix(s: Bytes, j: nat, acc: uint64)
    requires j < |s| && !IsDigit(s[j]) && AllDigits(s[..j]) && Horner(s[..j], acc as nat) <= MaxUint64
    ensures ParseDigits(s, acc) == 0
  {
    if j > 0 {
      var next := acc as int * 10 + (s[0] - DigitZero) as int;
      assert s[..j][1..] == s[1..][..j - 1];
      HornerAtLeast(s[1..][..j - 1], next);
      ParseDigitsPrefix(s[1..], j - 1, next as uint64);
    }
  }

  /** Leading digits whose value passes 64 bits make the result MaxUint64,
      whatever follows them. */
  lemma ParseUintSaturates(s: Bytes, j: nat)
    requires j <= |s| && AllDigits(s[..j]) && Horner(s[..j], 0) > MaxUint64
    ensures ParseUint(s) as int == MaxUint64
  {
    ParseDigitsSaturates(s, j, 0);
  }

  lemma {:induction false} ParseDigitsSaturates(s: Bytes, j: nat, acc: uint64)
    requires j <= |s| && AllDigits(s[..j]) && Horner(s[..j], acc as nat) > MaxUint64
    ensures ParseDigits(s, acc) as int == MaxUint64
  {
    assert j > 0;
    var next := acc as int * 10 + (s[0] - DigitZero) as int;
    if next <= MaxUint64 {
      assert s[..j][1..] == s[1..][..j - 1];
      ParseDigitsSaturates(s[1..], j - 1, next as uint64);
    }
  }

  /** The decimal text of any 64-bit value parses back to it. */
  lemma ParseFormatUint(n: uint64)
    ensures ParseUint(FormatUint(n as nat)) == n
  {
    HornerFormat(n as nat);
    ParseUintDigits(FormatUint(n as nat));
  }

  /** Round trip of the version string written by addCouchDBFieldsToValue. */
  lemma VersionRoundTrip(h: Height)
    ensures CreateVersionFromString(FormatVersion(h)) == h
  {
    var b := FormatUint(h.blockNum as nat);
    var t := FormatUint(h.txNum as nat);
    var v := FormatVersion(h);
    assert v == b + [Colon] + t;
    var i := FirstIndex(v, Colon);
    assert i == |b| by {
      assert v[|b|] == Colon && v[..|b|] == b;
      assert !IsDigit(Colon);
    }
    assert v[..i] == b && v[i + 1..] == t;
    assert Colon !in t by {
      assert !IsDigit(Colon);
    }
    ParseFormatUint(h.blockNum);
    ParseFormatUint(h.txNum);
  }
}
