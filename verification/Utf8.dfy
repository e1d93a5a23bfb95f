/**
 UTF-8 validation.  Masks and shifts of unsigned bytes are written with / and %.
 */
module Utf8 {
  import opened Wrappers
  import opened CStrings

  // ---------------------------------------------------------------- the encoding, from RFC 3629

  predicate Scalar(cp: int) {
    0 <= cp <= 0x10FFFF && !(0xD800 <= cp <= 0xDFFF)
  }

  /** The bytes of one scalar value (section 3). */
  function Enc(cp: int): string
    requires Scalar(cp)
  {
    if cp < 0x80 then [cp as char]
    else if cp < 0x800 then [(0xC0 + cp / 64) as char, (0x80 + cp % 64) as char]
    else if cp < 0x10000 then [(0xE0 + cp / 4096) as char, (0x80 + cp / 64 % 64) as char, (0x80 + cp % 64) as char]
    else [(0xF0 + cp / 262144) as char, (0x80 + cp / 4096 % 64) as char,
          (0x80 + cp / 64 % 64) as char, (0x80 + cp % 64) as char]
  }

  predicate AllScalars(cps: seq<int>) {
    forall i :: 0 <= i < |cps| ==> Scalar(cps[i])
  }

  function Encode(cps: seq<int>): string
    requires AllScalars(cps)
  {
    if cps == [] then "" else Enc(cps[0]) + Encode(cps[1..])
  }

  predicate In(c: char, lo: int, hi: int) {
    lo <= c as int <= hi
  }

  /** A sequence of n bytes in the grammar of section 4 stands at the start of t. */
  predicate Grammar(t: string, n: int) {
    && 1 <= n <= 4 && n <= |t|
    && match n
       case 1 => In(t[0], 0, 0x7F)
       case 2 => In(t[0], 0xC2, 0xDF) && In(t[1], 0x80, 0xBF)
       case 3 =>
         && In(t[2], 0x80, 0xBF)
         && ((t[0] as int == 0xE0 && In(t[1], 0xA0, 0xBF))
             || (In(t[0], 0xE1, 0xEC) && In(t[1], 0x80, 0xBF))
             || (t[0] as int == 0xED && In(t[1], 0x80, 0x9F))
             || (In(t[0], 0xEE, 0xEF) && In(t[1], 0x80, 0xBF)))
       case _ =>
         && In(t[2], 0x80, 0xBF) && In(t[3], 0x80, 0xBF)
         && ((t[0] as int == 0xF0 && In(t[1], 0x90, 0xBF))
             || (In(t[0], 0xF1, 0xF3) && In(t[1], 0x80, 0xBF))
             || (t[0] as int == 0xF4 && In(t[1], 0x80, 0x8F)))
  }

  // ---------------------------------------------------------------- the validator

  predicate IsCont(c: char) {
    c as int / 64 == 2
  }

  function NumBytes(c: char): int {
    var b := c as int;
    if b == 0xC0 || b == 0xC1 || b > 0xF4 || IsCont(c) then 0
    else if b / 128 == 0 then 1
    else if b / 32 == 6 then 2
    else if b / 16 == 14 then 3
    else if b / 8 == 30 then 4
    else 0
  }

  /** Byte i of t is there and is a continuation byte. */
  predicate ContAt(t: string, i: nat) {
    i < |t| && IsCont(t[i])
  }

  /** The bits of a sequence of n bytes, put together. */
  function Bits(t: string, n: int): int
    requires 1 <= n <= 4 && n <= |t|
  {
    if n == 1 then t[0] as int
    else if n == 2 then t[0] as int % 32 * 64 + t[1] as int % 64
    else if n == 3 then (t[0] as int % 16 * 64 + t[1] as int % 64) * 64 + t[2] as int % 64
    else ((t[0] as int % 8 * 64 + t[1] as int % 64) * 64 + t[2] as int % 64) * 64 + t[3] as int % 64
  }

  predicate Complete(t: string, n: int) {
    1 <= n <= 4 && t != "" && (n > 1 ==> ContAt(t, 1)) && (n > 2 ==> ContAt(t, 2)) && (n > 3 ==> ContAt(t, 3))
  }

  /** Neither overlong, nor above the last code point, nor a surrogate half. */
  predicate CodePointOk(cp: int, len: int) {
    && !((cp < 0x80 && len > 1) || (cp < 0x800 && len > 2) || (cp < 0x10000 && len > 3))
    && cp <= 0x10FFFF
    && !(0xD800 <= cp <= 0xDFFF)
  }

  predicate SequenceOk(t: string) {
    && t != "" && var n := NumBytes(t[0]);
    Complete(t, n) && CodePointOk(Bits(t, n), n)
  }

  lemma TwoBytes(a: int, b: int)
    requires 0xC2 <= a <= 0xDF && 0x80 <= b <= 0xBF
    ensures var cp := a % 32 * 64 + b % 64;
            0x80 <= cp < 0x800 && a == 0xC0 + cp / 64 && b == 0x80 + cp % 64
  {
  }

  lemma ThreeBytes(a: int, b: int, c: int)
    requires 0xE0 <= a <= 0xEF && 0x80 <= b <= 0xBF && 0x80 <= c <= 0xBF
    ensures var cp := (a % 16 * 64 + b % 64) * 64 + c % 64;
            cp < 0x10000 && a == 0xE0 + cp / 4096 && b == 0x80 + cp / 64 % 64 && c == 0x80 + cp % 64
  {
    var cp := (a % 16 * 64 + b % 64) * 64 + c % 64;
    assert cp / 64 == a % 16 * 64 + b % 64;
  }

  lemma FourBytes(a: int, b: int, c: int, d: int)
    requires 0xF0 <= a <= 0xF4 && 0x80 <= b <= 0xBF && 0x80 <= c <= 0xBF && 0x80 <= d <= 0xBF
    ensures var cp := ((a % 8 * 64 + b % 64) * 64 + c % 64) * 64 + d % 64;
            && a == 0xF0 + cp / 262144 && b == 0x80 + cp / 4096 % 64
            && c == 0x80 + cp / 64 % 64 && d == 0x80 + cp % 64
  {
    var hi := (a % 8 * 64 + b % 64) * 64 + c % 64;
    var cp := hi * 64 + d % 64;
    assert cp / 64 == hi && hi / 64 == a % 8 * 64 + b % 64;
    assert cp / 4096 == cp / 64 / 64;
  }

  /** What the validator accepts at t is the encoding of one scalar value. */
  lemma SequenceEnc(t: string)
    requires SequenceOk(t)
    ensures var n := NumBytes(t[0]);
            n <= |t| && Scalar(Bits(t, n)) && t[..n] == Enc(Bits(t, n))
  {
    var n := NumBytes(t[0]);
    if n == 2 {
      TwoBytes(t[0] as int, t[1] as int);
    } else if n == 3 {
      ThreeBytes(t[0] as int, t[1] as int, t[2] as int);
    } else if n == 4 {
      FourBytes(t[0] as int, t[1] as int, t[2] as int, t[3] as int);
    }
  }

  /** It accepts exactly the grammar, and its length is the grammar's. */
  lemma SequenceGrammar(t: string, n: int)
    ensures Grammar(t, n) <==> SequenceOk(t) && n == NumBytes(t[0])
  {
  }

  lemma Digits64(cp: int)
    requires 0 <= cp <= 0x10FFFF
    ensures cp == cp / 64 * 64 + cp % 64
    ensures cp / 64 == cp / 4096 * 64 + cp / 64 % 64
    ensures cp / 4096 == cp / 262144 * 64 + cp / 4096 % 64
  {
    assert cp / 4096 == cp / 64 / 64;
    assert cp / 262144 == cp / 4096 / 64;
  }

  predicate EncBack(cp: int)
    requires Scalar(cp)
  {
    Bits(Enc(cp), |Enc(cp)|) == cp && NumBytes(Enc(cp)[0]) == |Enc(cp)| && Complete(Enc(cp), |Enc(cp)|)
  }

  lemma LowBits(h: int)
    requires 0 <= h < 8
    ensures (0xF0 + h) % 8 == h && (0xF0 + h) / 8 == 30
  {
  }

  lemma EncBits4(cp: int)
    requires Scalar(cp) && 0x10000 <= cp
    ensures EncBack(cp)
  {
    Digits64(cp);
    LowBits(cp / 262144);
  }

  lemma EncBits3(cp: int)
    requires Scalar(cp) && 0x800 <= cp < 0x10000
    ensures EncBack(cp)
  {
    Digits64(cp);
    assert (0xE0 + cp / 4096) % 16 == cp / 4096;
  }

  lemma EncBits(cp: int)
    requires Scalar(cp)
    ensures EncBack(cp)
  {
    if 0x10000 <= cp {
      EncBits4(cp);
    } else if 0x800 <= cp {
      EncBits3(cp);
    } else if 0x80 <= cp {
      Digits64(cp);
      assert (0xC0 + cp / 64) % 32 == cp / 64;
    }
  }

  /** It accepts every scalar value's encoding, with its length, whatever follows. */
  lemma EncSequence(cp: int, rest: string)
    requires Scalar(cp)
    ensures var t := Enc(cp) + rest;
            SequenceOk(t) && NumBytes(t[0]) == |Enc(cp)| && Bits(t, NumBytes(t[0])) == cp
  {
    EncBits(cp);
    var t := Enc(cp) + rest;
    assert forall i :: 0 <= i < |Enc(cp)| ==> t[i] == Enc(cp)[i];
    assert Bits(t, |Enc(cp)|) == Bits(Enc(cp), |Enc(cp)|);
  }

  // ---------------------------------------------------------------- whole strings

  /** The code points the validator finds in t. */
  function Decode(t: string): (r: Option<seq<int>>)
    decreases |t|
  {
    if t == "" then Some([])
    else if !SequenceOk(t) || NumBytes(t[0]) > |t| then None
    else
      var n := NumBytes(t[0]);
      match Decode(t[n..])
      case None => None
      case Some(cps) => Some([Bits(t, n)] + cps)
  }

  predicate ValidUtf8(t: string) {
    Decode(t).Some?
  }

  lemma DecodeFirst(t: string) returns (n: nat, cp: int)
    requires t != "" && ValidUtf8(t)
    ensures 1 <= n <= |t| && Scalar(cp) && t[..n] == Enc(cp)
    ensures ValidUtf8(t[n..]) && Decode(t).value == [cp] + Decode(t[n..]).value
  {
    SequenceEnc(t);
    n := NumBytes(t[0]);
    cp := Bits(t, n);
  }

  lemma EncodeCons(cp: int, cps: seq<int>)
    requires Scalar(cp) && AllScalars(cps)
    ensures AllScalars([cp] + cps) && Encode([cp] + cps) == Enc(cp) + Encode(cps)
  {
    assert ([cp] + cps)[1..] == cps;
  }

  lemma {:induction false} DecodeEncodes(t: string)
    requires ValidUtf8(t)
    ensures AllScalars(Decode(t).value) && Encode(Decode(t).value) == t
    decreases |t|
  {
    if t != "" {
      var n, cp := DecodeFirst(t);
      DecodeEncodes(t[n..]);
      EncodeCons(cp, Decode(t[n..]).value);
      assert t == t[..n] + t[n..];
    }
  }

  lemma {:induction false} EncodeDecodes(cps: seq<int>)
    requires AllScalars(cps)
    ensures Decode(Encode(cps)) == Some(cps)
  {
    if cps != [] {
      var rest := Encode(cps[1..]);
      EncSequence(cps[0], rest);
      EncodeDecodes(cps[1..]);
      var t := Enc(cps[0]) + rest;
      assert t[|Enc(cps[0])|..] == rest;
      assert cps == [cps[0]] + cps[1..];
    }
  }

  /** A string is valid exactly when it is the encoding of a list of scalar values. */
  lemma ValidIsEncoded(t: string)
    ensures ValidUtf8(t) <==> exists cps: seq<int> :: AllScalars(cps) && Encode(cps) == t
  {
    if ValidUtf8(t) {
      DecodeEncodes(t);
    }
    if cps: seq<int> :| AllScalars(cps) && Encode(cps) == t {
      EncodeDecodes(cps);
    }
  }

  /** That list is unique. */
  lemma EncodeInjective(a: seq<int>, b: seq<int>)
    requires AllScalars(a) && AllScalars(b) && Encode(a) == Encode(b)
    ensures a == b
  {
    EncodeDecodes(a);
    EncodeDecodes(b);
  }

  // ---------------------------------------------------------------- the validator's code

  /** The sequence at pointer p; bytes are read only as far as they continue the sequence. */
  method VerifyUtf8Sequence(m: string, p: nat) returns (ok: bool, len: int)
    requires Terminated(m) && p < |m| - 1
    ensures ok == SequenceOk(From(m, p)) && len == NumBytes(m[p])
  {
    AtPointer(m, p);
    var cp := 0;
    len := NumBytes(m[p]);
    if len == 1 {
      cp := m[p] as int;
    } else if len == 2 && IsCont(m[p+1]) {
      cp := m[p] as int % 32;
      cp := cp * 64 + m[p+1] as int % 64;
    } else if len == 3 && IsCont(m[p+1]) && IsCont(m[p+2]) {
      cp := m[p] as int % 16;
      cp := cp * 64 + m[p+1] as int % 64;
      cp := cp * 64 + m[p+2] as int % 64;
    } else if len == 4 && IsCont(m[p+1]) && IsCont(m[p+2]) && IsCont(m[p+3]) {
      cp := m[p] as int % 8;
      cp := cp * 64 + m[p+1] as int % 64;
      cp := cp * 64 + m[p+2] as int % 64;
      cp := cp * 64 + m[p+3] as int % 64;
    } else {
      return false, len;
    }
    if (cp < 0x80 && len > 1) || (cp < 0x800 && len > 2) || (cp < 0x10000 && len > 3) {
      return false, len;
    }
    if cp > 0x10FFFF {
      return false, len;
    }
    if cp >= 0xD800 && cp <= 0xDFFF {
      return false, len;
    }
    return true, len;
  }

  lemma FromOn(m: string, p: nat, n: nat)
    requires p + n < |m|
    ensures |From(m, p)| == |m| - 1 - p && From(m, p)[n..] == From(m, p + n)
  {
  }

  /** A string whose first sequence is accepted is valid when the rest is. */
  lemma ValidFirst(t: string)
    requires SequenceOk(t)
    ensures 0 < NumBytes(t[0]) <= |t| && ValidUtf8(t) == ValidUtf8(t[NumBytes(t[0])..])
  {
    SequenceEnc(t);
    hide Bits, Complete, CodePointOk;
  }

  lemma ValidEnds(t: string)
    ensures t == "" ==> ValidUtf8(t)
    ensures t != "" && !SequenceOk(t) ==> !ValidUtf8(t)
  {
  }

  /** What is left to validate after the sequence at ptr. */
  lemma ValidStep(m: string, ptr: nat)
    requires Terminated(m) && ptr < |m| - 1
    ensures From(m, ptr) != "" && From(m, ptr)[0] == m[ptr]
    ensures SequenceOk(From(m, ptr)) ==>
              var next := ptr + NumBytes(m[ptr]);
              ptr < next < |m| && ValidUtf8(From(m, ptr)) == ValidUtf8(From(m, next))
    ensures !SequenceOk(From(m, ptr)) ==> !ValidUtf8(From(m, ptr))
  {
    AtPointer(m, ptr);
    FromOn(m, ptr, 0);
    ValidEnds(From(m, ptr));
    if SequenceOk(From(m, ptr)) {
      ValidFirst(From(m, ptr));
      FromOn(m, ptr, NumBytes(m[ptr]));
    }
  }

  /** The whole string from pointer p to its terminator. */
  method IsValidUtf8(m: string, p: nat, stringLen: nat) returns (ok: bool)
    requires Terminated(m) && p + stringLen == |m| - 1
    ensures ok == ValidUtf8(From(m, p))
  {
    ValidEnds(From(m, |m| - 1));
    assert From(m, |m| - 1) == "";
    hide *;
    var ptr, end := p, p + stringLen;
    while ptr < end
      invariant p <= ptr <= end
      invariant ValidUtf8(From(m, p)) == ValidUtf8(From(m, ptr))
    {
      ValidStep(m, ptr);
      var good, len := VerifyUtf8Sequence(m, ptr);
      if !good {
        return false;
      }
      ptr := ptr + len;
    }
    return true;
  }
}
