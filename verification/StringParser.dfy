/**
 The code that reads a string literal, by pointers into a terminated string; that every index
 is in bounds says that neither a read passes the terminator nor a write the buffer.  The
 ghost results say how many characters a step has looked at.
 */
module StringParser {
  import opened Wrappers
  import opened CStrings
  import opened Utf8
  import opened Escapes

  lemma SkipAt(m: string, q: nat)
    requires Terminated(m) && q < |m|
    ensures m[q] == '\"' ==> Skip(From(m, q)) == Some(1)
    ensures m[q] == NUL ==> Skip(From(m, q)) == None
    ensures m[q] == '\\' ==> q + 1 < |m|
    ensures m[q] == '\\' && m[q+1] == NUL ==> Skip(From(m, q)) == None
    ensures m[q] == '\\' && m[q+1] != NUL ==> q + 2 < |m| && Skip(From(m, q)) == More(2, Skip(From(m, q + 2)))
    ensures m[q] != '\"' && m[q] != NUL && m[q] != '\\' ==>
              q + 1 < |m| && Skip(From(m, q)) == More(1, Skip(From(m, q + 1)))
  {
    AtPointer(m, q);
    if m[q] == '\\' {
      AtPointer(m, q + 1);
      if m[q+1] != NUL {
        assert From(m, q)[2..] == From(m, q + 2);
      }
    }
  }

  /** One character of a literal, an escaped one with its backslash. */
  method SkipChar(m: string, q: nat) returns (ok: bool, r: nat)
    requires Terminated(m) && q < |m| && m[q] != '\"'
    ensures q <= r < |m|
    ensures if ok then q < r && Skip(From(m, q)) == More(r - q, Skip(From(m, r))) else Skip(From(m, q)) == None
  {
    SkipAt(m, q);
    r := q;
    if m[r] == NUL {
      return false, r;
    } else if m[r] == '\\' {
      r := r + 1;
      if m[r] == NUL {
        return false, r;
      }
    }
    return true, r + 1;
  }

  lemma LiteralOpens(m: string, p: nat)
    requires Terminated(m) && p < |m|
    ensures if m[p] == '\"' then p + 1 < |m| && Literal(From(m, p)) == More(1, Skip(From(m, p + 1)))
            else Literal(From(m, p)) == None
    ensures Literal(From(m, p)).Some? ==> p + Literal(From(m, p)).value < |m|
  {
    AtPointer(m, p);
    hide Skip, More;
  }

  lemma MoreSkipped(l: Option<nat>, n: nat, s: Option<nat>, k: nat, r: Option<nat>)
    requires l == More(n, s)
    ensures s == More(k, r) ==> l == More(n + k, r)
    ensures s == None ==> l == None
    ensures s == Some(k) ==> l == Some(n + k)
  {
  }

  /** On success the pointer behind the closing quote. */
  method SkipQuotes(m: string, p: nat) returns (ok: bool, q: nat)
    requires Terminated(m) && p < |m|
    ensures ok == Literal(From(m, p)).Some?
    ensures ok ==> q == p + Literal(From(m, p)).value < |m|
  {
    hide *;
    LiteralOpens(m, p);
    q := p;
    if m[q] != '\"' {
      return false, q;
    }
    q := q + 1;
    ghost var l := Literal(From(m, p));
    while m[q] != '\"'
      invariant p < q < |m| && l == More(q - p, Skip(From(m, q)))
      decreases |m| - q
    {
      ghost var q0 := q;
      var good;
      good, q := SkipChar(m, q);
      MoreSkipped(l, q0 - p, Skip(From(m, q0)), q - q0, Skip(From(m, q)));
      if !good {
        return false, q;
      }
    }
    SkipAt(m, q);
    MoreSkipped(l, q - p, Skip(From(m, q)), 1, None);
    return true, q + 1;
  }

  // ---------------------------------------------------------------- how far the code looks

  /** The four digits are looked at as far as the terminator allows, whether they are digits or not. */
  function HexLooks(t: string): nat {
    if |t| >= 4 then 4 else |t| + 1
  }

  function UnitLooks(t: string): nat {
    if !FourHex(t) then HexLooks(t)
    else if !Lead(Hex4(t).value) then 4
    else if |t| == 4 || t[4] != '\\' then 5
    else if |t| == 5 || t[5] != 'u' then 6
    else 6 + HexLooks(t[6..])
  }

  function TokenLooks(t: string): nat
    requires t != ""
  {
    if t[0] != '\\' then 1
    else if |t| == 1 || t[1] != 'u' then 2
    else 2 + UnitLooks(t[2..])
  }

  /** How many characters of t the replacement of escapes looks at, its terminator included. */
  function Looks(t: string, n: int): nat
    decreases |t|
  {
    if t == "" || n <= 0 then 1
    else
      match NextToken(t)
      case None => TokenLooks(t)
      case Some(k) => k.used + Looks(t[k.used..], n - k.used)
  }

  /** Never past the terminator. */
  lemma {:induction false} LooksWithin(t: string, n: int)
    ensures Looks(t, n) <= |t| + 1
    decreases |t|
  {
    if t != "" && n > 0 && NextToken(t).Some? {
      var used := NextToken(t).value.used;
      LooksWithin(t[used..], n - used);
    }
  }

  /** The first bad token of the content c is a \u with fewer than three characters behind it. */
  predicate Cramped(c: string)
    decreases |c|
  {
    c != "" &&
    match NextToken(c)
    case None => CrampedToken(c)
    case Some(k) => Cramped(c[k.used..])
  }

  predicate CrampedToken(c: string) {
    && |c| >= 2 && c[0] == '\\' && c[1] == 'u'
    && (|c| < 5 || (FourHex(c[2..]) && Lead(Hex4(c[2..]).value) && 8 <= |c| < 11 && c[6] == '\\' && c[7] == 'u'))
  }

  lemma CrampedLooks(t: string, n: nat)
    requires Skip(t) == Some(n + 1) && n > 0 && NextToken(t).None?
    ensures n < |t| && (TokenLooks(t) > n + 1 <==> CrampedToken(t[..n]))
  {
    if t[0] == '\\' {
      assert Skip(t[2..]) == Some(n - 2 + 1);
      if t[1] == 'u' {
        CrampedUnit(t[2..], n - 2);
        assert t[..n][2..] == t[2..][..n-2];
      }
    }
  }

  lemma CrampedUnit(t: string, n: nat)
    requires Skip(t) == Some(n + 1) && Utf16(t).None?
    ensures n < |t| && FourHex(t) == FourHex(t[..n]) && Hex4(t) == Hex4(t[..n])
    ensures UnitLooks(t) > n + 1 <==>
            n < 3 || (FourHex(t) && Lead(Hex4(t).value) && 6 <= n < 9 && t[4] == '\\' && t[5] == 'u')
  {
    HexInside(t, n);
    if FourHex(t) {
      SkipHex(t);
      if |t| >= 6 && t[4] == '\\' && t[5] == 'u' {
        assert t[4..][2..] == t[6..] && Skip(t[6..]) == Some(n - 6 + 1);
      }
    }
  }

  /** The code looks past the closing quote exactly when the literal ends in a cramped \u. */
  lemma {:induction false} LooksPastQuote(t: string, n: nat)
    requires Skip(t) == Some(n + 1)
    ensures n <= |t| && (Looks(t, n) > n + 1 <==> Cramped(t[..n]))
    decreases |t|
  {
    if n > 0 {
      TokenInside(t, n);
      if NextToken(t).Some? {
        SkipToken(t);
        var used := NextToken(t).value.used;
        LooksPastQuote(t[used..], n - used);
        assert t[..n][used..] == t[used..][..n - used];
      } else {
        CrampedLooks(t, n);
      }
    }
  }

  /** It does look past the quote of "\u1", with a letter behind the quote. */
  lemma LooksPastQuoteExample()
    ensures var t := "\\u1\"x";
            Skip(t) == Some(4) && Looks(t, 3) == 6
  {
    var t := "\\u1\"x";
    assert t[2..] == "1\"x" && t[2..][1..] == "\"x";
    assert NextToken(t) == None;
  }

  // ---------------------------------------------------------------- \u escapes

  method ParseUtf16Hex(m: string, p: nat) returns (ok: bool, x: int, ghost looked: nat)
    requires Terminated(m) && p < |m|
    ensures ok == FourHex(From(m, p)) && (ok ==> Hex4(From(m, p)) == Some(x)) && looked == HexLooks(From(m, p))
  {
    AtPointer(m, p);
    looked := 1;
    if m[p] == NUL { return false, 0, looked; }
    AtPointer(m, p + 1);
    looked := 2;
    if m[p+1] == NUL { return false, 0, looked; }
    AtPointer(m, p + 2);
    looked := 3;
    if m[p+2] == NUL { return false, 0, looked; }
    AtPointer(m, p + 3);
    looked := 4;
    if m[p+3] == NUL { return false, 0, looked; }
    var x1, x2, x3, x4 := HexVal(m[p]), HexVal(m[p+1]), HexVal(m[p+2]), HexVal(m[p+3]);
    if x1 == -1 || x2 == -1 || x3 == -1 || x4 == -1 {
      return false, 0, looked;
    }
    return true, x1 * 4096 + x2 * 256 + x3 * 16 + x4, looked;
  }

  /** The bytes of a code point below 0x10000, as the code shifts them into place. */
  method PutShort(cp: int, out: array<char>, o: nat) returns (q: nat)
    requires Scalar(cp) && cp < 0x10000 && o + 4 <= out.Length
    modifies out
    ensures q == o + |Enc(cp)| - 1 && out[..] == old(out[..o]) + Enc(cp) + old(out[o + |Enc(cp)|..])
  {
    q := o;
    ghost var e := Enc(cp);
    if cp < 0x80 {
      out[q] := cp as char;
      assert |e| == 1 && out[o] == e[0];
    } else if cp < 0x800 {
      out[q] := (0xC0 + cp / 64 % 32) as char;
      out[q+1] := (0x80 + cp % 64) as char;
      assert |e| == 2 && out[o] == e[0] && out[o+1] == e[1];
      q := q + 1;
    } else {
      out[q] := (0xE0 + cp / 4096 % 16) as char;
      out[q+1] := (0x80 + cp / 64 % 64) as char;
      out[q+2] := (0x80 + cp % 64) as char;
      assert |e| == 3 && out[o] == e[0] && out[o+1] == e[1] && out[o+2] == e[2];
      q := q + 2;
    }
  }

  lemma PairEnc(lead: int, trail: int)
    requires Lead(lead) && Trail(trail)
    ensures var cp := (lead - 0xD800) % 1024 * 1024 + (trail - 0xDC00) % 1024 + 0x10000;
            cp == Pair(lead, trail) && 0x10000 <= cp <= 0x10FFFF && cp / 262144 % 8 == cp / 262144
  {
  }

  method PutPair(lead: int, trail: int, out: array<char>, o: nat) returns (q: nat)
    requires Lead(lead) && Trail(trail) && o + 4 <= out.Length
    modifies out
    ensures var e := Enc(Pair(lead, trail));
            q == o + |e| - 1 && out[..] == old(out[..o]) + e + old(out[o + |e|..])
  {
    PairEnc(lead, trail);
    var cp := (lead - 0xD800) % 1024 * 1024 + (trail - 0xDC00) % 1024 + 0x10000;
    ghost var e := Enc(cp);
    out[o] := (0xF0 + cp / 262144 % 8) as char;
    out[o+1] := (0x80 + cp / 4096 % 64) as char;
    out[o+2] := (0x80 + cp / 64 % 64) as char;
    out[o+3] := (0x80 + cp % 64) as char;
    assert |e| == 4 && out[o] == e[0] && out[o+1] == e[1] && out[o+2] == e[2] && out[o+3] == e[3];
    q := o + 3;
  }

  /** From the u of an escape to its last character; the bytes go to out. */
  method ParseUtf16(m: string, p: nat, out: array<char>, o: nat) returns (ok: bool, q: nat, w: nat, ghost looked: nat)
    requires Terminated(m) && p + 1 < |m|
    requires Utf16(From(m, p + 1)).Some? ==> o + 4 <= out.Length
    modifies out
    ensures var u := Utf16(From(m, p + 1));
            && ok == u.Some? && looked == UnitLooks(From(m, p + 1))
            && if ok then
                 var e := Enc(u.value.cp);
                 q == p + u.value.used && w == o + |e| - 1 && out[..] == old(out[..o]) + e + old(out[o + |e|..])
               else out[..] == old(out[..])
  {
    q, w := p + 1, o;
    ghost var t := From(m, p + 1);
    var good, cp;
    good, cp, looked := ParseUtf16Hex(m, q);
    if !good {
      return false, q, w, looked;
    }
    if cp < 0xD800 || cp > 0xDFFF {
      w := PutShort(cp, out, o);
    } else if cp >= 0xD800 && cp <= 0xDBFF {
      q := q + 4;
      AtPointer(m, q);
      looked := 5;
      if m[q] != '\\' { return false, q, w, looked; }
      AtPointer(m, q + 1);
      looked := 6;
      if m[q+1] != 'u' { return false, q, w, looked; }
      assert From(m, q + 2) == t[6..];
      var trail;
      ghost var more;
      good, trail, more := ParseUtf16Hex(m, q + 2);
      looked := 6 + more;
      if !good || trail < 0xDC00 || trail > 0xDFFF {
        return false, q, w, looked;
      }
      w := PutPair(cp, trail, out, o);
      q := q + 2;
    } else {
      return false, q, w, looked;
    }
    q := q + 3;
    return true, q, w, looked;
  }

  // ---------------------------------------------------------------- the characters between the quotes

  /** One character or escape of the content; its bytes go to out. */
  method ProcessToken(m: string, p: nat, out: array<char>, o: nat) returns (ok: bool, q: nat, w: nat, ghost looked: nat)
    requires Terminated(m) && p + 1 < |m|
    requires NextToken(From(m, p)).Some? ==>
      o + 1 <= out.Length && (NextToken(From(m, p)).value.used > 2 ==> o + 4 <= out.Length)
    modifies out
    ensures From(m, p) != ""
    ensures var k := NextToken(From(m, p));
            && ok == k.Some? && looked == TokenLooks(From(m, p))
            && (ok ==> q == p + k.value.used && w == o + |k.value.bytes|
                       && out[..] == old(out[..o]) + k.value.bytes + old(out[w..]))
  {
    AtPointer(m, p);
    q, w, looked := p, o, 1;
    if m[q] == '\\' {
      q := q + 1;
      looked := 2;
      AtPointer(m, q);
      if m[q] == 'u' {
        ghost var more;
        assert From(m, q + 1) == From(m, p)[2..];
        ok, q, w, more := ParseUtf16(m, q, out, o);
        looked := 2 + more;
        if !ok {
          return;
        }
      } else {
        var c := Simple(m[q]);
        if c == None {
          return false, q, w, looked;
        }
        out[w] := c.value;
      }
    } else if m[q] as int < 0x20 {
      return false, q, w, looked;
    } else {
      out[w] := m[q];
    }
    return true, q + 1, w + 1, looked;
  }

  /** Between two tokens of the text t0: done has been written, t is what is left, i characters on. */
  ghost predicate HalfRead(t0: string, len: nat, done: string, t: string, i: nat) {
    && i <= len && |done| <= i
    && Skip(t) == Some(len - i + 1)
    && Unescape(t0, len) == Before(done, Unescape(t, len - i))
    && Looks(t0, len) == i + Looks(t, len - i)
  }

  lemma BeforeTwice(a: string, b: string, r: Option<string>)
    ensures Before(a, Before(b, r)) == Before(a + b, r)
  {
    if r.Some? {
      assert a + (b + r.value) == (a + b) + r.value;
    }
  }

  lemma TokenFacts(t: string, left: nat)
    requires Skip(t) == Some(left + 1) && left > 0
    ensures t != ""
    ensures match NextToken(t)
            case None => Unescape(t, left) == None && Looks(t, left) == TokenLooks(t)
            case Some(k) =>
              && k.used <= left && (k.used > 2 ==> k.used >= 6)
              && Skip(t[k.used..]) == Some(left - k.used + 1)
              && Unescape(t, left) == Before(k.bytes, Unescape(t[k.used..], left - k.used))
              && Looks(t, left) == k.used + Looks(t[k.used..], left - k.used)
  {
    if NextToken(t).Some? {
      SkipToken(t);
    }
  }

  lemma HalfReadStep(t0: string, len: nat, done: string, t: string, i: nat)
    requires HalfRead(t0, len, done, t, i) && i < len
    ensures t != ""
    ensures match NextToken(t)
            case None => Unescape(t0, len) == None && Looks(t0, len) == i + TokenLooks(t)
            case Some(k) =>
              && HalfRead(t0, len, done + k.bytes, t[k.used..], i + k.used)
              && |done| + 1 <= len + 1 && (k.used > 2 ==> |done| + 4 <= len + 1)
  {
    TokenFacts(t, len - i);
    match NextToken(t)
    case None =>
    case Some(k) =>
      BeforeTwice(done, k.bytes, Unescape(t[k.used..], len - i - k.used));
  }

  method ProcessStep(m: string, p: nat, len: nat, out: array<char>, q: nat, w: nat)
    returns (ok: bool, q': nat, w': nat, ghost looked: nat)
    requires Terminated(m) && p <= q < |m| && out.Length == len + 1 && w <= len && q - p < len
    requires HalfRead(From(m, p), len, out[..w], From(m, q), q - p)
    modifies out
    ensures if ok then q < q' < |m| && w' <= len && HalfRead(From(m, p), len, out[..w'], From(m, q'), q' - p)
            else Unescape(From(m, p), len) == None && looked == Looks(From(m, p), len)
  {
    hide *;
    ghost var done, t := out[..w], From(m, q);
    HalfReadStep(From(m, p), len, done, t, q - p);
    AtPointer(m, q);
    ghost var rest;
    ok, q', w', looked := ProcessToken(m, q, out, w);
    if ok {
      rest := old(out[w'..]);
      TokenWritten(out[..], done, NextToken(t).value.bytes, rest);
      Onwards(m, q, NextToken(t).value.used);
      HalfReadWithin(From(m, p), len, out[..w'], From(m, q'), q' - p);
    }
    looked := q - p + looked;
  }

  lemma TokenWritten(a: string, done: string, bytes: string, rest: string)
    requires a == done + bytes + rest
    ensures a[..|done| + |bytes|] == done + bytes
  {
  }

  lemma Onwards(m: string, q: nat, n: nat)
    requires q < |m| && n <= |From(m, q)|
    ensures q + n < |m| && From(m, q)[n..] == From(m, q + n)
  {
  }

  lemma HalfReadWithin(t0: string, len: nat, done: string, t: string, i: nat)
    requires HalfRead(t0, len, done, t, i)
    ensures |done| <= len
  {
  }

  lemma HalfReadStart(m: string, p: nat, len: nat)
    requires Terminated(m) && p < |m| && Skip(From(m, p)) == Some(len + 1)
    ensures HalfRead(From(m, p), len, "", From(m, p), 0) && p + len < |m| && m[p + len] != NUL
    ensures Unescape(From(m, p), len) == Content(m[p..p+len])
  {
    Aligned(From(m, p), len);
    BeforeNothing(Unescape(From(m, p), len), "");
    assert From(m, p)[len] == '\"';
    assert From(m, p)[..len] == m[p..p+len];
  }

  lemma HalfReadEnd(t0: string, len: nat, done: string, t: string, i: nat)
    requires HalfRead(t0, len, done, t, i) && (t == "" || i >= len)
    ensures i == len && Unescape(t0, len) == Some(done) && Looks(t0, len) == len + 1
  {
    BeforeEnd(done);
  }

  /** The content of a literal of which the closing quote has been found; read as a C string. */
  method ProcessString(m: string, p: nat, len: nat) returns (r: Option<string>, ghost looked: nat)
    requires Terminated(m) && p < |m| && Skip(From(m, p)) == Some(len + 1)
    ensures p + len < |m| && r == Processed(m[p..p+len]) && looked == Looks(From(m, p), len)
  {
    HalfReadStart(m, p, len);
    var out := new char[len + 1];
    var q: nat, w: nat := p, 0;
    assert out[..w] == "";
    looked := 0;
    while m[q] != NUL && q - p < len
      invariant p <= q < |m| && fresh(out) && w <= len && q - p <= len
      invariant HalfRead(From(m, p), len, out[..w], From(m, q), q - p)
      decreases |m| - q
    {
      var ok;
      ok, q, w, looked := ProcessStep(m, p, len, out, q, w);
      if !ok {
        return None, looked;
      }
    }
    AtPointer(m, q);
    HalfReadEnd(From(m, p), len, out[..w], From(m, q), q - p);
    looked := len + 1;
    ghost var done := out[..w];
    out[w] := NUL;
    assert out[..w] == done;
    return Some(UpToNul(out[..w])), looked;
  }

  lemma BeforeNothing(r: Option<string>, a: string)
    requires a == ""
    ensures Before(a, r) == r
  {
    if r.Some? {
      assert a + r.value == r.value;
    }
  }

  lemma BeforeEnd(a: string)
    ensures Before(a, Some("")) == Some(a)
  {
    assert a + "" == a;
  }

  lemma LiteralAt(m: string, p: nat, q: nat)
    requires Terminated(m) && p < |m| && Literal(From(m, p)).Some? && q == p + Literal(From(m, p)).value
    ensures p + 2 <= q < |m| && Skip(From(m, p + 1)) == Some(q - p - 1)
    ensures Quoted(From(m, p)) ==
            var c := Processed(m[p+1..q-1]);
            if c.Some? then Some(Token(c.value, q - p)) else None
  {
    AtPointer(m, p);
    var t, k := From(m, p), q - p;
    assert t[1..] == From(m, p + 1);
    var a, b := t[1..k-1], m[p+1..q-1];
    assert |a| == |b|;
    forall i | 0 <= i < |a| ensures a[i] == b[i] {
      assert t[i+1] == m[p+1+i];
    }
    assert a == b;
  }

  /** A whole literal: its processed content and the pointer behind it. */
  method GetQuotedString(m: string, p: nat) returns (r: Option<string>, q: nat)
    requires Terminated(m) && p < |m|
    ensures var t := Quoted(From(m, p));
            if t.Some? then r == Some(t.value.bytes) && q == p + t.value.used < |m| else r == None
  {
    var ok;
    ok, q := SkipQuotes(m, p);
    if !ok {
      return None, q;
    }
    LiteralAt(m, p, q);
    var len := q - p - 2;
    ghost var looked;
    r, looked := ProcessString(m, p + 1, len);
  }
}
