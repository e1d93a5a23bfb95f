/**
 JSON string literals: finding the closing quote, and replacing the escapes between the quotes.
 A text t stands for what a pointer has before it up to the terminator.
 */
module Escapes {
  import opened Wrappers
  import opened CStrings
  import opened Utf8

  // ---------------------------------------------------------------- the closing quote

  /** How many characters to the closing quote and past it, from inside a literal. */
  function Skip(t: string): (r: Option<nat>)
    ensures r.Some? ==> 1 <= r.value <= |t| && t[r.value - 1] == '\"'
  {
    if t == "" then None
    else if t[0] == '\"' then Some(1)
    else if t[0] == '\\' then
      if |t| == 1 then None else More(2, Skip(t[2..]))
    else More(1, Skip(t[1..]))
  }

  function More(n: nat, r: Option<nat>): Option<nat> {
    match r
    case None => None
    case Some(k) => Some(n + k)
  }

  /** The length of the literal at the start of t, both quotes included. */
  function Literal(t: string): (r: Option<nat>)
    ensures r.Some? ==> 2 <= r.value <= |t|
  {
    if t == "" || t[0] != '\"' then None else More(1, Skip(t[1..]))
  }

  // ---------------------------------------------------------------- \u escapes

  function HexVal(c: char): int {
    if '0' <= c <= '9' then c as int - '0' as int
    else if 'a' <= c <= 'f' then c as int - 'a' as int + 10
    else if 'A' <= c <= 'F' then c as int - 'A' as int + 10
    else -1
  }

  predicate IsHex(c: char) {
    HexVal(c) != -1
  }

  function HexValue(a: char, b: char, c: char, d: char): (x: int)
    requires IsHex(a) && IsHex(b) && IsHex(c) && IsHex(d)
    ensures 0 <= x <= 0xFFFF
  {
    ((HexVal(a) * 16 + HexVal(b)) * 16 + HexVal(c)) * 16 + HexVal(d)
  }

  predicate FourHex(t: string) {
    |t| >= 4 && IsHex(t[0]) && IsHex(t[1]) && IsHex(t[2]) && IsHex(t[3])
  }

  function Hex4(t: string): Option<int> {
    if FourHex(t) then Some(HexValue(t[0], t[1], t[2], t[3])) else None
  }

  predicate Lead(x: int) {
    0xD800 <= x <= 0xDBFF
  }

  predicate Trail(x: int) {
    0xDC00 <= x <= 0xDFFF
  }

  function Pair(lead: int, trail: int): int {
    (lead - 0xD800) * 1024 + (trail - 0xDC00) + 0x10000
  }

  datatype Unit = Unit(cp: int, used: nat)

  /** The code point that the digits after a \u spell, and how many characters they take. */
  function Utf16(t: string): (r: Option<Unit>)
    ensures r.Some? ==> Scalar(r.value.cp) && (r.value.used == 4 || r.value.used == 10) && r.value.used <= |t|
  {
    match Hex4(t)
    case None => None
    case Some(x) =>
      if Lead(x) then
        if |t| < 6 || t[4] != '\\' || t[5] != 'u' then None
        else
          match Hex4(t[6..])
          case None => None
          case Some(y) => if Trail(y) then Some(Unit(Pair(x, y), 10)) else None
      else if Trail(x) then None
      else Some(Unit(x, 4))
  }

  // ---------------------------------------------------------------- escapes replaced

  function Simple(c: char): Option<char> {
    match c
    case '\"' => Some('\"')
    case '\\' => Some('\\')
    case '/' => Some('/')
    case 'b' => Some(8 as char)
    case 'f' => Some(12 as char)
    case 'n' => Some('\n')
    case 'r' => Some('\r')
    case 't' => Some('\t')
    case _ => None
  }

  datatype Token = Token(bytes: string, used: nat)

  /** The bytes that the token at the start of t stands for, and the token's length. */
  function NextToken(t: string): (r: Option<Token>)
    requires t != ""
    ensures r.Some? ==> 1 <= r.value.used <= |t| && |r.value.bytes| <= r.value.used
  {
    if t[0] == '\\' then
      if |t| == 1 then None
      else if t[1] == 'u' then
        match Utf16(t[2..])
        case None => None
        case Some(u) => Some(Token(Enc(u.cp), 2 + u.used))
      else
        match Simple(t[1])
        case None => None
        case Some(c) => Some(Token([c], 2))
    else if t[0] as int < 0x20 then None
    else Some(Token([t[0]], 1))
  }

  function Before(a: string, r: Option<string>): Option<string> {
    match r
    case None => None
    case Some(b) => Some(a + b)
  }

  /** The bytes of the tokens that begin in the first n characters of t. */
  function Unescape(t: string, n: int): Option<string>
    decreases |t|
  {
    if t == "" || n <= 0 then Some("")
    else
      match NextToken(t)
      case None => None
      case Some(k) => Before(k.bytes, Unescape(t[k.used..], n - k.used))
  }

  // ---------------------------------------------------------------- both scans take the same steps

  /** Plain characters do not end a literal. */
  lemma SkipPlain(t: string)
    requires t != "" && t[0] != '\"' && t[0] != '\\' && Skip(t).Some?
    ensures Skip(t[1..]) == Some(Skip(t).value - 1)
  {
  }

  lemma SkipHex(t: string)
    requires FourHex(t) && Skip(t).Some?
    ensures Skip(t[4..]) == Some(Skip(t).value - 4) && Skip(t).value > 4
  {
    SkipPlain(t);
    var t1, t2, t3 := t[1..], t[2..], t[3..];
    SkipPlain(t1);
    assert t1[1..] == t2;
    SkipPlain(t2);
    assert t2[1..] == t3;
    SkipPlain(t3);
    assert t3[1..] == t[4..];
  }

  lemma SkipSlash(t: string)
    requires |t| >= 2 && t[0] == '\\' && Skip(t).Some?
    ensures Skip(t[2..]) == Some(Skip(t).value - 2)
  {
  }

  lemma SkipUnit(t: string)
    requires Utf16(t).Some? && Skip(t).Some?
    ensures var used := Utf16(t).value.used;
            Skip(t[used..]) == Some(Skip(t).value - used) && Skip(t).value > used
  {
    hide Skip;
    SkipHex(t);
    if Utf16(t).value.used == 10 {
      var t4, t6 := t[4..], t[6..];
      assert t4[2..] == t6 && t6[4..] == t[10..];
      SkipSlash(t4);
      SkipHex(t6);
    }
  }

  /** A token never crosses the closing quote. */
  lemma SkipToken(t: string)
    requires t != "" && NextToken(t).Some? && Skip(t).Some? && Skip(t).value > 1
    ensures var used := NextToken(t).value.used;
            Skip(t[used..]) == Some(Skip(t).value - used) && Skip(t).value > used
  {
    if t[0] == '\\' && t[1] == 'u' {
      SkipUnit(t[2..]);
      var used := Utf16(t[2..]).value.used;
      assert t[2..][used..] == t[2 + used..];
    }
  }

  lemma HexInside(t: string, n: nat)
    requires Skip(t) == Some(n + 1)
    ensures n <= |t| && FourHex(t) == FourHex(t[..n]) && Hex4(t) == Hex4(t[..n])
  {
    if FourHex(t) {
      SkipHex(t);
    }
  }

  /** Whether and how a \u escape decodes does not depend on what follows the closing quote. */
  lemma UnitInside(t: string, n: nat)
    requires Skip(t) == Some(n + 1)
    ensures n <= |t| && Utf16(t) == Utf16(t[..n])
  {
    HexInside(t, n);
    if FourHex(t) {
      SkipHex(t);
      SurrogateInside(t, n);
    }
  }

  lemma SurrogateInside(t: string, n: nat)
    requires 4 <= n <= |t| && Skip(t[4..]) == Some(n - 4 + 1)
    ensures |t| >= 6 && t[4] == '\\' && t[5] == 'u' ==> n >= 6 && Hex4(t[6..]) == Hex4(t[..n][6..])
    ensures n >= 6 ==> t[..n][4] == t[4] && t[..n][5] == t[5]
  {
    if |t| >= 6 && t[4] == '\\' && t[5] == 'u' {
      assert t[4..][2..] == t[6..];
      assert Skip(t[6..]) == Some(n - 6 + 1);
      HexInside(t[6..], n - 6);
      assert t[..n][6..] == t[6..][..n-6];
    }
  }

  lemma EscapeSkipped(t: string, n: nat)
    requires Skip(t) == Some(n + 1) && n > 0
    ensures n <= |t| && (t[0] == '\\' ==> n >= 2 && Skip(t[2..]) == Some(n - 2 + 1))
  {
  }

  /** Texts that begin alike have the same first token. */
  lemma SameToken(t: string, u: string)
    requires t != "" && u != "" && t[0] == u[0]
    requires t[0] == '\\' ==> |t| > 1 && |u| > 1 && t[1] == u[1] && Utf16(t[2..]) == Utf16(u[2..])
    ensures NextToken(t) == NextToken(u)
  {
    hide Utf16, Enc, Simple;
  }

  lemma CutSame(t: string, n: nat)
    requires 2 <= n <= |t|
    ensures |t[..n]| == n && t[..n][0] == t[0] && t[..n][1] == t[1] && t[..n][2..] == t[2..][..n-2]
  {
  }

  lemma TokenInside(t: string, n: nat)
    requires Skip(t) == Some(n + 1) && n > 0
    ensures n <= |t| && NextToken(t) == NextToken(t[..n])
  {
    hide *;
    EscapeSkipped(t, n);
    if t[0] == '\\' {
      CutSame(t, n);
      UnitInside(t[2..], n - 2);
    }
    SameToken(t, t[..n]);
  }

  /** What stands between the quotes, with its escapes replaced. */
  function Content(c: string): Option<string> {
    Unescape(c, |c|)
  }

  /** As a C string, which a decoded NUL ends. */
  function Processed(c: string): Option<string> {
    match Content(c)
    case None => None
    case Some(b) => Some(UpToNul(b))
  }

  /** The literal at the start of t: the string it stands for, and its length with the quotes. */
  function Quoted(t: string): (r: Option<Token>)
    ensures r.Some? ==> 2 <= r.value.used <= |t|
  {
    match Literal(t)
    case None => None
    case Some(k) =>
      match Processed(t[1..k-1])
      case None => None
      case Some(v) => Some(Token(v, k))
  }

  /**
   When the closing quote has been found, replacing escapes takes the same tokens: it stops at
   that quote, and its outcome, good or bad, depends on nothing behind it.
   */
  lemma {:induction false} Aligned(t: string, n: nat)
    requires Skip(t) == Some(n + 1)
    ensures n <= |t| && Unescape(t, n) == Content(t[..n])
    decreases |t|
  {
    if n > 0 {
      TokenInside(t, n);
      if NextToken(t).Some? {
        SkipToken(t);
        var used := NextToken(t).value.used;
        Aligned(t[used..], n - used);
        assert t[..n][used..] == t[used..][..n - used];
      }
    }
  }

  /** The output with its terminator fits a buffer of one byte more than the content. */
  lemma {:induction false} ContentFits(c: string, n: int)
    requires n <= |c| && Unescape(c, n).Some?
    ensures |Unescape(c, n).value| <= |c|
    decreases |c|
  {
    if c != "" && n > 0 {
      var k := NextToken(c).value;
      ContentFits(c[k.used..], n - k.used);
    }
  }

  // ---------------------------------------------------------------- escape forms of section 7 of RFC 8259

  function HexDigit(x: int): char
    requires 0 <= x < 16
  {
    "0123456789abcdef"[x]
  }

  function U4(x: int): string
    requires 0 <= x <= 0xFFFF
  {
    [HexDigit(x / 4096), HexDigit(x / 256 % 16), HexDigit(x / 16 % 16), HexDigit(x % 16)]
  }

  /** c is the hexadecimal digit x, in either case. */
  predicate SpellsDigit(c: char, x: int)
    requires 0 <= x < 16
  {
    c == "0123456789abcdef"[x] || c == "0123456789ABCDEF"[x]
  }

  /** h is x in four hexadecimal digits, each in either case. */
  predicate Spells(h: string, x: int) {
    && |h| == 4 && 0 <= x <= 0xFFFF
    && SpellsDigit(h[0], x / 4096) && SpellsDigit(h[1], x / 256 % 16)
    && SpellsDigit(h[2], x / 16 % 16) && SpellsDigit(h[3], x % 16)
  }

  lemma DigitSpelled(c: char, x: int)
    requires 0 <= x < 16
    ensures HexVal(c) == x <==> SpellsDigit(c, x)
  {
  }

  lemma DigitRange(c: char)
    ensures IsHex(c) <==> 0 <= HexVal(c) < 16
  {
  }

  lemma Digits16(a: int, b: int, c: int, d: int, x: int)
    requires 0 <= a < 16 && 0 <= b < 16 && 0 <= c < 16 && 0 <= d < 16
    ensures ((a * 16 + b) * 16 + c) * 16 + d == x <==>
            0 <= x <= 0xFFFF && x / 4096 == a && x / 256 % 16 == b && x / 16 % 16 == c && x % 16 == d
  {
    assert x / 256 == x / 16 / 16 && x / 4096 == x / 256 / 16;
  }

  /** The four digits read are exactly those that spell the number. */
  lemma HexSpelled(t: string, x: int)
    ensures Hex4(t) == Some(x) <==> |t| >= 4 && Spells(t[..4], x)
  {
    if |t| >= 4 {
      DigitRange(t[0]);
      DigitRange(t[1]);
      DigitRange(t[2]);
      DigitRange(t[3]);
      hide HexVal, SpellsDigit;
      if FourHex(t) {
        Digits16(HexVal(t[0]), HexVal(t[1]), HexVal(t[2]), HexVal(t[3]), x);
      }
      if 0 <= x <= 0xFFFF {
        DigitSpelled(t[0], x / 4096);
        DigitSpelled(t[1], x / 256 % 16);
        DigitSpelled(t[2], x / 16 % 16);
        DigitSpelled(t[3], x % 16);
      }
    }
  }

  lemma U4Spells(x: int)
    requires 0 <= x <= 0xFFFF
    ensures Spells(U4(x), x)
  {
  }

  lemma U4Hex(x: int, rest: string)
    requires 0 <= x <= 0xFFFF
    ensures FourHex(U4(x) + rest) && Hex4(U4(x) + rest) == Some(x)
  {
    U4Spells(x);
    assert (U4(x) + rest)[..4] == U4(x);
    HexSpelled(U4(x) + rest, x);
  }

  function UEscape(x: int): string
    requires 0 <= x <= 0xFFFF
  {
    "\\u" + U4(x)
  }

  /** e is the \u escape of x. */
  predicate Escape(e: string, x: int) {
    |e| == 6 && e[0] == '\\' && e[1] == 'u' && Spells(e[2..], x)
  }

  /** e is a scalar value in escaped form: one escape, or a surrogate pair. */
  predicate EscapeForm(e: string, cp: int) {
    if cp < 0x10000 then Escape(e, cp)
    else
      && |e| == 12
      && Escape(e[..6], 0xD800 + (cp - 0x10000) / 1024) && Escape(e[6..], 0xDC00 + (cp - 0x10000) % 1024)
  }

  predicate StartsEscape(t: string) {
    |t| >= 2 && t[0] == '\\' && t[1] == 'u'
  }

  lemma EscapeHex(t: string, x: int)
    requires StartsEscape(t)
    ensures Hex4(t[2..]) == Some(x) <==> |t| >= 6 && Escape(t[..6], x)
    ensures Hex4(t[2..]) == Some(x) ==> 0 <= x <= 0xFFFF
  {
    if |t| >= 6 {
      assert t[..6][2..] == t[2..][..4];
    }
    HexSpelled(t[2..], x);
  }

  lemma PairBack(cp: int)
    requires 0x10000 <= cp <= 0x10FFFF
    ensures var x, y := 0xD800 + (cp - 0x10000) / 1024, 0xDC00 + (cp - 0x10000) % 1024;
            Lead(x) && Trail(y) && Pair(x, y) == cp
  {
  }

  lemma PairApart(x: int, y: int)
    requires Lead(x) && Trail(y)
    ensures var cp := Pair(x, y);
            0x10000 <= cp <= 0x10FFFF && x == 0xD800 + (cp - 0x10000) / 1024 && y == 0xDC00 + (cp - 0x10000) % 1024
  {
  }

  /** Every scalar value's escaped form, with each digit in either case, decodes to its UTF-8 bytes. */
  lemma EscapeDecodes(cp: int, e: string, rest: string)
    requires Scalar(cp) && EscapeForm(e, cp)
    ensures NextToken(e + rest) == Some(Token(Enc(cp), |e|))
  {
    var t := e + rest;
    assert t[..6] == e[..6];
    if cp < 0x10000 {
      assert e[..6] == e;
      EscapeHex(t, cp);
    } else {
      var x, y := 0xD800 + (cp - 0x10000) / 1024, 0xDC00 + (cp - 0x10000) % 1024;
      PairBack(cp);
      EscapeHex(t, x);
      assert t[6..][..6] == e[6..] && t[2..][6..] == t[6..][2..];
      assert t[6] == e[6..][0] && t[7] == e[6..][1];
      EscapeHex(t[6..], y);
    }
  }

  /** And nothing else that starts with a \u is accepted. */
  lemma EscapeAccepted(t: string) returns (cp: int)
    requires StartsEscape(t) && NextToken(t).Some?
    ensures var k := NextToken(t).value;
            Scalar(cp) && k.bytes == Enc(cp) && k.used <= |t| && EscapeForm(t[..k.used], cp)
  {
    hide Hex4, Enc, Spells;
    var x := Hex4(t[2..]).value;
    EscapeHex(t, x);
    cp := Utf16(t[2..]).value.cp;
    if Lead(x) {
      PairAccepted(t, x);
    }
  }

  lemma PairAccepted(t: string, x: int)
    requires |t| >= 6 && Escape(t[..6], x) && Hex4(t[2..]) == Some(x) && Lead(x) && Utf16(t[2..]).Some?
    ensures |t| >= 12 && EscapeForm(t[..12], Utf16(t[2..]).value.cp) && Utf16(t[2..]).value.used == 10
  {
    hide Hex4, Spells;
    var u := t[6..];
    assert t[2..][6..] == u[2..] && t[2..][4] == u[0] && t[2..][5] == u[1];
    var y := Hex4(u[2..]).value;
    EscapeHex(u, y);
    PairApart(x, y);
    assert t[..12][..6] == t[..6] && t[..12][6..] == u[..6];
  }

  /** t begins with the escape of a trail surrogate. */
  ghost predicate TrailEscape(t: string) {
    |t| >= 6 && exists y :: 0xDC00 <= y <= 0xDFFF && Escape(t[..6], y)
  }

  /** Lone and swapped surrogates are rejected, and nothing else. */
  lemma SurrogatesPaired(x: int, e: string, rest: string)
    requires Escape(e, x)
    ensures NextToken(e + rest).Some? <==>
              !(0xDC00 <= x <= 0xDFFF) && (0xD800 <= x <= 0xDBFF ==> TrailEscape(rest))
  {
    var t := e + rest;
    assert t[..6] == e && t[6..] == rest && t[2..][4..] == rest;
    EscapeHex(t, x);
    if StartsEscape(rest) {
      assert t[2..][6..] == rest[2..];
      if Hex4(rest[2..]).Some? {
        EscapeHex(rest, Hex4(rest[2..]).value);
      }
      if TrailEscape(rest) {
        var y :| 0xDC00 <= y <= 0xDFFF && Escape(rest[..6], y);
        EscapeHex(rest, y);
      }
    }
  }

  // ---------------------------------------------------------------- the printer's escapes

  function EscChar(c: char): string {
    match c
    case '\"' => "\\\""
    case '\\' => "\\\\"
    case '/' => "\\/"
    case '\n' => "\\n"
    case '\r' => "\\r"
    case '\t' => "\\t"
    case _ =>
      if c as int == 8 then "\\b"
      else if c as int == 12 then "\\f"
      else if c as int < 0x20 then UEscape(c as int)
      else [c]
  }

  function EscString(s: string): string {
    if s == "" then "" else EscChar(s[0]) + EscString(s[1..])
  }

  function Quote(s: string): string {
    "\"" + EscString(s) + "\""
  }

  lemma EscCharToken(c: char, rest: string)
    ensures NextToken(EscChar(c) + rest) == Some(Token([c], |EscChar(c)|))
  {
    if c as int < 0x20 && EscChar(c) == UEscape(c as int) {
      U4Spells(c as int);
      EscapeDecodes(c as int, UEscape(c as int), rest);
      assert Enc(c as int) == [c];
    }
  }

  lemma PlainSkips(c: char, rest: string)
    requires c != '\"' && c != '\\'
    ensures Skip([c] + rest) == More(1, Skip(rest))
  {
    assert ([c] + rest)[1..] == rest;
  }

  lemma SlashSkips(c: char, rest: string)
    ensures Skip(['\\', c] + rest) == More(2, Skip(rest))
  {
    assert (['\\', c] + rest)[2..] == rest;
  }

  lemma FourApart(h: string, rest: string)
    requires |h| == 4
    ensures h + rest == [h[0]] + ([h[1]] + ([h[2]] + ([h[3]] + rest)))
  {
  }

  lemma HexSkips(h: string, rest: string)
    requires |h| == 4 && FourHex(h)
    ensures Skip(h + rest) == More(4, Skip(rest))
  {
    FourApart(h, rest);
    var r3 := [h[3]] + rest;
    var r2 := [h[2]] + r3;
    var r1 := [h[1]] + r2;
    PlainSkips(h[3], rest);
    PlainSkips(h[2], r3);
    PlainSkips(h[1], r2);
    PlainSkips(h[0], r1);
  }

  lemma UEscapeSkips(x: int, rest: string)
    requires 0 <= x <= 0xFFFF
    ensures Skip(UEscape(x) + rest) == More(6, Skip(rest))
  {
    var tail := U4(x) + rest;
    U4Hex(x, "");
    assert U4(x) + "" == U4(x);
    HexSkips(U4(x), rest);
    SlashSkips('u', tail);
    assert UEscape(x) + rest == ['\\', 'u'] + tail;
  }

  lemma EscCharShape(c: char)
    ensures var e := EscChar(c);
            || (e == [c] && c != '\"' && c != '\\')
            || (|e| == 2 && e == ['\\', e[1]])
            || (c as int < 0x20 && |e| == 6 && e == UEscape(c as int))
  {
  }

  lemma EscCharSkips(c: char, rest: string)
    ensures Skip(EscChar(c) + rest) == More(|EscChar(c)|, Skip(rest))
  {
    EscCharShape(c);
    var e := EscChar(c);
    if e == [c] {
      PlainSkips(c, rest);
    } else if |e| == 2 {
      SlashSkips(e[1], rest);
    } else {
      UEscapeSkips(c as int, rest);
    }
  }

  /** A quoted string is one literal, whatever follows it. */
  lemma {:induction false} EscStringSkips(s: string, rest: string)
    ensures Skip(EscString(s) + "\"" + rest) == Some(|EscString(s)| + 1)
  {
    if s == "" {
      assert EscString(s) + "\"" + rest == "\"" + rest;
    } else {
      hide *;
      var tail := EscString(s[1..]) + "\"" + rest;
      EscStringSplit(s, rest);
      EscCharSkips(s[0], tail);
      EscStringSkips(s[1..], rest);
      MoreSome(|EscChar(s[0])|, |EscString(s[1..])| + 1);
    }
  }

  lemma EscStringSplit(s: string, rest: string)
    requires s != ""
    ensures EscString(s) + "\"" + rest == EscChar(s[0]) + (EscString(s[1..]) + "\"" + rest)
    ensures |EscString(s)| == |EscChar(s[0])| + |EscString(s[1..])|
  {
    hide EscChar;
  }

  lemma MoreSome(n: nat, k: nat)
    ensures More(n, Some(k)) == Some(n + k)
  {
  }

  /** Its content is the string. */
  lemma {:induction false} EscStringContent(s: string)
    ensures Content(EscString(s)) == Some(s)
  {
    if s != "" {
      var e, tail := EscChar(s[0]), EscString(s[1..]);
      EscCharToken(s[0], tail);
      EscStringContent(s[1..]);
      assert (e + tail)[|e|..] == tail;
      assert s == [s[0]] + s[1..];
    }
  }

  lemma QuoteIsLiteral(s: string, rest: string)
    ensures var t := Quote(s) + rest;
            Literal(t) == Some(|Quote(s)|) && t[1..|Quote(s)|-1] == EscString(s)
  {
    hide EscString, Skip;
    var e := EscString(s);
    var t := Quote(s) + rest;
    assert t[1..] == e + "\"" + rest;
    EscStringSkips(s, rest);
  }

  /** Reading back a printed string gives the string, whatever follows it. */
  lemma QuoteReadsBack(s: string, rest: string)
    requires IsText(s)
    ensures Quoted(Quote(s) + rest) == Some(Token(s, |Quote(s)|))
  {
    hide Literal, Quote, EscString, Content, UpToNul, IsText;
    QuoteIsLiteral(s, rest);
    EscStringContent(s);
    NoNulWhole(s);
  }

  // ---------------------------------------------------------------- which escapes are printed

  /** Nothing to escape: no control character, quote, backslash or slash. */
  predicate PlainText(s: string) {
    forall i :: 0 <= i < |s| ==> 0x20 <= s[i] as int && s[i] !in "\"\\/"
  }

  lemma {:induction false} PlainEsc(s: string)
    requires PlainText(s)
    ensures EscString(s) == s
  {
    if s != "" {
      PlainEsc(s[1..]);
      assert s == [s[0]] + s[1..];
    }
  }

  lemma PlainQuote(s: string)
    requires PlainText(s)
    ensures Quote(s) == "\"" + s + "\""
  {
    PlainEsc(s);
  }

  /** No character has a shorter way of being written, but that slashes and quotes are always escaped. */
  lemma EscCharShortest(c: char, e: string)
    requires e != "" && NextToken(e) == Some(Token([c], |e|))
    ensures |EscChar(c)| <= |e| || (e == [c] && (c == '/' || c == '\"'))
  {
    if |e| > 1 && e[0] == '\\' && e[1] != 'u' {
      assert Simple(e[1]) == Some(c);
    }
  }

  // ---------------------------------------------------------------- which escapes are read

  const SHORT := "\"\\/bfnrt"
  const SHORT_CODES := [0x22, 0x5C, 0x2F, 0x08, 0x0C, 0x0A, 0x0D, 0x09]

  /** Besides \u, exactly the two-character escapes of section 7 of RFC 8259. */
  lemma ShortEscapes(x: char, rest: string)
    requires x != 'u'
    ensures NextToken(['\\', x] + rest).Some? <==> x in SHORT
    ensures forall i :: 0 <= i < |SHORT| && x == SHORT[i] ==>
              NextToken(['\\', x] + rest) == Some(Token([SHORT_CODES[i] as char], 2))
  {
  }

  lemma HexPrintable(t: string)
    requires FourHex(t)
    ensures t[0] as int >= 0x20 && t[1] as int >= 0x20 && t[2] as int >= 0x20 && t[3] as int >= 0x20
  {
  }

  lemma TokenPrintable(t: string, i: nat)
    requires t != "" && NextToken(t).Some? && i < NextToken(t).value.used
    ensures t[i] as int >= 0x20
  {
    if StartsEscape(t) {
      hide FourHex, HexValue;
      HexPrintable(t[2..]);
      if NextToken(t).value.used == 12 {
        HexPrintable(t[2..][6..]);
        assert i >= 8 ==> t[i] == t[2..][6..][i - 8];
      }
      assert 2 <= i ==> t[i] == t[2..][i - 2];
    }
  }

  /** A control character may stand nowhere in a literal but as an escape. */
  lemma {:induction false} ControlRejected(c: string, i: nat)
    requires i < |c| && (c[i] as int) < 0x20
    ensures Content(c) == None
    decreases |c|
  {
    var k := NextToken(c);
    if k.Some? {
      if i < k.value.used {
        TokenPrintable(c, i);
        assert false;
      }
      ControlRejected(c[k.value.used..], i - k.value.used);
    }
  }
}
