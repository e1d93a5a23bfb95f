/**
 What the parser guarantees of every text it accepts: distinct names, bounded depth, a rest
 that is a suffix of the text, and a normal form under printing and parsing again.
 */
module ParseFacts {
  import opened Wrappers
  import opened CStrings
  import opened Numbers
  import opened Utf8
  import opened Escapes
  import opened JsonValue
  import opened JsonPrint
  import opened JsonParse
  import opened Grammar
  import opened RoundTrip
  import opened AsciiTexts

  /** r is what is left of t: the parser stays within the text. */
  ghost predicate Suffix(r: string, t: string) {
    |r| <= |t| && r == t[|t| - |r|..]
  }

  lemma SuffixOf(a: string, b: string, c: string)
    requires Suffix(a, b) && Suffix(b, c)
    ensures Suffix(a, c)
  {
    assert b[|b| - |a|..] == c[|c| - |a|..];
  }

  lemma DropIsSuffix(t: string, n: nat)
    requires n <= |t|
    ensures Suffix(t[n..], t)
  {
  }

  lemma SuffixText(r: string, t: string)
    requires Suffix(r, t) && IsText(t)
    ensures IsText(r)
  {
    forall i | 0 <= i < |r| ensures 0 < r[i] as int < 256 {
      assert r[i] == t[|t| - |r| + i];
    }
  }

  // ---------------------------------------------------------------- decoded strings are C strings

  lemma EncBytes(cp: int)
    requires Scalar(cp)
    ensures forall i :: 0 <= i < |Enc(cp)| ==> IsByte(Enc(cp)[i])
  {
    assert cp / 262144 <= 4;
  }

  predicate Bytes(s: string) {
    forall i :: 0 <= i < |s| ==> IsByte(s[i])
  }

  lemma TokenBytes(t: string)
    requires t != "" && NextToken(t).Some? && IsText(t)
    ensures Bytes(NextToken(t).value.bytes)
  {
    if t[0] == '\\' && t[1] == 'u' {
      EncBytes(Utf16(t[2..]).value.cp);
    }
  }

  lemma {:induction false} UnescapeBytes(t: string, n: int)
    requires Unescape(t, n).Some? && IsText(t)
    ensures Bytes(Unescape(t, n).value)
    decreases |t|
  {
    if t != "" && n > 0 {
      TokenBytes(t);
      var k := NextToken(t).value;
      UnescapeBytes(t[k.used..], n - k.used);
    }
  }

  lemma QuotedText(t: string)
    requires Quoted(t).Some? && IsText(t)
    ensures IsText(Quoted(t).value.bytes)
  {
    var c := t[1..Literal(t).value-1];
    UnescapeBytes(c, |c|);
    var b := Content(c).value;
    var s := UpToNul(b);
    forall i | 0 <= i < |s| ensures 0 < s[i] as int < 256 {
      assert s[i] == b[i];
    }
  }

  // ---------------------------------------------------------------- what is read

  ghost predicate ValueOk(r: Outcome<Parsed<JSON>>, t: string, nesting: nat) {
    r.Read? ==> Good(r.value.value) && FitsAt(r.value.value, nesting) && Suffix(r.value.rest, t)
  }

  lemma NumberOk(t: string, nesting: nat)
    requires nesting <= MAX_NESTING
    ensures ValueOk(ParseNumber(t), t, nesting)
  {
    DropIsSuffix(t, Strtod(t).0);
  }

  lemma WordOk(t: string, word: string, v: JSON, nesting: nat)
    requires nesting <= MAX_NESTING && (v.JNull? || v.JBool?)
    ensures ValueOk(ParseWord(t, word, v), t, nesting)
  {
  }

  lemma StringOk(t: string, nesting: nat)
    requires nesting <= MAX_NESTING && IsText(t)
    ensures ValueOk(ParseString(t), t, nesting)
  {
    if Quoted(t).Some? {
      QuotedText(t);
      DropIsSuffix(t, Quoted(t).value.used);
    }
  }

  lemma RejectedOk(t: string, nesting: nat)
    ensures ValueOk(Rejected, t, nesting)
  {
  }

  lemma ScalarOk(t: string, nesting: nat)
    requires t != "" && nesting <= MAX_NESTING && IsText(t)
    ensures ValueOk(ParseScalar(t), t, nesting)
  {
    hide ParseNumber, ParseWord, ParseString, ValueOk;
    NumberOk(t, nesting);
    StringOk(t, nesting);
    WordOk(t, "null", JNull, nesting);
    WordOk(t, "true", JBool(true), nesting);
    WordOk(t, "false", JBool(false), nesting);
    RejectedOk(t, nesting);
  }

  ghost predicate AllFit(items: seq<JSON>, nesting: nat) {
    forall i :: 0 <= i < |items| ==> Good(items[i]) && FitsAt(items[i], nesting)
  }

  ghost predicate MembersFit(ms: seq<Member>, nesting: nat) {
    DistinctNames(ms) && forall i :: 0 <= i < |ms| ==> GoodMember(ms[i]) && FitsAt(ms[i].value, nesting)
  }

  lemma {:induction false} SpacesSuffix(t: string)
    ensures Suffix(SkipSpaces(t), t)
  {
    if t != "" && IsSpace(t[0]) {
      SpacesSuffix(t[1..]);
      DropIsSuffix(t, 1);
      SuffixOf(SkipSpaces(t), t[1..], t);
    }
  }

  /** The text behind a value, its spaces and one more character. */
  lemma Onward(rest: string, t: string)
    requires Suffix(rest, t)
    ensures Suffix(SkipSpaces(rest), t)
    ensures SkipSpaces(rest) != "" ==>
      Suffix(SkipSpaces(rest)[1..], t) && Suffix(SkipSpaces(SkipSpaces(rest)[1..]), t)
  {
    var u := SkipSpaces(rest);
    SpacesSuffix(rest);
    SuffixOf(u, rest, t);
    if u != "" {
      DropIsSuffix(u, 1);
      SuffixOf(u[1..], u, t);
      SpacesSuffix(u[1..]);
      SuffixOf(SkipSpaces(u[1..]), u[1..], t);
    }
  }

  lemma {:induction false} ParseValueOk(text: string, nesting: nat)
    requires IsText(text)
    ensures ValueOk(ParseValue(text, nesting), text, nesting)
    decreases |text|, 2
  {
    var t := SkipSpaces(text);
    if nesting <= MAX_NESTING && t != "" {
      SpacesSuffix(text);
      SuffixText(t, text);
      if t[0] == '{' {
        ParseObjectOk(t, nesting);
      } else if t[0] == '[' {
        ParseArrayOk(t, nesting);
      } else {
        ScalarOk(t, nesting);
      }
      ValueOnward(ParseValue(text, nesting), t, text, nesting);
    }
  }

  lemma ValueOnward(r: Outcome<Parsed<JSON>>, t: string, text: string, nesting: nat)
    requires ValueOk(r, t, nesting) && Suffix(t, text)
    ensures ValueOk(r, text, nesting)
  {
    if r.Read? {
      SuffixOf(r.value.rest, t, text);
    }
  }

  lemma {:induction false} ParseArrayOk(t: string, nesting: nat)
    requires First(t, '[') && IsText(t) && nesting <= MAX_NESTING
    ensures ValueOk(ParseArray(t, nesting + 1), t, nesting)
    decreases |t|, 1
  {
    hide ParseItems, SkipSpaces, IsText, Suffix;
    var u := SkipSpaces(t[1..]);
    DropIsSuffix(t, 1);
    Onward(t[1..], t);
    if !First(u, ']') {
      SuffixText(u, t);
      ParseItemsOk(u, nesting + 1, []);
      ItemsOnward(ParseItems(u, nesting + 1, []), u, t, nesting + 1);
    }
  }

  ghost predicate ItemsOk(r: Outcome<Parsed<seq<JSON>>>, t: string, nesting: nat) {
    r.Read? ==> AllFit(r.value.value, nesting) && Suffix(r.value.rest, t)
  }

  lemma ItemsOnward(r: Outcome<Parsed<seq<JSON>>>, w: string, t: string, nesting: nat)
    requires ItemsOk(r, w, nesting) && Suffix(w, t)
    ensures ItemsOk(r, t, nesting)
  {
    if r.Read? {
      SuffixOf(r.value.rest, w, t);
    }
  }

  lemma NewItemFits(before: seq<JSON>, v: JSON, nesting: nat)
    requires AllFit(before, nesting) && Good(v) && FitsAt(v, nesting)
    ensures AllFit(before + [v], nesting)
  {
  }

  lemma {:induction false} ParseItemsOk(t: string, nesting: nat, before: seq<JSON>)
    requires IsText(t) && AllFit(before, nesting)
    ensures ItemsOk(ParseItems(t, nesting, before), t, nesting)
    decreases |t|, 3
  {
    hide ParseItems, ParseValue, SkipSpaces, IsText, Suffix, Good, FitsAt, AllFit;
    UnfoldItems(t, nesting, before);
    ParseValueOk(t, nesting);
    var v := ParseValue(t, nesting);
    if t != "" && v.Read? {
      var u := SkipSpaces(v.value.rest);
      Onward(v.value.rest, t);
      NewItemFits(before, v.value.value, nesting);
      if First(u, ',') {
        var w := SkipSpaces(u[1..]);
        SuffixText(w, t);
        ParseItemsOk(w, nesting, before + [v.value.value]);
        ItemsOnward(ParseItems(w, nesting, before + [v.value.value]), w, t, nesting);
      }
    }
  }

  lemma {:induction false} ParseObjectOk(t: string, nesting: nat)
    requires First(t, '{') && IsText(t) && nesting <= MAX_NESTING
    ensures ValueOk(ParseObject(t, nesting + 1), t, nesting)
    decreases |t|, 1
  {
    hide ParseMembers, SkipSpaces, IsText, Suffix, Good, FitsAt, DistinctNames;
    var u := SkipSpaces(t[1..]);
    DropIsSuffix(t, 1);
    Onward(t[1..], t);
    EmptyFits(nesting);
    if !First(u, '}') {
      SuffixText(u, t);
      ParseMembersOk(u, nesting + 1, []);
      MembersOnward(ParseMembers(u, nesting + 1, []), u, t, nesting + 1);
      ObjectFits(ParseMembers(u, nesting + 1, []), t, nesting);
    }
  }

  lemma EmptyFits(nesting: nat)
    requires nesting <= MAX_NESTING
    ensures Good(JObj([])) && FitsAt(JObj([]), nesting) && MembersFit([], nesting + 1)
  {
  }

  ghost predicate MembersOk(r: Outcome<Parsed<seq<Member>>>, t: string, nesting: nat) {
    r.Read? ==> MembersFit(r.value.value, nesting) && Suffix(r.value.rest, t)
  }

  lemma MembersOnward(r: Outcome<Parsed<seq<Member>>>, w: string, t: string, nesting: nat)
    requires MembersOk(r, w, nesting) && Suffix(w, t)
    ensures MembersOk(r, t, nesting)
  {
    if r.Read? {
      SuffixOf(r.value.rest, w, t);
    }
  }

  lemma ObjectFits(r: Outcome<Parsed<seq<Member>>>, t: string, nesting: nat)
    requires MembersOk(r, t, nesting + 1) && nesting <= MAX_NESTING
    ensures r.Read? ==> ValueOk(Read(Parsed(JObj(r.value.value), r.value.rest)), t, nesting)
  {
  }

  ghost predicate MemberOk(r: Outcome<Parsed<Member>>, t: string, nesting: nat, before: seq<Member>) {
    r.Read? ==> MembersFit(before + [r.value.value], nesting) && Suffix(r.value.rest, t)
  }

  lemma NewMemberFits(before: seq<Member>, m: Member, nesting: nat)
    requires MembersFit(before, nesting) && !Has(before, m.name) && GoodMember(m) && FitsAt(m.value, nesting)
    ensures MembersFit(before + [m], nesting)
  {
    SnocDistinct(before, m);
  }

  lemma ParseKeyOk(t: string)
    requires IsText(t) && ParseKey(t).Some?
    ensures IsText(ParseKey(t).value.value) && Suffix(ParseKey(t).value.rest, t) && IsText(ParseKey(t).value.rest)
  {
    hide Quoted, SkipSpaces, IsText, Suffix;
    QuotedText(t);
    DropIsSuffix(t, Quoted(t).value.used);
    Onward(t[Quoted(t).value.used..], t);
    SuffixText(ParseKey(t).value.rest, t);
  }

  lemma {:induction false} ParseMemberOk(t: string, nesting: nat, before: seq<Member>)
    requires IsText(t) && MembersFit(before, nesting)
    ensures MemberOk(ParseMember(t, nesting, before), t, nesting, before)
    decreases |t|, 3
  {
    hide ParseMember, ParseValue, ParseKey, IsText, Suffix, Good, FitsAt, MembersFit, Has;
    UnfoldMember(t, nesting, before);
    if ParseKey(t).Some? {
      var k := ParseKey(t).value;
      ParseKeyOk(t);
      ParseValueOk(k.rest, nesting);
      ValueOnward(ParseValue(k.rest, nesting), k.rest, t, nesting);
      var v := ParseValue(k.rest, nesting);
      if v.Read? && !Has(before, k.value) {
        NewMemberFits(before, Member(k.value, v.value.value), nesting);
      }
    }
  }

  lemma {:induction false} ParseMembersOk(t: string, nesting: nat, before: seq<Member>)
    requires IsText(t) && MembersFit(before, nesting)
    ensures MembersOk(ParseMembers(t, nesting, before), t, nesting)
    decreases |t|, 4
  {
    hide ParseMembers, ParseMember, SkipSpaces, IsText, Suffix, MembersFit;
    UnfoldMembers(t, nesting, before);
    ParseMemberOk(t, nesting, before);
    var m := ParseMember(t, nesting, before);
    if t != "" && m.Read? {
      var u := SkipSpaces(m.value.rest);
      Onward(m.value.rest, t);
      if First(u, ',') {
        var w := SkipSpaces(u[1..]);
        SuffixText(w, t);
        ParseMembersOk(w, nesting, before + [m.value.value]);
        MembersOnward(ParseMembers(w, nesting, before + [m.value.value]), w, t, nesting);
      }
    }
  }

  // ---------------------------------------------------------------- what is accepted

  /** text begins, behind a gap, with a form that means v, and rest follows it. */
  ghost predicate Spelled(text: string, v: JSON, rest: string) {
    exists gap: string, f: Form :: Gap(gap) && Proper(f) && Meaning(f) == v && text == gap + (Written(f) + rest)
  }

  /** The parser reads exactly the texts of forms that are not too deep. */
  lemma ReadsForms(text: string, nesting: nat, v: JSON, rest: string)
    requires IsText(text) && Ended(v, rest)
    ensures ParseValue(text, nesting) == Read(Parsed(v, rest)) <==> FitsAt(v, nesting) && Spelled(text, v, rest)
  {
    ParseValueOk(text, nesting);
    hide ParseValue, Written, Meaning, Proper, Gap, Ended;
    if ParseValue(text, nesting) == Read(Parsed(v, rest)) {
      var gap, f := ValueForm(text, nesting);
    }
    if FitsAt(v, nesting) && Spelled(text, v, rest) {
      var gap, f :| Gap(gap) && Proper(f) && Meaning(f) == v && text == gap + (Written(f) + rest);
      GapBeforeValue(gap, Written(f) + rest, nesting);
      FormBack(f, nesting, rest);
    }
  }

  // ---------------------------------------------------------------- numbers that are refused

  predicate DigitAt(u: string, i: nat) {
    i < |u| && '0' <= u[i] <= '9'
  }

  predicate HexAt(u: string, i: nat) {
    i < |u| && u[i] in "0123456789abcdefABCDEF"
  }

  predicate ExponentAt(u: string, i: nat) {
    i < |u| && u[i] in "eE" && (DigitAt(u, i + 1) || (i + 1 < |u| && u[i + 1] in "+-" && DigitAt(u, i + 2)))
  }

  /** A zero and more: a digit, a hexadecimal digit behind an x, or an exponent. */
  predicate ZeroAndMore(u: string) {
    && DigitAt(u, 0) && u[0] == '0' && |u| >= 2
    && (DigitAt(u, 1) || ExponentAt(u, 1) || (u[1] in "xX" && (HexAt(u, 2) || (|u| >= 3 && u[2] == '.' && HexAt(u, 3)))))
  }

  /** An infinity or NaN, in any case of letters. */
  predicate NotFiniteWord(u: string) {
    |u| >= 3 && ((u[0] in "iI" && u[1] in "nN" && u[2] in "fF") || (u[0] in "nN" && u[1] in "aA" && u[2] in "nN"))
  }

  lemma LowerIs(c: char)
    ensures Lower(c) == 'i' <==> c in "iI"
    ensures Lower(c) == 'n' <==> c in "nN"
    ensures Lower(c) == 'f' <==> c in "fF"
    ensures Lower(c) == 'a' <==> c in "aA"
    ensures Lower(c) == 'x' <==> c in "xX"
    ensures Lower(c) == 'e' <==> c in "eE"
  {
  }

  lemma HexIs(c: char)
    ensures IsHex(c) <==> c in "0123456789abcdefABCDEF"
  {
  }

  lemma WordIs(u: string)
    ensures WordAhead(u) <==> NotFiniteWord(u)
  {
    if |u| >= 3 {
      LowerIs(u[0]);
      LowerIs(u[1]);
      LowerIs(u[2]);
      hide Lower;
      var w := [Lower(u[0]), Lower(u[1]), Lower(u[2])];
      assert w == "inf" <==> w[0] == 'i' && w[1] == 'n' && w[2] == 'f';
      assert w == "nan" <==> w[0] == 'n' && w[1] == 'a' && w[2] == 'n';
    }
  }

  lemma DigitsAt(u: string, i: nat)
    requires i <= |u|
    ensures Digits(u[i..]) > 0 <==> DigitAt(u, i)
  {
  }

  /** Behind a digit only a point or an exponent goes on. */
  lemma TailIs(u: string)
    ensures Tail(u) > 0 <==> First(u, '.') || ExponentAt(u, 0)
  {
    if u != "" {
      LowerIs(u[0]);
      DigitsAt(u, 1);
      if |u| >= 2 {
        DigitsAt(u, 2);
      }
      assert u[0..] == u;
      hide Lower, Digits;
    }
  }

  lemma HexFollowsIs(u: string)
    ensures HexFollows(u) <==>
            |u| >= 2 && u[0] in "xX" && (HexAt(u, 1) || (u[1] == '.' && HexAt(u, 2)))
  {
    if |u| >= 2 {
      LowerIs(u[0]);
      HexIs(u[1]);
      if |u| >= 3 {
        HexIs(u[2]);
      }
      hide Lower, IsHex;
    }
  }

  lemma {:induction false} DigitsNoX(t: string)
    ensures forall i :: 0 <= i < Digits(t) ==> Lower(t[i]) != 'x'
  {
    assert forall i :: 0 <= i < Digits(t) ==> IsDigit(t[..Digits(t)][i]);
  }

  lemma ExponentNoX(u: string)
    ensures Exponent(u) <= |u| && forall i :: 0 <= i < Exponent(u) ==> Lower(u[i]) != 'x'
  {
    if |u| >= 2 {
      DigitsNoX(u[1..]);
      DigitsNoX(u[2..]);
      hide Digits;
      assert forall i :: 2 <= i < |u| ==> u[i] == u[2..][i-2];
      assert forall i :: 1 <= i < |u| ==> u[i] == u[1..][i-1];
    }
  }

  lemma TailNoX(u: string)
    ensures forall i :: 0 <= i < Tail(u) ==> Lower(u[i]) != 'x'
  {
    var f := if First(u, '.') then 1 + Digits(u[1..]) else 0;
    ExponentNoX(u[f..]);
    if f > 0 {
      DigitsNoX(u[1..]);
    }
    hide Digits, Exponent, Lower;
    assert forall i :: f <= i < |u| ==> u[i] == u[f..][i-f];
    assert f > 0 ==> forall i :: 1 <= i < f ==> u[i] == u[1..][i-1];
    assert Lower('.') != 'x' by { LowerIs('.'); }
  }

  /** The number without its sign. */
  function Unsigned(t: string): string {
    if First(t, '-') then t[1..] else t
  }

  lemma TokenNoX(t: string, s: nat, v: string, d: nat, u: string, len: nat)
    requires s == Sign(t) && s <= |t| && v == t[s..] && d == Digits(v) && u == v[d..] && len == s + d + Tail(u)
    ensures len <= |t| && forall i :: 0 <= i < len ==> Lower(t[i]) != 'x'
  {
    DigitsNoX(v);
    TailNoX(u);
    LowerIs('-');
    hide Digits, Tail, Lower;
    forall i | 0 <= i < len ensures Lower(t[i]) != 'x' {
      assert i >= s ==> t[i] == v[i-s];
      assert i >= s + d ==> v[i-s] == u[i-s-d];
    }
  }

  /** Without an x in it a token is decimal unless it is a zero and something other than a point. */
  lemma LeadingZero(t: string, s: nat, v: string, len: nat)
    requires s == Sign(t) && s < |t| && v == t[s..] && DigitAt(v, 0) && s < len <= |t|
    requires forall i :: 0 <= i < len ==> Lower(t[i]) != 'x'
    ensures IsDecimal(t, len) <==> !(len - s > 1 && v[0] == '0' && v[1] != '.')
  {
    hide Lower;
    assert v[0] == t[s];
    if len - s > 1 {
      assert v[1] == t[s+1];
    }
    assert |t| >= 2 ==> t[..2] == [t[0], t[1]];
  }

  lemma ZeroIs(v: string, d: nat, u: string)
    requires d == Digits(v) > 0 && u == v[d..] && !(d == 1 && v[0] == '0' && HexFollows(u))
    ensures ZeroAndMore(v) <==> d + Tail(u) > 1 && v[0] == '0' && v[1] != '.'
  {
    TailIs(u);
    HexFollowsIs(u);
    DigitsAt(v, 0);
    assert v[0..] == v;
    if |v| >= 2 {
      DigitsAt(v, 1);
      assert d == 1 + Digits(v[1..]);
      assert d == 1 ==> u == v[1..];
    }
    hide Digits, Tail, HexFollows;
    if d == 1 && |v| >= 2 {
      assert u[0] == v[1] && (|v| >= 3 ==> u[1] == v[2]) && (|v| >= 4 ==> u[2] == v[3]);
    }
  }

  lemma StrtodNone(t: string, v: string)
    requires First(t, '-') && v == t[1..] && Digits(v) == 0
    ensures Strtod(t) ==
            if PointAhead(v) then (1 + Tail(v), OtherNumber) else if WordAhead(v) then (4, NotFinite) else (0, Int(0))
  {
    hide Digits, Tail, HexFollows, WordAhead, PointAhead, Val;
    assert t[1+0..] == v;
  }

  lemma StrtodSome(t: string, s: nat, v: string, d: nat, u: string)
    requires s == Sign(t) && s <= |t| && v == t[s..] && d == Digits(v) > 0 && u == t[s+d..]
    ensures d == 1 && v[0] == '0' && HexFollows(u) ==> Strtod(t) == (s + 2, OtherNumber)
    ensures !(d == 1 && v[0] == '0' && HexFollows(u)) ==> Strtod(t).0 == s + d + Tail(u) && !Strtod(t).1.NotFinite?
  {
    hide Digits, Tail, HexFollows, WordAhead, PointAhead, Val, Sign;
    assert v[0] == t[s];
  }

  lemma NoDigitsRefused(t: string, v: string)
    requires First(t, '-') && v == t[1..] && Digits(v) == 0
    ensures ParseNumber(t) == Rejected <==> NotFiniteWord(v)
  {
    DigitsAt(v, 0);
    assert v[0..] == v;
    StrtodNone(t, v);
    TokenNoX(t, 1, v, 0, v, 1 + Tail(v));
    WordIs(v);
    WordNoX(t, v);
    hide Digits, Tail, Strtod, WordAhead, NotFiniteWord, Lower;
    assert |t| >= 2 ==> t[..2] == ['-', v[0]];
  }

  lemma WordNoX(t: string, v: string)
    requires First(t, '-') && v == t[1..]
    ensures NotFiniteWord(v) ==> forall i :: 0 <= i < 4 ==> Lower(t[i]) != 'x'
  {
    if NotFiniteWord(v) {
      LowerIs(t[0]);
      LowerIs(t[1]);
      LowerIs(t[2]);
      LowerIs(t[3]);
      hide Lower;
      assert t[1] == v[0] && t[2] == v[1] && t[3] == v[2];
    }
  }

  lemma HexRefused(t: string, s: nat, v: string, u: string)
    requires s == Sign(t) && s <= |t| && v == t[s..] && 1 == Digits(v) && u == t[s+1..]
    requires v[0] == '0' && HexFollows(u)
    ensures ParseNumber(t) == Rejected && ZeroAndMore(v)
  {
    StrtodSome(t, s, v, 1, u);
    HexFollowsIs(u);
    DigitsAt(v, 0);
    LowerIs(u[0]);
    hide Digits, Strtod, HexFollows, Lower;
    assert v[0..] == v && u[0] == t[s+1] && u[0] == v[1] && u[1] == v[2] && (|u| >= 3 ==> u[2] == v[3]);
    assert !IsDecimal(t, s + 2);
  }

  lemma DigitsRefused(t: string, s: nat, v: string, d: nat, u: string)
    requires s == Sign(t) && s <= |t| && v == t[s..] && d == Digits(v) > 0 && u == t[s+d..]
    requires !(d == 1 && v[0] == '0' && HexFollows(u))
    ensures ParseNumber(t) == Rejected <==> ZeroAndMore(v)
  {
    hide Digits, Tail, Strtod, HexFollows, ZeroAndMore, IsDecimal, Val, Lower, Sign;
    assert u == v[d..] && v[0..] == v;
    StrtodSome(t, s, v, d, u);
    TokenNoX(t, s, v, d, u, s + d + Tail(u));
    DigitsAt(v, 0);
    ZeroIs(v, d, u);
    LeadingZero(t, s, v, s + d + Tail(u));
  }

  /** A number is refused exactly when it is a zero and more, or a signed infinity or NaN. */
  lemma NumberRefused(t: string)
    requires t != "" && StartsNumber(t[0])
    ensures ParseNumber(t) == Rejected <==>
            ZeroAndMore(Unsigned(t)) || (First(t, '-') && NotFiniteWord(t[1..]))
  {
    var s, v := Sign(t), Unsigned(t);
    var d := Digits(v);
    assert v == t[s..] && v[0..] == v;
    DigitsAt(v, 0);
    hide Digits, ParseNumber, HexFollows;
    if d == 0 {
      NoDigitsRefused(t, v);
    } else {
      NotBoth(v);
      if d == 1 && v[0] == '0' && HexFollows(t[s+1..]) {
        HexRefused(t, s, v, t[s+1..]);
      } else {
        DigitsRefused(t, s, v, d, t[s+d..]);
      }
    }
  }

  lemma NotBoth(v: string)
    ensures DigitAt(v, 0) ==> !NotFiniteWord(v)
  {
  }

  /** The number 0e1 of section 6 of RFC 8259 is. */
  lemma ZeroExponentExample()
    ensures JsonParseString("0e1") == Rejected
  {
    NumberRefused("0e1");
    ReadsNumber("0e1");
    ScalarRead("0e1", "", 0);
    assert "0e1" + "" == "0e1";
    assert !Begins("0e1", [0xEF as char, 0xBB as char, 0xBF as char]) by { assert "0e1"[..3][0] == '0'; }
    hide ParseNumber, ParseScalar;
  }

  // ---------------------------------------------------------------- consumption

  /** Neither a digit, nor a point and a digit, nor an infinity or NaN. */
  predicate NoNumber(u: string) {
    !DigitAt(u, 0) && !(First(u, '.') && DigitAt(u, 1)) && !NotFiniteWord(u)
  }

  /** A minus sign that no number follows: strtod converts nothing there. */
  predicate MinusAlone(t: string) {
    First(t, '-') && NoNumber(t[1..])
  }

  lemma NoNumberIs(u: string)
    ensures NoNumber(u) <==> Digits(u) == 0 && !PointAhead(u) && !WordAhead(u)
  {
    DigitsAt(u, 0);
    assert u[0..] == u;
    WordIs(u);
    hide Digits, WordAhead, NotFiniteWord;
  }

  /** Such a sign is read as 0 and left where it is. */
  lemma MinusAloneReads(t: string, nesting: nat)
    requires MinusAlone(t) && nesting <= MAX_NESTING
    ensures ParseValue(t, nesting) == Read(Parsed(JNum(0), t))
  {
    NoNumberIs(t[1..]);
    assert Strtod(t) == (0, Int(0)) by {
      assert t[1+0..] == t[1..];
    }
    assert t[0..] == t && IsDecimal(t, 0);
    assert ParseNumber(t) == Read(Parsed(JNum(0), t));
    ReadsNumber(t);
    ScalarRead(t, "", nesting);
    assert t + "" == t;
  }

  lemma MinusExample()
    ensures JsonParseString("-") == Read(JNum(0)) && ParseValue("-", 0) == Read(Parsed(JNum(0), "-"))
  {
    MinusAloneReads("-", 0);
    assert !Begins("-", [0xEF as char, 0xBB as char, 0xBF as char]);
  }

  lemma NumberConsumes(t: string)
    requires t != "" && StartsNumber(t[0]) && ParseNumber(t).Read?
    ensures |ParseNumber(t).value.rest| < |t| || MinusAlone(t)
  {
    if t[0] == '-' {
      NoNumberIs(t[1..]);
      assert t[1+0..] == t[1..];
    } else {
      assert t[0..] == t;
    }
  }

  lemma ScalarConsumes(t: string)
    requires t != "" && ParseScalar(t).Read?
    ensures |ParseScalar(t).value.rest| < |t| || MinusAlone(t)
  {
    hide ParseNumber, MinusAlone;
    if StartsNumber(t[0]) {
      ReadsNumber(t);
      NumberConsumes(t);
    }
  }

  /** Every value read takes at least one character, but for a minus sign on its own. */
  lemma ConsumesUnlessMinus(text: string, nesting: nat)
    requires ParseValue(text, nesting).Read?
    ensures |ParseValue(text, nesting).value.rest| == |text| <==> MinusAlone(text)
  {
    hide ParseScalar, ParseArray, ParseObject, MinusAlone;
    var t := SkipSpaces(text);
    SameText(text, t);
    if t[0] != '{' && t[0] != '[' {
      ScalarConsumes(t);
    }
    MinusIff(text, nesting);
  }

  lemma SameText(text: string, t: string)
    requires t == SkipSpaces(text)
    ensures |t| == |text| ==> t == text
  {
    SpacesSuffix(text);
  }

  lemma MinusIff(text: string, nesting: nat)
    requires nesting <= MAX_NESTING
    ensures MinusAlone(text) ==> ParseValue(text, nesting) == Read(Parsed(JNum(0), text))
  {
    if MinusAlone(text) {
      MinusAloneReads(text, nesting);
    }
  }

  // ---------------------------------------------------------------- normal form

  lemma ParsedOk(s: string)
    requires IsText(s) && JsonParseString(s).Read?
    ensures Good(JsonParseString(s).value) && FitsAt(JsonParseString(s).value, 0)
  {
    hide ParseValue, Good, FitsAt;
    var mark := [0xEF as char, 0xBB as char, 0xBF as char];
    var t := if Begins(s, mark) then s[3..] else s;
    assert Suffix(t, s);
    SuffixText(t, s);
    ParseValueOk(t, 0);
  }

  /** Whatever was accepted, its printed text, compact or pretty, is read as the same value. */
  lemma NormalForm(s: string, pretty: bool)
    requires IsText(s) && JsonParseString(s).Read?
    ensures JsonParseString(Text(JsonParseString(s).value, 0, pretty)) == JsonParseString(s)
  {
    ParsedOk(s);
    PrintThenParse(JsonParseString(s).value, pretty);
  }

  /** A value comes back from its printed text exactly when no node of it is too deep. */
  lemma PrintThenParseExact(v: JSON, pretty: bool)
    requires Good(v)
    ensures JsonParseString(Text(v, 0, pretty)) == Read(v) <==> FitsAt(v, 0)
  {
    hide Text, JsonParseString, Good, FitsAt;
    PrintedIsText(v, 0, pretty);
    if FitsAt(v, 0) {
      PrintThenParse(v, pretty);
    } else if JsonParseString(Text(v, 0, pretty)) == Read(v) {
      ParsedOk(Text(v, 0, pretty));
    }
  }
}
