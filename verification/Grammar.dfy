/**
 JSON texts as they may be written: white space at every place between the tokens, strings with
 any escapes.  A form is a text with its structure; the parser reads exactly the texts of forms.
 */
module Grammar {
  import opened Wrappers
  import opened CStrings
  import opened Numbers
  import opened Escapes
  import opened JsonValue
  import opened JsonParse

  // ---------------------------------------------------------------- white space

  /** Tab, line feed, vertical tab, form feed, carriage return and space: isspace in the C locale. */
  const BLANKS: set<int> := {9, 10, 11, 12, 13, 32}

  predicate Gap(w: string) {
    forall i :: 0 <= i < |w| ==> w[i] as int in BLANKS
  }

  lemma {:induction false} GapSkipped(w: string, x: string)
    requires Gap(w)
    ensures SkipSpaces(w + x) == SkipSpaces(x)
  {
    if w == "" {
      assert w + x == x;
    } else {
      assert (w + x)[1..] == w[1..] + x;
      GapSkipped(w[1..], x);
    }
  }

  lemma SkipStops(x: string)
    requires x != "" ==> x[0] as int !in BLANKS
    ensures SkipSpaces(x) == x
  {
  }

  /** What is skipped is a gap. */
  lemma {:induction false} SkippedGap(t: string) returns (w: string)
    ensures Gap(w) && t == w + SkipSpaces(t)
  {
    if t != "" && IsSpace(t[0]) {
      var v := SkippedGap(t[1..]);
      w := [t[0]] + v;
      assert t == [t[0]] + t[1..];
    } else {
      w := "";
    }
  }

  /** Whatever follows it, white space before a value makes no difference. */
  lemma GapBeforeValue(w: string, x: string, nesting: nat)
    requires Gap(w)
    ensures ParseValue(w + x, nesting) == ParseValue(x, nesting)
  {
    GapSkipped(w, x);
    SkipTwice(w + x);
  }

  lemma SkipTwice(t: string)
    ensures SkipSpaces(SkipSpaces(t)) == SkipSpaces(t)
  {
  }

  /** Nor does it behind an opening bracket. */
  lemma GapBehindBracket(open: char, w: string, x: string, nesting: nat)
    requires Gap(w) && (open == '[' || open == '{')
    ensures ParseValue([open] + w + x, nesting) == ParseValue([open] + x, nesting)
  {
    GapSkipped(w, x);
    assert ([open] + w + x)[1..] == w + x && ([open] + x)[1..] == x;
    SkipStops([open] + w + x);
    SkipStops([open] + x);
  }

  /** Nothing but a quote, a bracket, a digit, a minus sign, t, f or n starts a value. */
  lemma NoValue(t: string, nesting: nat)
    requires t == "" || (t[0] as int !in BLANKS && t[0] !in "\"{[-0123456789tfn")
    ensures ParseValue(t, nesting) == Rejected
  {
    hide ParseObject, ParseArray, ParseNumber, ParseString, ParseBool, ParseWord;
    SkipStops(t);
    if t != "" {
      assert !StartsNumber(t[0]);
    }
  }

  // ---------------------------------------------------------------- forms

  /** A word or number, a literal with its content as written, or a container with its gaps. */
  datatype Form =
    | Word(v: JSON)
    | Lit(content: string)
    | NoElems(gap: string)
    | Elems(elems: seq<Elem>)
    | NoBinds(gap: string)
    | Binds(binds: seq<Bind>)

  datatype Elem = Elem(before: string, form: Form, after: string)

  /** A name as written between its quotes, with a gap on either side, and what stands behind the colon. */
  datatype Bind = Bind(before: string, name: string, after: string, elem: Elem)

  function WordText(v: JSON): string {
    match v
    case JBool(b) => if b then "true" else "false"
    case JNum(n) => IntText(n)
    case _ => "null"
  }

  function Quotes(content: string): string {
    "\"" + content + "\""
  }

  function Written(f: Form): string
    decreases f
  {
    match f
    case Word(v) => WordText(v)
    case Lit(c) => Quotes(c)
    case NoElems(gap) => "[" + gap + "]"
    case Elems(es) => "[" + (WrittenElems(es) + "]")
    case NoBinds(gap) => "{" + gap + "}"
    case Binds(bs) => "{" + (WrittenBinds(bs) + "}")
  }

  function WrittenElem(e: Elem): string
    decreases e
  {
    e.before + (Written(e.form) + e.after)
  }

  function WrittenElems(es: seq<Elem>): string
    decreases es
  {
    if es == [] then ""
    else if |es| == 1 then WrittenElem(es[0])
    else WrittenElem(es[0]) + ("," + WrittenElems(es[1..]))
  }

  function WrittenBind(b: Bind): string
    decreases b
  {
    b.before + (Quotes(b.name) + (b.after + (":" + WrittenElem(b.elem))))
  }

  function WrittenBinds(bs: seq<Bind>): string
    decreases bs
  {
    if bs == [] then ""
    else if |bs| == 1 then WrittenBind(bs[0])
    else WrittenBind(bs[0]) + ("," + WrittenBinds(bs[1..]))
  }

  /** The string between two quotes, escapes replaced. */
  function Decoded(content: string): string {
    match Processed(content)
    case Some(s) => s
    case None => ""
  }

  function Meaning(f: Form): JSON
    decreases f
  {
    match f
    case Word(v) => v
    case Lit(c) => JStr(Decoded(c))
    case NoElems(_) => JArr([])
    case Elems(es) => JArr(Meanings(es))
    case NoBinds(_) => JObj([])
    case Binds(bs) => JObj(Bound(bs))
  }

  function Meanings(es: seq<Elem>): (vs: seq<JSON>)
    ensures |vs| == |es|
    decreases es
  {
    if es == [] then [] else [Meaning(es[0].form)] + Meanings(es[1..])
  }

  function Bound(bs: seq<Bind>): (ms: seq<Member>)
    ensures |ms| == |bs|
    decreases bs
  {
    if bs == [] then [] else [Member(Decoded(bs[0].name), Meaning(bs[0].elem.form))] + Bound(bs[1..])
  }

  /** A content that the closing quote ends and that decodes. */
  predicate Closed(c: string) {
    Skip(c + "\"") == Some(|c| + 1) && Processed(c).Some?
  }

  /** Words, C ints, contents that decode, gaps of white space, and no name twice in one object. */
  ghost predicate Proper(f: Form)
    decreases f
  {
    match f
    case Word(v) => v.JNull? || v.JBool? || (v.JNum? && -0x8000_0000 <= v.n <= 0x7FFF_FFFF)
    case Lit(c) => Closed(c)
    case NoElems(gap) => Gap(gap)
    case Elems(es) => es != [] && forall i :: 0 <= i < |es| ==> ProperElem(es[i])
    case NoBinds(gap) => Gap(gap)
    case Binds(bs) => bs != [] && DistinctNames(Bound(bs)) && forall i :: 0 <= i < |bs| ==> ProperBind(bs[i])
  }

  ghost predicate ProperElem(e: Elem)
    decreases e
  {
    Gap(e.before) && Proper(e.form) && Gap(e.after)
  }

  ghost predicate ProperBind(b: Bind)
    decreases b
  {
    Gap(b.before) && Closed(b.name) && Gap(b.after) && ProperElem(b.elem)
  }

  /** What may follow a value: nothing, a comma, a closing bracket, white space. */
  predicate Delimits(rest: string) {
    rest == "" || rest[0] in ",]}" || rest[0] as int in BLANKS
  }

  /** Only a number needs something to end it. */
  predicate Ended(v: JSON, rest: string) {
    v.JNum? ==> Delimits(rest)
  }

  lemma DelimitsEnds(v: JSON, rest: string)
    requires Delimits(rest)
    ensures Ended(v, rest)
  {
  }

  // ---------------------------------------------------------------- numbers

  lemma NatStrtod(n: nat, rest: string)
    requires Delimits(rest)
    ensures Strtod(NatText(n) + rest) == (|NatText(n)|, Int(n))
  {
    var s := NatText(n);
    DigitsOf(s, rest);
    ValNatText(n);
    var t := s + rest;
    assert IsDigit(t[0]) && t[0] != '-';
    assert t[0..] == t && t[..|s|] == s && t[|s|..] == rest;
  }

  lemma AfterMinus(m: string, t: string, d: nat, rest: string)
    requires First(m, '-') && m[1..] == t && d <= |t| && m[1+d..] == rest && Digits(t) == d > 0 && Delimits(rest)
    ensures Strtod(m) == (1 + d, Signed(true, Val(t[..d])))
  {
    hide Digits, Val;
  }

  lemma MinusStrtod(n: nat, rest: string)
    requires Delimits(rest) && n > 0
    ensures Strtod("-" + NatText(n) + rest) == (1 + |NatText(n)|, Int(-(n as int)))
  {
    hide Strtod, NatText, Digits, Val;
    var s := NatText(n);
    DigitsOf(s, rest);
    ValNatText(n);
    MinusShape(s, rest);
    AfterMinus("-" + s + rest, s + rest, |s|, rest);
  }

  lemma MinusShape(s: string, rest: string)
    ensures var m, t := "-" + s + rest, s + rest;
            First(m, '-') && m[1..] == t && t[..|s|] == s && m[1+|s|..] == rest
  {
  }

  lemma NatDecimal(n: nat, rest: string)
    ensures IsDecimal(NatText(n) + rest, |NatText(n)|)
  {
    ValNatText(n);
    var s := NatText(n);
    assert forall i :: 0 <= i < |s| ==> IsDigit(s[i]);
  }

  lemma MinusDecimal(n: nat, rest: string)
    requires n > 0
    ensures IsDecimal("-" + NatText(n) + rest, 1 + |NatText(n)|)
  {
    ValNatText(n);
    var s := NatText(n);
    var m := "-" + s + rest;
    assert forall i :: 0 <= i < |s| ==> IsDigit(s[i]);
    assert m[1] == s[0] && m[..2][1] == m[1];
  }

  lemma NumberBack(n: int, rest: string)
    requires IsInt(n) && Delimits(rest)
    ensures ParseNumber(IntText(n) + rest) == Read(Parsed(JNum(n), rest))
  {
    hide Strtod, IsDecimal, NatText;
    if n < 0 {
      MinusStrtod(-n, rest);
      MinusDecimal(-n, rest);
    } else {
      NatStrtod(n, rest);
      NatDecimal(n, rest);
    }
    assert (IntText(n) + rest)[|IntText(n)|..] == rest;
  }

  // ---------------------------------------------------------------- words and literals

  /** A text that begins with s, where s is not empty and begins with no space. */
  lemma NoSpaceFirst(s: string, rest: string)
    requires s != "" && !IsSpace(s[0])
    ensures SkipSpaces(s + rest) == s + rest && (s + rest)[0] == s[0]
    ensures (s + rest)[..|s|] == s && (s + rest)[|s|..] == rest
  {
  }

  /** A value printed as s that is no container is read as such. */
  lemma ScalarRead(s: string, rest: string, nesting: nat)
    requires s != "" && !IsSpace(s[0]) && s[0] != '{' && s[0] != '[' && nesting <= MAX_NESTING
    ensures s + rest != "" && ParseValue(s + rest, nesting) == ParseScalar(s + rest)
  {
    NoSpaceFirst(s, rest);
  }

  lemma WordBack(v: JSON, rest: string)
    requires v.JNull? || v.JBool?
    ensures var t := WordText(v) + rest;
            t != "" && ParseScalar(t) == Read(Parsed(v, rest))
  {
    var s := WordText(v);
    NoSpaceFirst(s, rest);
    var t := s + rest;
    match v
    case JNull =>
      assert Begins(t, "null");
    case JBool(b) =>
      if b {
        assert Begins(t, "true");
      } else {
        assert t[0] == 'f' && !Begins(t, "true") by { assert t[..4][0] == t[0]; }
        assert Begins(t, "false");
      }
  }

  lemma IntHead(n: int)
    ensures IntText(n) != "" && StartsNumber(IntText(n)[0]) && !IsSpace(IntText(n)[0])
  {
    var s := NatText(if n < 0 then -n else n);
    assert IsDigit(s[0]);
  }

  lemma ReadsNumber(t: string)
    requires t != "" && StartsNumber(t[0])
    ensures ParseScalar(t) == ParseNumber(t)
  {
  }

  lemma NumBack(n: int, rest: string)
    requires IsInt(n) && Delimits(rest)
    ensures var t := IntText(n) + rest;
            t != "" && ParseScalar(t) == Read(Parsed(JNum(n), rest))
  {
    IntHead(n);
    NoSpaceFirst(IntText(n), rest);
    ReadsNumber(IntText(n) + rest);
    NumberBack(n, rest);
  }

  lemma {:induction false} SkipOn(u: string, rest: string)
    requires Skip(u).Some?
    ensures Skip(u + rest) == Skip(u)
    decreases |u|
  {
    if u[0] == '\"' {
    } else if u[0] == '\\' {
      assert (u + rest)[2..] == u[2..] + rest;
      SkipOn(u[2..], rest);
    } else {
      assert (u + rest)[1..] == u[1..] + rest;
      SkipOn(u[1..], rest);
    }
  }

  lemma QuotesApart(c: string, rest: string)
    ensures var t := Quotes(c) + rest;
            t[1..] == c + "\"" + rest && t[0] == '\"' && |Quotes(c)| == |c| + 2
            && t[1..|c|+1] == c && t[|c|+2..] == rest
  {
  }

  /** A literal is read with its content decoded, whatever follows it. */
  lemma LitBack(c: string, rest: string)
    requires Closed(c)
    ensures Quoted(Quotes(c) + rest) == Some(Token(Decoded(c), |c| + 2))
    ensures (Quotes(c) + rest)[|c|+2..] == rest
  {
    hide Skip, Processed;
    QuotesApart(c, rest);
    SkipOn(c + "\"", rest);
  }

  lemma LitRead(c: string, rest: string, nesting: nat)
    requires Closed(c) && nesting <= MAX_NESTING
    ensures ParseValue(Quotes(c) + rest, nesting) == Read(Parsed(JStr(Decoded(c)), rest))
  {
    hide Skip, Processed, Quoted, Closed;
    LitBack(c, rest);
    QuotesApart(c, rest);
    ScalarRead(Quotes(c), rest, nesting);
  }

  lemma WordRead(v: JSON, rest: string, nesting: nat)
    requires Proper(Word(v)) && nesting <= MAX_NESTING && Ended(v, rest)
    ensures ParseValue(WordText(v) + rest, nesting) == Read(Parsed(v, rest))
  {
    if v.JNum? {
      IntHead(v.n);
      ScalarRead(IntText(v.n), rest, nesting);
      NumBack(v.n, rest);
    } else {
      ScalarRead(WordText(v), rest, nesting);
      WordBack(v, rest);
    }
  }

  // ---------------------------------------------------------------- one step of the two loops

  lemma ItemsMore(t: string, nesting: nat, before: seq<JSON>, v: JSON, r: string, x: string)
    requires t != "" && ParseValue(t, nesting) == Read(Parsed(v, r))
    requires First(SkipSpaces(r), ',') && SkipSpaces(SkipSpaces(r)[1..]) == x
    ensures ParseItems(t, nesting, before) == ParseItems(x, nesting, before + [v])
  {
  }

  lemma ItemsLast(t: string, nesting: nat, before: seq<JSON>, v: JSON, r: string, rest: string)
    requires t != "" && ParseValue(t, nesting) == Read(Parsed(v, r)) && SkipSpaces(r) == "]" + rest
    ensures ParseItems(t, nesting, before) == Read(Parsed(before + [v], rest))
  {
    hide ParseValue;
    NoSpaceFirst("]", rest);
  }

  lemma MembersMore(t: string, nesting: nat, before: seq<Member>, m: Member, r: string, x: string)
    requires t != "" && ParseMember(t, nesting, before) == Read(Parsed(m, r))
    requires First(SkipSpaces(r), ',') && SkipSpaces(SkipSpaces(r)[1..]) == x
    ensures ParseMembers(t, nesting, before) == ParseMembers(x, nesting, before + [m])
  {
  }

  lemma MembersLast(t: string, nesting: nat, before: seq<Member>, m: Member, r: string, rest: string)
    requires t != "" && ParseMember(t, nesting, before) == Read(Parsed(m, r)) && SkipSpaces(r) == "}" + rest
    ensures ParseMembers(t, nesting, before) == Read(Parsed(before + [m], rest))
  {
    hide ParseMember;
    NoSpaceFirst("}", rest);
  }

  lemma OneMore<T>(before: seq<T>, items: seq<T>)
    requires items != []
    ensures before + [items[0]] + items[1..] == before + items
    ensures items[1..] == [] ==> before + [items[0]] == before + items
  {
    assert items == [items[0]] + items[1..];
  }

  lemma NewName(before: seq<Member>, ms: seq<Member>)
    requires ms != [] && DistinctNames(before + ms)
    ensures !Has(before, ms[0].name)
  {
    var all, k := before + ms, Find(before, ms[0].name);
    assert Find(all, all[|before|].name) == |before|;
    if k < |before| {
      FindFirst(all, ms[0].name, k);
    }
  }

  lemma ReadsArray(w: string, nesting: nat)
    requires nesting <= MAX_NESTING
    ensures First("[" + w, '[') && ParseValue("[" + w, nesting) == ParseArray("[" + w, nesting + 1)
    ensures ("[" + w)[1..] == w
  {
    NoSpaceFirst("[", w);
  }

  lemma ReadsObject(w: string, nesting: nat)
    requires nesting <= MAX_NESTING
    ensures First("{" + w, '{') && ParseValue("{" + w, nesting) == ParseObject("{" + w, nesting + 1)
    ensures ("{" + w)[1..] == w
  {
    NoSpaceFirst("{", w);
  }

  lemma OpenArray(w: string, u: string, nesting: nat, items: seq<JSON>, rest: string)
    requires nesting <= MAX_NESTING && SkipSpaces(w) == u && !First(u, ']')
    requires ParseItems(u, nesting + 1, []) == Read(Parsed(items, rest))
    ensures ParseValue("[" + w, nesting) == Read(Parsed(JArr(items), rest))
  {
    ReadsArray(w, nesting);
  }

  lemma OpenObject(w: string, u: string, nesting: nat, ms: seq<Member>, rest: string)
    requires nesting <= MAX_NESTING && SkipSpaces(w) == u && !First(u, '}')
    requires ParseMembers(u, nesting + 1, []) == Read(Parsed(ms, rest))
    ensures ParseValue("{" + w, nesting) == Read(Parsed(JObj(ms), rest))
  {
    ReadsObject(w, nesting);
  }

  // ---------------------------------------------------------------- every form is read

  lemma FormHead(f: Form, x: string)
    requires Proper(f)
    ensures var t := Written(f) + x;
            t != "" && SkipSpaces(t) == t && !First(t, ']') && !First(t, '}')
  {
    if f.Word? && f.v.JNum? {
      IntHead(f.v.n);
    }
    assert Written(f) != "" && Written(f)[0] as int !in BLANKS && Written(f)[0] != ']' && Written(f)[0] != '}';
    hide Written;
    NoSpaceFirst(Written(f), x);
  }

  /** The separator and what follows it, behind a gap. */
  lemma AfterGap(gap: string, d: string)
    requires Gap(gap) && d != "" && d[0] in ",]}:"
    ensures SkipSpaces(gap + d) == d && (d[0] != ':' ==> Delimits(gap + d))
  {
    GapSkipped(gap, d);
    SkipStops(d);
  }

  /** What stands behind the first of several elements. */
  function Behind(es: seq<Elem>, x: string): string
    requires es != []
  {
    if |es| == 1 then x else "," + (WrittenElems(es[1..]) + x)
  }

  lemma ElemsApart(es: seq<Elem>, x: string)
    requires es != []
    ensures WrittenElems(es) + x == es[0].before + (Written(es[0].form) + (es[0].after + Behind(es, x)))
  {
    hide WrittenElem, Written;
    ElemApart(es[0], Behind(es, x));
    if |es| > 1 {
      Separated(WrittenElem(es[0]), WrittenElems(es[1..]), x);
    }
  }

  ghost predicate ValuesFit(vs: seq<JSON>, nesting: nat) {
    forall i :: 0 <= i < |vs| ==> FitsAt(vs[i], nesting)
  }

  lemma FirstMeaning(es: seq<Elem>, nesting: nat)
    requires es != [] && ValuesFit(Meanings(es), nesting)
    ensures Meanings(es)[0] == Meaning(es[0].form) && Meanings(es)[1..] == Meanings(es[1..])
    ensures FitsAt(Meaning(es[0].form), nesting) && ValuesFit(Meanings(es[1..]), nesting)
  {
    hide Meaning, FitsAt;
    var vs := Meanings(es);
    assert vs[0] == Meaning(es[0].form) && vs[1..] == Meanings(es[1..]);
    assert FitsAt(vs[0], nesting);
    forall i | 0 <= i < |vs[1..]| ensures FitsAt(vs[1..][i], nesting) {
      assert vs[1..][i] == vs[i + 1];
    }
  }

  /** Where the loop stands when it has read the gap before an element. */
  lemma ElemAhead(es: seq<Elem>, x: string)
    requires es != [] && ProperElem(es[0]) && x != "" && x[0] == ']'
    ensures var r := es[0].after + Behind(es, x);
            var t := SkipSpaces(WrittenElems(es) + x);
            && t == Written(es[0].form) + r && t != "" && !First(t, ']')
            && Delimits(r) && SkipSpaces(r) == Behind(es, x)
  {
    var e := es[0];
    hide WrittenElems, Written, Delimits;
    ElemsApart(es, x);
    AfterGap(e.after, Behind(es, x));
    GapSkipped(e.before, Written(e.form) + (e.after + Behind(es, x)));
    FormHead(e.form, e.after + Behind(es, x));
  }

  lemma FirstProper(es: seq<Elem>)
    requires es != [] && forall i :: 0 <= i < |es| ==> ProperElem(es[i])
    ensures ProperElem(es[0]) && Proper(es[0].form) && forall i :: 0 <= i < |es[1..]| ==> ProperElem(es[1..][i])
  {
    assert ProperElem(es[0]);
    hide Proper, ProperElem;
  }

  lemma {:induction false} ElemsBack(es: seq<Elem>, nesting: nat, before: seq<JSON>, rest: string)
    requires es != [] && (forall i :: 0 <= i < |es| ==> ProperElem(es[i])) && ValuesFit(Meanings(es), nesting)
    ensures var t := SkipSpaces(WrittenElems(es) + ("]" + rest));
            !First(t, ']') && ParseItems(t, nesting, before) == Read(Parsed(before + Meanings(es), rest))
    decreases es, 0
  {
    hide *;
    FirstProper(es);
    var x := "]" + rest;
    var e, more, r := es[0], es[1..], es[0].after + Behind(es, x);
    var t := SkipSpaces(WrittenElems(es) + x);
    ElemAhead(es, x);
    FirstMeaning(es, nesting);
    DelimitsEnds(Meaning(e.form), r);
    FormBack(e.form, nesting, r);
    OneMore(before, Meanings(es));
    BehindIs(es, x);
    if |es| == 1 {
      ItemsLast(t, nesting, before, Meaning(e.form), r, rest);
    } else {
      ElemsBack(more, nesting, before + [Meaning(e.form)], rest);
      ItemsMore(t, nesting, before, Meaning(e.form), r, SkipSpaces(WrittenElems(more) + x));
    }
  }

  lemma BehindIs(es: seq<Elem>, x: string)
    requires es != []
    ensures |es| == 1 ==> Behind(es, x) == x && Meanings(es[1..]) == []
    ensures |es| > 1 ==> First(Behind(es, x), ',') && Behind(es, x)[1..] == WrittenElems(es[1..]) + x
  {
    hide WrittenElems, Meaning;
  }

  // ---------------------------------------------------------------- and every object

  function BehindBind(bs: seq<Bind>, x: string): string
    requires bs != []
  {
    if |bs| == 1 then x else "," + (WrittenBinds(bs[1..]) + x)
  }

  /** The text of a member behind its name. */
  function AfterName(b: Bind, r: string): string {
    b.after + (":" + (b.elem.before + (Written(b.elem.form) + r)))
  }

  lemma BindsApart(bs: seq<Bind>, x: string)
    requires bs != []
    ensures WrittenBinds(bs) + x ==
            bs[0].before + (Quotes(bs[0].name) + AfterName(bs[0], bs[0].elem.after + BehindBind(bs, x)))
  {
    hide *;
    var b := bs[0];
    var z := BehindBind(bs, x);
    BindsSplit(bs, x);
    ElemApart(b.elem, z);
    BindText(b, z);
  }

  lemma BindsSplit(bs: seq<Bind>, x: string)
    requires bs != []
    ensures WrittenBinds(bs) + x == WrittenBind(bs[0]) + BehindBind(bs, x)
  {
    hide WrittenBind;
    if |bs| > 1 {
      Separated(WrittenBind(bs[0]), WrittenBinds(bs[1..]), x);
    }
  }

  lemma Separated(a: string, b: string, x: string)
    ensures a + ("," + b) + x == a + ("," + (b + x))
  {
  }

  lemma ElemApart(e: Elem, z: string)
    ensures WrittenElem(e) + z == e.before + (Written(e.form) + (e.after + z))
  {
    hide Written;
  }

  lemma BindText(b: Bind, z: string)
    requires WrittenElem(b.elem) + z == b.elem.before + (Written(b.elem.form) + (b.elem.after + z))
    ensures WrittenBind(b) + z == b.before + (Quotes(b.name) + AfterName(b, b.elem.after + z))
  {
    hide Written, WrittenElem, Quotes;
    assert b.before + (Quotes(b.name) + (b.after + (":" + WrittenElem(b.elem)))) + z ==
           b.before + (Quotes(b.name) + (b.after + (":" + (WrittenElem(b.elem) + z))));
  }

  lemma FirstBound(bs: seq<Bind>, nesting: nat)
    requires bs != [] && BoundFit(Bound(bs), nesting)
    ensures Bound(bs)[0] == Member(Decoded(bs[0].name), Meaning(bs[0].elem.form)) && Bound(bs)[1..] == Bound(bs[1..])
    ensures FitsAt(Meaning(bs[0].elem.form), nesting) && BoundFit(Bound(bs[1..]), nesting)
  {
    hide Meaning, FitsAt, Decoded;
    var ms := Bound(bs);
    assert ms[0].value == Meaning(bs[0].elem.form) && ms[1..] == Bound(bs[1..]);
    assert FitsAt(ms[0].value, nesting);
    forall i | 0 <= i < |ms[1..]| ensures FitsAt(ms[1..][i].value, nesting) {
      assert ms[1..][i] == ms[i + 1];
    }
  }

  ghost predicate BoundFit(ms: seq<Member>, nesting: nat) {
    forall i :: 0 <= i < |ms| ==> FitsAt(ms[i].value, nesting)
  }

  lemma KeyRead(b: Bind, r: string)
    requires Closed(b.name) && Gap(b.after)
    ensures ParseKey(Quotes(b.name) + AfterName(b, r)) ==
            Some(Parsed(Decoded(b.name), b.elem.before + (Written(b.elem.form) + r)))
  {
    hide Quoted, Quotes, Written, Closed, Decoded;
    var k := b.elem.before + (Written(b.elem.form) + r);
    LitBack(b.name, AfterName(b, r));
    AfterGap(b.after, ":" + k);
  }

  /** Where the loop stands when it has read the gap before a member. */
  lemma BindAhead(bs: seq<Bind>, x: string)
    requires bs != [] && ProperBind(bs[0]) && x != "" && x[0] == '}'
    ensures var b := bs[0];
            var r := b.elem.after + BehindBind(bs, x);
            var t := SkipSpaces(WrittenBinds(bs) + x);
            && t == Quotes(b.name) + AfterName(b, r) && t != "" && !First(t, '}')
            && Delimits(r) && SkipSpaces(r) == BehindBind(bs, x)
  {
    var b := bs[0];
    var r := b.elem.after + BehindBind(bs, x);
    hide WrittenBinds, AfterName, Delimits;
    BindsApart(bs, x);
    AfterGap(b.elem.after, BehindBind(bs, x));
    GapSkipped(b.before, Quotes(b.name) + AfterName(b, r));
    SkipStops(Quotes(b.name) + AfterName(b, r));
  }

  lemma {:induction false} BindBack(b: Bind, nesting: nat, before: seq<Member>, r: string)
    requires ProperBind(b) && FitsAt(Meaning(b.elem.form), nesting) && !Has(before, Decoded(b.name)) && Delimits(r)
    ensures ParseMember(Quotes(b.name) + AfterName(b, r), nesting, before) ==
            Read(Parsed(Member(Decoded(b.name), Meaning(b.elem.form)), r))
    decreases b, 2
  {
    assert ProperElem(b.elem) && Proper(b.elem.form);
    var t := Quotes(b.name) + AfterName(b, r);
    hide ParseValue, ParseMember, ParseKey, Written, Meaning, FitsAt, Quotes, AfterName, Decoded, Proper, Has, Closed, Delimits;
    KeyRead(b, r);
    GapBeforeValue(b.elem.before, Written(b.elem.form) + r, nesting);
    FormBack(b.elem.form, nesting, r);
    UnfoldMember(t, nesting, before);
  }

  lemma BehindBindIs(bs: seq<Bind>, x: string)
    requires bs != []
    ensures |bs| == 1 ==> BehindBind(bs, x) == x && Bound(bs[1..]) == []
    ensures |bs| > 1 ==> First(BehindBind(bs, x), ',') && BehindBind(bs, x)[1..] == WrittenBinds(bs[1..]) + x
  {
    hide WrittenBinds, Meaning;
  }

  lemma RestProper(bs: seq<Bind>)
    requires bs != [] && forall i :: 0 <= i < |bs| ==> ProperBind(bs[i])
    ensures ProperBind(bs[0]) && forall i :: 0 <= i < |bs[1..]| ==> ProperBind(bs[1..][i])
  {
    hide ProperBind;
  }

  lemma {:induction false} BindsBack(bs: seq<Bind>, nesting: nat, before: seq<Member>, rest: string)
    requires bs != [] && (forall i :: 0 <= i < |bs| ==> ProperBind(bs[i])) && BoundFit(Bound(bs), nesting)
    requires DistinctNames(before + Bound(bs))
    ensures var t := SkipSpaces(WrittenBinds(bs) + ("}" + rest));
            !First(t, '}') && ParseMembers(t, nesting, before) == Read(Parsed(before + Bound(bs), rest))
    decreases bs, 0
  {
    hide *;
    RestProper(bs);
    var x := "}" + rest;
    var b, more, r := bs[0], bs[1..], bs[0].elem.after + BehindBind(bs, x);
    var t := SkipSpaces(WrittenBinds(bs) + x);
    BindAhead(bs, x);
    FirstBound(bs, nesting);
    NewName(before, Bound(bs));
    BindBack(b, nesting, before, r);
    OneMore(before, Bound(bs));
    BehindBindIs(bs, x);
    var m := Member(Decoded(b.name), Meaning(b.elem.form));
    if |bs| == 1 {
      MembersLast(t, nesting, before, m, r, rest);
    } else {
      BindsBack(more, nesting, before + [m], rest);
      MembersMore(t, nesting, before, m, r, SkipSpaces(WrittenBinds(more) + x));
    }
  }

  // ---------------------------------------------------------------- whole forms

  lemma EmptyArray(gap: string, nesting: nat, rest: string)
    requires nesting <= MAX_NESTING && Gap(gap)
    ensures ParseValue("[" + gap + "]" + rest, nesting) == Read(Parsed(JArr([]), rest))
  {
    assert "[" + gap + "]" + rest == "[" + (gap + ("]" + rest));
    ReadsArray(gap + ("]" + rest), nesting);
    AfterGap(gap, "]" + rest);
  }

  lemma EmptyObject(gap: string, nesting: nat, rest: string)
    requires nesting <= MAX_NESTING && Gap(gap)
    ensures ParseValue("{" + gap + "}" + rest, nesting) == Read(Parsed(JObj([]), rest))
  {
    assert "{" + gap + "}" + rest == "{" + (gap + ("}" + rest));
    ReadsObject(gap + ("}" + rest), nesting);
    AfterGap(gap, "}" + rest);
  }

  lemma Grouped(open: string, a: string, close: string, rest: string)
    ensures open + (a + close) + rest == open + (a + (close + rest))
  {
  }

  /** The text of a form is read as its meaning, and exactly that far. */
  lemma {:induction false} FormBack(f: Form, nesting: nat, rest: string)
    requires Proper(f) && FitsAt(Meaning(f), nesting) && Ended(Meaning(f), rest)
    ensures ParseValue(Written(f) + rest, nesting) == Read(Parsed(Meaning(f), rest))
    decreases f, 1
  {
    assert nesting <= MAX_NESTING;
    hide ParseValue, ParseItems, ParseMembers, ParseArray, ParseObject, ParseScalar, WrittenElems, WrittenBinds;
    match f
    case Word(v) => WordRead(v, rest, nesting);
    case Lit(c) => LitRead(c, rest, nesting);
    case NoElems(gap) => EmptyArray(gap, nesting, rest);
    case NoBinds(gap) => EmptyObject(gap, nesting, rest);
    case Elems(es) =>
      ElemsBack(es, nesting + 1, [], rest);
      assert [] + Meanings(es) == Meanings(es);
      var w := WrittenElems(es) + ("]" + rest);
      OpenArray(w, SkipSpaces(w), nesting, Meanings(es), rest);
      Grouped("[", WrittenElems(es), "]", rest);
    case Binds(bs) =>
      assert [] + Bound(bs) == Bound(bs);
      BindsBack(bs, nesting + 1, [], rest);
      var w := WrittenBinds(bs) + ("}" + rest);
      OpenObject(w, SkipSpaces(w), nesting, Bound(bs), rest);
      Grouped("{", WrittenBinds(bs), "}", rest);
  }
  // ---------------------------------------------------------------- and nothing else is read

  lemma {:induction false} ValPositive(s: string)
    requires AllDigits(s) && s != "" && s[0] != '0'
    ensures Val(s) > 0
  {
    if |s| > 1 {
      ValPositive(s[..|s|-1]);
    }
  }

  /** Digits without a leading zero are the decimal text of their value. */
  lemma {:induction false} DigitsText(s: string)
    requires AllDigits(s) && s != "" && (|s| > 1 ==> s[0] != '0')
    ensures NatText(Val(s)) == s
  {
    var a, c := s[..|s|-1], s[|s|-1];
    DigitBack(c);
    assert s == a + [c];
    if |s| > 1 {
      ValPositive(a);
      DigitsText(a);
      LastDigit(Val(a), c);
    } else {
      assert a == "" && Val(s) == DigitVal(c);
    }
  }

  lemma DigitBack(c: char)
    requires IsDigit(c)
    ensures 0 <= DigitVal(c) < 10 && Digit(DigitVal(c)) == c
  {
  }

  lemma LastDigit(n: nat, c: char)
    requires IsDigit(c) && n > 0
    ensures NatText(n * 10 + DigitVal(c)) == NatText(n) + [c]
  {
    DigitBack(c);
    hide Digit;
    var x := DigitVal(c);
    assert (n * 10 + x) / 10 == n && (n * 10 + x) % 10 == x;
  }

  lemma DigitsAhead(t: string, s: nat)
    requires s <= |t|
    ensures var d := Digits(t[s..]);
            && AllDigits(t[s..][..d]) && s + d <= |t| && t[s..][..d] == t[s..s+d]
            && t[s..] == t[s..s+d] + t[s+d..]
  {
  }

  lemma NatRead(t: string)
    requires First(t, '-') == false && ParseNumber(t).Read? && t != "" && StartsNumber(t[0])
    ensures var r := ParseNumber(t).value;
            r.value.JNum? && IsInt(r.value.n) && t == IntText(r.value.n) + r.rest
  {
    var d := Digits(t[0..]);
    DigitsAhead(t, 0);
    assert t[0..] == t && d > 0 && t[0+d..] == t[d..];
    var D := t[0..d];
    assert Strtod(t) == (d, Int(Val(D)));
    DigitsText(D);
  }

  /** What strtod makes of the digits v behind a minus sign. */
  lemma MinusDigits(t: string, v: string, d: nat)
    requires First(t, '-') && v == t[1..] && d == Digits(v) && Strtod(t).0 > 0 && ParseNumber(t).Read?
    ensures d > 0 && Strtod(t) == (1 + d, Signed(true, Val(v[..d])))
  {
    hide Digits, Val, Tail, HexFollows, WordAhead, PointAhead, IsDecimal;
  }

  lemma MinusSplit(t: string, v: string, s: string)
    requires First(t, '-') && v == t[1..] && |s| <= |v| && s == v[..|s|]
    ensures 1 + |s| <= |t| && s == t[1..1+|s|] && t == "-" + s + t[1+|s|..]
  {
  }

  lemma MinusToken(t: string) returns (s: string)
    requires First(t, '-') && ParseNumber(t).Read? && Strtod(t).0 > 0
    ensures AllDigits(s) && s != "" && 1 + |s| <= |t| && s == t[1..1+|s|] && t == "-" + s + t[1+|s|..]
    ensures Strtod(t) == (1 + |s|, Signed(true, Val(s)))
  {
    var v := t[1..];
    var d := Digits(v);
    MinusDigits(t, v, d);
    hide *;
    s := v[..d];
    MinusSplit(t, v, s);
  }

  lemma MinusNoZero(t: string, s: string)
    requires First(t, '-') && AllDigits(s) && 1 + |s| <= |t| && s == t[1..1+|s|] && IsDecimal(t, 1 + |s|)
    ensures |s| > 1 ==> s[0] != '0'
  {
    if |s| > 1 {
      assert t[2] == s[1] && IsDigit(s[1]) && t[..2] == ['-', s[0]];
    }
  }

  lemma MinusRead(t: string)
    requires First(t, '-') && ParseNumber(t).Read? && Strtod(t).0 > 0
    ensures var r := ParseNumber(t).value;
            r.value.JNum? && IsInt(r.value.n) && t == IntText(r.value.n) + r.rest
  {
    hide Strtod, Val, IsDecimal, NatText;
    var s := MinusToken(t);
    MinusNoZero(t, s);
    DigitsText(s);
  }

  /** A number that something delimits is a C int in its decimal text. */
  lemma NumberForm(t: string) returns (f: Form)
    requires t != "" && StartsNumber(t[0]) && ParseNumber(t).Read?
    requires var r := ParseNumber(t).value; Ended(r.value, r.rest)
    ensures Proper(f) && Meaning(f) == ParseNumber(t).value.value && t == Written(f) + ParseNumber(t).value.rest
  {
    if First(t, '-') {
      assert Strtod(t).0 > 0;
      MinusRead(t);
    } else {
      NatRead(t);
    }
    f := Word(ParseNumber(t).value.value);
  }

  lemma {:induction false} SkipCut(t: string)
    requires Skip(t).Some?
    ensures Skip(t[..Skip(t).value]) == Skip(t)
    decreases |t|
  {
    var n := Skip(t).value;
    if t[0] == '\"' {
    } else if t[0] == '\\' {
      SkipCut(t[2..]);
      assert t[..n][2..] == t[2..][..n-2];
    } else {
      SkipCut(t[1..]);
      assert t[..n][1..] == t[1..][..n-1];
    }
  }

  /** What is read as a string is a closed content in quotes. */
  lemma QuotedForm(t: string) returns (c: string)
    requires Quoted(t).Some?
    ensures var q := Quoted(t).value;
            Closed(c) && Decoded(c) == q.bytes && q.used <= |t| && t == Quotes(c) + t[q.used..]
  {
    var k := Literal(t).value;
    c := t[1..k-1];
    LiteralCut(t, k);
    hide Skip, Processed;
  }

  lemma LiteralCut(t: string, k: nat)
    requires Literal(t) == Some(k)
    ensures var c := t[1..k-1];
            Skip(c + "\"") == Some(|c| + 1) && t == Quotes(c) + t[k..]
  {
    var c := t[1..k-1];
    SkipCut(t[1..]);
    hide Skip;
    assert t[1..][..k-1] == c + "\"";
  }

  lemma WordForm(t: string, word: string, v: JSON)
    requires ParseWord(t, word, v).Read?
    ensures ParseWord(t, word, v).value.value == v && t == word + ParseWord(t, word, v).value.rest
  {
  }

  lemma ScalarForm(t: string) returns (f: Form)
    requires t != "" && ParseScalar(t).Read?
    requires var r := ParseScalar(t).value; Ended(r.value, r.rest)
    ensures Proper(f) && Meaning(f) == ParseScalar(t).value.value && t == Written(f) + ParseScalar(t).value.rest
  {
    hide Closed, Quoted, ParseNumber, Decoded, ParseWord, Quotes;
    if t[0] == '\"' {
      var c := QuotedForm(t);
      f := Lit(c);
    } else if t[0] == 't' || t[0] == 'f' {
      var b := Begins(t, "true");
      WordForm(t, if b then "true" else "false", JBool(b));
      f := Word(JBool(b));
    } else if StartsNumber(t[0]) {
      f := NumberForm(t);
    } else {
      WordForm(t, "null", JNull);
      f := Word(JNull);
    }
  }

  lemma AfterSpaces(t: string) returns (gap: string)
    ensures Gap(gap) && t == gap + SkipSpaces(t)
    ensures SkipSpaces(t) != "" && SkipSpaces(t)[0] in ",]}" ==> Delimits(t)
  {
    gap := SkippedGap(t);
    if gap == "" {
      assert "" + SkipSpaces(t) == SkipSpaces(t);
    }
  }

  lemma EmptyApart(open: string, gap: string, close: string, rest: string)
    ensures open + (gap + (close + rest)) == open + gap + close + rest
  {
  }

  lemma BracketApart(t: string, c: char)
    requires First(t, c)
    ensures t == [c] + t[1..]
  {
  }

  /** Whatever is read, a number with something to end it, is the text of a form behind a gap. */
  lemma {:induction false} ValueForm(text: string, nesting: nat) returns (gap: string, f: Form)
    requires ParseValue(text, nesting).Read?
    requires var r := ParseValue(text, nesting).value; Ended(r.value, r.rest)
    ensures Gap(gap) && Proper(f) && Meaning(f) == ParseValue(text, nesting).value.value
    ensures text == gap + (Written(f) + ParseValue(text, nesting).value.rest)
    decreases |text|, 2
  {
    hide ParseItems, ParseMembers, ParseScalar, Proper, Meaning, Written, Delimits;
    var t := SkipSpaces(text);
    gap := SkippedGap(text);
    if t[0] == '{' {
      f := ObjectForm(t, nesting);
    } else if t[0] == '[' {
      f := ArrayForm(t, nesting);
    } else {
      f := ScalarForm(t);
    }
  }

  lemma {:induction false} ArrayForm(t: string, nesting: nat) returns (f: Form)
    requires First(t, '[') && ParseArray(t, nesting + 1).Read?
    ensures Proper(f) && Meaning(f) == ParseArray(t, nesting + 1).value.value
    ensures t == Written(f) + ParseArray(t, nesting + 1).value.rest
    decreases |t|, 1
  {
    hide ParseItems, SkipSpaces, Delimits;
    var u := SkipSpaces(t[1..]);
    var gap := AfterSpaces(t[1..]);
    BracketApart(t, '[');
    if First(u, ']') {
      f := NoElems(gap);
      BracketApart(u, ']');
      EmptyApart("[", gap, "]", u[1..]);
    } else {
      var es := ItemsForm(u, nesting + 1, []);
      f := Elems(Widen(es, gap));
      WidenProper(es, gap);
      WidenIs(es, gap, "]" + ParseArray(t, nesting + 1).value.rest);
      assert [] + Meanings(es) == Meanings(es);
      Grouped("[", WrittenElems(Widen(es, gap)), "]", ParseArray(t, nesting + 1).value.rest);
    }
  }

  /** A gap more before the first element. */
  function Widen(es: seq<Elem>, gap: string): seq<Elem>
    requires es != []
  {
    [es[0].(before := gap + es[0].before)] + es[1..]
  }

  lemma WidenIs(es: seq<Elem>, gap: string, x: string)
    requires es != [] && Gap(gap)
    ensures WrittenElems(Widen(es, gap)) + x == gap + (WrittenElems(es) + x)
    ensures Meanings(Widen(es, gap)) == Meanings(es)
  {
    hide Proper, Written, Meaning, ProperElem;
    var e, ws := es[0], Widen(es, gap);
    assert ws[1..] == es[1..] && ws[0] == e.(before := gap + e.before);
    ElemsApart(es, x);
    ElemsApart(ws, x);
    hide WrittenElems, WrittenElem;
    assert Behind(ws, x) == Behind(es, x);
    Assoc(gap, e.before, Written(e.form) + (e.after + Behind(es, x)));
  }

  lemma WidenProper(es: seq<Elem>, gap: string)
    requires es != [] && Gap(gap) && forall i :: 0 <= i < |es| ==> ProperElem(es[i])
    ensures var ws := Widen(es, gap); ws != [] && forall i :: 0 <= i < |ws| ==> ProperElem(ws[i])
  {
    hide Proper;
    assert ProperElem(es[0]);
  }

  /** The elements behind one that a comma follows. */
  lemma {:induction false} ItemsForm(t: string, nesting: nat, before: seq<JSON>) returns (es: seq<Elem>)
    requires ParseItems(t, nesting, before).Read?
    ensures es != [] && forall i :: 0 <= i < |es| ==> ProperElem(es[i])
    ensures ParseItems(t, nesting, before).value.value == before + Meanings(es)
    ensures t == WrittenElems(es) + ("]" + ParseItems(t, nesting, before).value.rest)
    decreases |t|, 3
  {
    hide *;
    UnfoldItems(t, nesting, before);
    var v := ParseValue(t, nesting).value;
    var u := SkipSpaces(v.rest);
    var after := AfterSpaces(v.rest);
    StartsIs(u);
    DelimitsEnds(v.value, v.rest);
    var gap, f := ValueForm(t, nesting);
    var e := Elem(gap, f, after);
    if First(u, ',') {
      var gap' := AfterSpaces(u[1..]);
      var more := ItemsForm(SkipSpaces(u[1..]), nesting, before + [v.value]);
      var x := "]" + ParseItems(t, nesting, before).value.rest;
      WidenIs(more, gap', x);
      WidenProper(more, gap');
      es := [e] + Widen(more, gap');
      MoreElems(e, Widen(more, gap'), x, before);
    } else {
      es := [e];
      OneElem(e, "]" + ParseItems(t, nesting, before).value.rest, before);
    }
  }

  lemma StartsIs(u: string)
    ensures First(u, ',') ==> u != "" && u[0] in ",]}" && u == "," + u[1..]
    ensures First(u, ']') ==> u != "" && u[0] in ",]}" && u == "]" + u[1..]
    ensures First(u, '}') ==> u != "" && u[0] in ",]}" && u == "}" + u[1..]
  {
  }

  lemma OneElem(e: Elem, x: string, before: seq<JSON>)
    requires Gap(e.before) && Proper(e.form) && Gap(e.after)
    ensures ProperElem([e][0]) && WrittenElems([e]) + x == e.before + (Written(e.form) + (e.after + x))
    ensures before + Meanings([e]) == before + [Meaning(e.form)]
  {
    hide Proper, Written, Meaning;
    ElemApart(e, x);
    assert [e][1..] == [];
  }

  lemma MoreElems(e: Elem, more: seq<Elem>, x: string, before: seq<JSON>)
    requires Gap(e.before) && Proper(e.form) && Gap(e.after) && more != []
    ensures ProperElem(([e] + more)[0])
    ensures WrittenElems([e] + more) + x == e.before + (Written(e.form) + (e.after + ("," + (WrittenElems(more) + x))))
    ensures before + Meanings([e] + more) == before + [Meaning(e.form)] + Meanings(more)
  {
    hide Proper, Written, Meaning;
    var es := [e] + more;
    assert es[1..] == more;
    ElemApart(e, "," + (WrittenElems(more) + x));
    Separated(WrittenElem(e), WrittenElems(more), x);
  }

  lemma KeyForm(t: string) returns (c: string, after: string)
    requires ParseKey(t).Some?
    ensures Closed(c) && Decoded(c) == ParseKey(t).value.value && Gap(after)
    ensures t == Quotes(c) + (after + (":" + ParseKey(t).value.rest))
  {
    hide Quoted, Closed, Decoded, Quotes, SkipSpaces;
    c := QuotedForm(t);
    after := SkippedGap(t[Quoted(t).value.used..]);
    BracketApart(SkipSpaces(t[Quoted(t).value.used..]), ':');
  }

  /** A member, but for the gap behind it. */
  lemma {:induction false} MemberForm(t: string, nesting: nat, before: seq<Member>) returns (b: Bind)
    requires ParseMember(t, nesting, before).Read? && Delimits(ParseMember(t, nesting, before).value.rest)
    ensures var r := ParseMember(t, nesting, before).value;
            && b.before == "" && b.elem.after == "" && ProperBind(b) && t == Quotes(b.name) + AfterName(b, r.rest)
            && r.value == Member(Decoded(b.name), Meaning(b.elem.form)) && !Has(before, Decoded(b.name))
    decreases |t|, 3
  {
    hide ParseMember, ParseKey, ParseValue, Quotes, Written, Meaning, Proper, Closed, Decoded, Delimits, Has;
    UnfoldMember(t, nesting, before);
    var k := ParseKey(t).value;
    var c, after := KeyForm(t);
    DelimitsEnds(ParseValue(k.rest, nesting).value.value, ParseValue(k.rest, nesting).value.rest);
    var gap, f := ValueForm(k.rest, nesting);
    b := Bind("", c, after, Elem(gap, f, ""));
  }

  /** A gap more before the first member. */
  function WidenBinds(bs: seq<Bind>, gap: string): seq<Bind>
    requires bs != []
  {
    [bs[0].(before := gap + bs[0].before)] + bs[1..]
  }

  lemma WidenBindsIs(bs: seq<Bind>, gap: string, x: string)
    requires bs != [] && Gap(gap)
    ensures WrittenBinds(WidenBinds(bs, gap)) + x == gap + (WrittenBinds(bs) + x)
    ensures Bound(WidenBinds(bs, gap)) == Bound(bs)
  {
    hide Written, Meaning, Decoded, Quotes;
    var b, ws := bs[0], WidenBinds(bs, gap);
    assert ws[1..] == bs[1..] && ws[0] == b.(before := gap + b.before);
    BindsApart(bs, x);
    BindsApart(ws, x);
    hide WrittenBinds;
    assert BehindBind(ws, x) == BehindBind(bs, x);
    Assoc(gap, b.before, Quotes(b.name) + AfterName(b, b.elem.after + BehindBind(bs, x)));
  }

  lemma WidenBindsProper(bs: seq<Bind>, gap: string)
    requires bs != [] && Gap(gap) && forall i :: 0 <= i < |bs| ==> ProperBind(bs[i])
    ensures var ws := WidenBinds(bs, gap); ws != [] && forall i :: 0 <= i < |ws| ==> ProperBind(ws[i])
  {
    hide Proper, Closed;
    assert ProperBind(bs[0]);
  }

  /** A member with the gap behind it. */
  function Followed(b: Bind, after: string): Bind {
    b.(elem := b.elem.(after := after))
  }

  lemma OneBind(b: Bind, after: string, x: string, before: seq<Member>)
    requires ProperBind(b) && Gap(after) && b.before == ""
    ensures ProperBind([Followed(b, after)][0])
    ensures WrittenBinds([Followed(b, after)]) + x == Quotes(b.name) + AfterName(b, after + x)
    ensures before + Bound([Followed(b, after)]) == before + [Member(Decoded(b.name), Meaning(b.elem.form))]
  {
    hide Proper, Written, Meaning, Closed, Decoded, Quotes;
    var bs := [Followed(b, after)];
    assert bs[1..] == [];
    BindsApart(bs, x);
  }

  lemma MoreBinds(b: Bind, after: string, more: seq<Bind>, x: string, before: seq<Member>)
    requires ProperBind(b) && Gap(after) && b.before == "" && more != []
    ensures ProperBind(([Followed(b, after)] + more)[0])
    ensures WrittenBinds([Followed(b, after)] + more) + x ==
            Quotes(b.name) + AfterName(b, after + ("," + (WrittenBinds(more) + x)))
    ensures before + Bound([Followed(b, after)] + more) ==
            before + [Member(Decoded(b.name), Meaning(b.elem.form))] + Bound(more)
  {
    hide Proper, Written, Meaning, Closed, Decoded, Quotes;
    var bs := [Followed(b, after)] + more;
    assert bs[1..] == more;
    BindsApart(bs, x);
  }

  lemma {:induction false} MembersForm(t: string, nesting: nat, before: seq<Member>) returns (bs: seq<Bind>)
    requires ParseMembers(t, nesting, before).Read? && DistinctNames(before)
    ensures bs != [] && forall i :: 0 <= i < |bs| ==> ProperBind(bs[i])
    ensures ParseMembers(t, nesting, before).value.value == before + Bound(bs) && DistinctNames(before + Bound(bs))
    ensures t == WrittenBinds(bs) + ("}" + ParseMembers(t, nesting, before).value.rest)
    decreases |t|, 4
  {
    hide *;
    UnfoldMembers(t, nesting, before);
    var m := ParseMember(t, nesting, before).value;
    var u := SkipSpaces(m.rest);
    var after := AfterSpaces(m.rest);
    StartsIs(u);
    var b := MemberForm(t, nesting, before);
    SnocDistinct(before, m.value);
    var x := "}" + ParseMembers(t, nesting, before).value.rest;
    if First(u, ',') {
      var gap := AfterSpaces(u[1..]);
      var more := MembersForm(SkipSpaces(u[1..]), nesting, before + [m.value]);
      WidenBindsIs(more, gap, x);
      WidenBindsProper(more, gap);
      bs := [Followed(b, after)] + WidenBinds(more, gap);
      MoreBinds(b, after, WidenBinds(more, gap), x, before);
    } else {
      bs := [Followed(b, after)];
      OneBind(b, after, x, before);
    }
  }

  lemma {:induction false} ObjectForm(t: string, nesting: nat) returns (f: Form)
    requires First(t, '{') && ParseObject(t, nesting + 1).Read?
    ensures Proper(f) && Meaning(f) == ParseObject(t, nesting + 1).value.value
    ensures t == Written(f) + ParseObject(t, nesting + 1).value.rest
    decreases |t|, 1
  {
    hide ParseMembers, SkipSpaces, Delimits;
    var u := SkipSpaces(t[1..]);
    var gap := AfterSpaces(t[1..]);
    BracketApart(t, '{');
    if First(u, '}') {
      f := NoBinds(gap);
      BracketApart(u, '}');
      EmptyApart("{", gap, "}", u[1..]);
    } else {
      var bs := MembersForm(u, nesting + 1, []);
      f := Binds(WidenBinds(bs, gap));
      WidenBindsProper(bs, gap);
      WidenBindsIs(bs, gap, "}" + ParseObject(t, nesting + 1).value.rest);
      assert [] + Bound(bs) == Bound(bs);
      Grouped("{", WrittenBinds(WidenBinds(bs, gap)), "}", ParseObject(t, nesting + 1).value.rest);
    }
  }
}
