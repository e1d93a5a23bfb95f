/** JSON with comments: a comment outside strings is overwritten with spaces before parsing. */
module Comments {
  import opened Wrappers
  import opened CStrings
  import opened Numbers
  import opened Escapes
  import opened JsonValue
  import opened JsonPrint
  import opened JsonParse
  import opened JsonParser
  import opened Grammar
  import opened RoundTrip

  datatype State = State(inString: bool, escaped: bool)

  const OUTSIDE := State(false, false)
  const INSIDE := State(true, false)

  function NextState(c: char, s: State): State {
    if c == '\\' && !s.escaped then State(s.inString, true)
    else if c == '\"' && !s.escaped then State(!s.inString, false)
    else State(s.inString, false)
  }

  function After(t: string, s: State): State {
    if t == "" then s else After(t[1..], NextState(t[0], s))
  }

  function Blanks(n: nat): (r: string)
    ensures |r| == n
  {
    seq(n, _ => ' ')
  }

  lemma BlanksAre(n: nat)
    ensures forall i :: 0 <= i < n ==> Blanks(n)[i] == ' '
  {
  }

  /** strstr: the first place of tok in t. */
  function IndexOf(t: string, tok: string): (k: Option<nat>)
    ensures k.Some? ==> k.value + |tok| <= |t|
  {
    if Begins(t, tok) then Some(0)
    else if t == "" then None
    else
      match IndexOf(t[1..], tok)
      case None => None
      case Some(k) => Some(k + 1)
  }

  /** In other words, tok stands there and nowhere before. */
  lemma {:induction false} IndexOfMeans(t: string, tok: string, i: nat)
    requires i <= |t|
    ensures IndexOf(t, tok) == Some(i) <==> Begins(t[i..], tok) && forall j :: 0 <= j < i ==> !Begins(t[j..], tok)
    ensures IndexOf(t, tok) == None ==> !Begins(t[i..], tok)
    decreases i
  {
    assert t[0..] == t;
    if i > 0 {
      IndexOfMeans(t[1..], tok, i - 1);
      assert t[1..][i-1..] == t[i..];
      forall j | 0 < j < i ensures t[j..] == t[1..][j-1..] {
      }
      assert forall j :: 0 <= j < i - 1 ==> t[1..][j..] == t[j+1..];
    }
  }

  /** A comment starts here: quotes and backslashes are looked at first. */
  predicate Starts(t: string, s: State, st: string) {
    && t != "" && !s.inString && Begins(t, st)
    && (s.escaped || (t[0] != '\\' && t[0] != '\"'))
  }

  /** Where the comment ends that t starts with. */
  function CommentEnd(t: string, st: string, en: string): (n: Option<nat>)
    requires |st| <= |t|
    ensures n.Some? ==> |st| + |en| <= n.value <= |t|
  {
    match IndexOf(t[|st|..], en)
    case None => None
    case Some(k) => Some(|st| + k + |en|)
  }

  /** t read from state s, its comments blanked; an unended comment loses its start token only. */
  function Strip(t: string, s: State, st: string, en: string): (r: string)
    requires st != ""
    ensures |r| == |t|
    decreases |t|
  {
    if t == "" then ""
    else if !Starts(t, s, st) then [t[0]] + Strip(t[1..], NextState(t[0], s), st, en)
    else
      match CommentEnd(t, st, en)
      case None => Blanks(|st|) + t[|st|..]
      case Some(n) => Blanks(n) + Strip(t[n..], OUTSIDE, st, en)
  }

  function Stripped(t: string, st: string, en: string): (r: string)
    ensures |r| == |t|
  {
    if st == "" || en == "" then t else Strip(t, OUTSIDE, st, en)
  }

  /** json_parse_string_with_comments; no byte order mark is looked for. */
  function ParseWithComments(t: string): Outcome<JSON> {
    var r :- ParseValue(Stripped(Stripped(t, "/*", "*/"), "//", "\n"), 0);
    Read(r.value)
  }

  // ---------------------------------------------------------------- texts without comments

  /** No slash outside strings. */
  predicate Quiet(t: string, s: State) {
    t == "" || ((s.inString || t[0] != '/') && Quiet(t[1..], NextState(t[0], s)))
  }

  lemma {:induction false} QuietJoin(a: string, b: string, s: State)
    ensures Quiet(a + b, s) <==> Quiet(a, s) && Quiet(b, After(a, s))
    ensures After(a + b, s) == After(b, After(a, s))
  {
    if a == "" {
      assert a + b == b;
    } else {
      assert (a + b)[1..] == a[1..] + b;
      QuietJoin(a[1..], b, NextState(a[0], s));
    }
  }

  /** A comment can only start at a slash. */
  lemma {:induction false} QuietPrefix(a: string, x: string, s: State, st: string, en: string)
    requires Quiet(a, s) && st != "" && st[0] == '/'
    ensures Strip(a + x, s, st, en) == a + Strip(x, After(a, s), st, en)
  {
    if a == "" {
      assert a + x == x;
    } else {
      assert (a + x)[1..] == a[1..] + x && (a + x)[0] == a[0];
      NoStart(a + x, s, st);
      QuietPrefix(a[1..], x, NextState(a[0], s), st, en);
      assert a == [a[0]] + a[1..];
    }
  }

  lemma NoStart(t: string, s: State, st: string)
    requires t != "" && st != "" && st[0] == '/' && (s.inString || t[0] != '/')
    ensures !Starts(t, s, st)
  {
  }

  /** Quiet, and back outside strings at the end. */
  predicate Bare(t: string) {
    Quiet(t, OUTSIDE) && After(t, OUTSIDE) == OUTSIDE
  }

  lemma BareStays(t: string, st: string, en: string)
    requires Bare(t) && st != "" && st[0] == '/'
    ensures Stripped(t, st, en) == t
  {
    QuietPrefix(t, "", OUTSIDE, st, en);
    assert t + "" == t;
  }

  // ---------------------------------------------------------------- comments go

  lemma StripUnfold(t: string, s: State, st: string, en: string, n: nat)
    requires Starts(t, s, st) && st != "" && CommentEnd(t, st, en) == Some(n)
    ensures Strip(t, s, st, en) == Blanks(n) + Strip(t[n..], OUTSIDE, st, en)
  {
    hide CommentEnd, Blanks;
  }

  lemma StartsHere(st: string, x: string)
    requires st != "" && st[0] == '/'
    ensures Starts(st + x, OUTSIDE, st) && (st + x)[|st|..] == x
  {
  }

  lemma BareBefore(a: string, x: string, st: string, en: string)
    requires Bare(a) && st != "" && st[0] == '/' && en != ""
    ensures Stripped(a + x, st, en) == a + Stripped(x, st, en)
  {
    QuietPrefix(a, x, OUTSIDE, st, en);
  }

  lemma CommentAlone(c: string, b: string, st: string, en: string)
    requires st != "" && st[0] == '/' && en != "" && IndexOf(c + en + b, en) == Some(|c|)
    ensures Stripped(st + (c + en + b), st, en) == Blanks(|st| + |c| + |en|) + Stripped(b, st, en)
  {
    StartsHere(st, c + en + b);
    Ended(st, c, en, b);
    hide CommentEnd, Blanks, Starts;
    StripUnfold(st + (c + en + b), OUTSIDE, st, en, |st| + |c| + |en|);
  }

  lemma Ended(st: string, c: string, en: string, b: string)
    requires IndexOf(c + en + b, en) == Some(|c|)
    ensures CommentEnd(st + (c + en + b), st, en) == Some(|st| + |c| + |en|)
    ensures (st + (c + en + b))[|st| + |c| + |en|..] == b
  {
    assert (st + (c + en + b))[|st|..] == c + en + b;
  }

  /** A comment after plain text becomes spaces, exactly up to the first end token, whatever is in it. */
  lemma CommentGone(a: string, c: string, b: string, st: string, en: string)
    requires Bare(a) && st != "" && st[0] == '/' && en != "" && IndexOf(c + en + b, en) == Some(|c|)
    ensures Stripped(a + (st + (c + en + b)), st, en) == a + (Blanks(|st| + |c| + |en|) + Stripped(b, st, en))
  {
    hide *;
    BareBefore(a, st + (c + en + b), st, en);
    CommentAlone(c, b, st, en);
  }

  /** A comment that is not ended loses its start token and stays otherwise. */
  lemma CommentOpen(a: string, c: string, st: string, en: string)
    requires Bare(a) && st != "" && st[0] == '/' && en != "" && IndexOf(c, en) == None
    ensures Stripped(a + (st + c), st, en) == a + (Blanks(|st|) + c)
  {
    StartsHere(st, c);
    hide Bare, IndexOf, Blanks, Starts;
    BareBefore(a, st + c, st, en);
  }

  // ---------------------------------------------------------------- printed texts are plain

  predicate Dull(t: string) {
    forall i :: 0 <= i < |t| ==> t[i] != '/' && t[i] != '\\' && t[i] != '\"'
  }

  lemma {:induction false} DullBare(t: string)
    requires Dull(t)
    ensures Bare(t)
  {
    if t != "" {
      DullBare(t[1..]);
    }
  }

  lemma BareJoin(a: string, b: string)
    requires Bare(a) && Bare(b)
    ensures Bare(a + b)
  {
    QuietJoin(a, b, OUTSIDE);
  }

  lemma BareJoin3(a: string, b: string, c: string)
    requires Bare(a) && Bare(b) && Bare(c)
    ensures Bare(a + b + c)
  {
    BareJoin(a, b);
    BareJoin(a + b, c);
  }

  lemma BareJoin5(a: string, b: string, c: string, d: string, e: string)
    requires Bare(a) && Bare(b) && Bare(c) && Bare(d) && Bare(e)
    ensures Bare(a + b + c + d + e)
  {
    BareJoin3(a, b, c);
    BareJoin3(a + b + c, d, e);
  }

  /** a is read inside a literal, and it is not over at its end. */
  predicate Inside(a: string, s: State) {
    s.inString && (a == "" || Inside(a[1..], NextState(a[0], s)))
  }

  lemma {:induction false} InsideJoin(a: string, b: string, s: State)
    requires Inside(a, s) && Inside(b, After(a, s))
    ensures Inside(a + b, s) && After(a + b, s) == After(b, After(a, s))
  {
    if a == "" {
      assert a + b == b;
    } else {
      assert (a + b)[1..] == a[1..] + b;
      InsideJoin(a[1..], b, NextState(a[0], s));
    }
  }

  /** Characters other than the quote and the backslash stay inside. */
  lemma {:induction false} PlainInside(a: string)
    requires forall i :: 0 <= i < |a| ==> a[i] != '\\' && a[i] != '\"'
    ensures Inside(a, INSIDE) && After(a, INSIDE) == INSIDE
  {
    if a != "" {
      PlainInside(a[1..]);
    }
  }

  lemma SlashInside(x: char)
    ensures Inside(['\\', x], INSIDE) && After(['\\', x], INSIDE) == INSIDE
  {
    var t := ['\\', x];
    assert t[1..] == [x] && [x][1..] == "";
    assert NextState('\\', INSIDE) == State(true, true) && NextState(x, State(true, true)) == INSIDE;
    assert Inside("", INSIDE) && Inside([x], State(true, true));
    assert After([x], State(true, true)) == After("", INSIDE);
  }

  lemma {:induction false} EscInside(s: string)
    ensures Inside(EscString(s), INSIDE) && After(EscString(s), INSIDE) == INSIDE
  {
    if s != "" {
      EscCharInside(s[0]);
      EscInside(s[1..]);
      InsideJoin(EscChar(s[0]), EscString(s[1..]), INSIDE);
    }
  }

  lemma EscCharInside(c: char)
    ensures Inside(EscChar(c), INSIDE) && After(EscChar(c), INSIDE) == INSIDE
  {
    EscCharShape(c);
    var e := EscChar(c);
    if |e| == 6 {
      SlashInside('u');
      PlainInside(U4(c as int));
      InsideJoin("\\u", U4(c as int), INSIDE);
    } else if |e| == 2 {
      SlashInside(e[1]);
    } else {
      PlainInside(e);
    }
  }

  lemma {:induction false} InsideQuiet(a: string, s: State)
    requires Inside(a, s)
    ensures Quiet(a, s)
  {
    if a != "" {
      InsideQuiet(a[1..], NextState(a[0], s));
    }
  }

  lemma QuoteBare(s: string)
    ensures Bare(Quote(s))
  {
    EscInside(s);
    InsideQuiet(EscString(s), INSIDE);
    var q := "\"";
    assert q[1..] == "";
    QuietJoin(q, EscString(s), OUTSIDE);
    QuietJoin(q + EscString(s), q, OUTSIDE);
  }

  lemma LayoutBare(level: nat, pretty: bool, more: bool)
    ensures Bare(Newline(pretty)) && Bare(Indent(level, pretty)) && Bare(Between(more, level, pretty))
  {
    SpacesGap(level);
    SpacesGap(level + 1);
    DullBare(Newline(pretty));
    DullBare(Indent(level, pretty));
    DullBare(Between(more, level, pretty));
  }

  lemma IntBare(n: int)
    ensures Bare(IntText(n))
  {
    var s := NatText(if n < 0 then -n else n);
    assert forall i :: 0 <= i < |s| ==> IsDigit(s[i]);
    DullBare(IntText(n));
  }

  lemma {:induction false} TextBare(v: JSON, level: nat, pretty: bool)
    ensures Bare(Text(v, level, pretty))
    decreases v, 1
  {
    hide Bare, Quote, IntText;
    match v
    case JNull => DullBare("null");
    case JBool(b) => DullBare(if b then "true" else "false");
    case JNum(n) => IntBare(n);
    case JStr(s) => QuoteBare(s);
    case JArr(items) => ArrayBare(items, level, pretty);
    case JObj(ms) => ObjectBare(ms, level, pretty);
  }

  lemma BracketsBare()
    ensures Bare("[") && Bare("]") && Bare("{") && Bare("}") && Bare("[]") && Bare("{}")
    ensures Bare("") && Bare(":") && Bare(" ")
  {
    DullBare("[");
    DullBare("]");
    DullBare("{");
    DullBare("}");
    DullBare("[]");
    DullBare("{}");
    DullBare(":");
    DullBare(" ");
  }

  lemma {:induction false} ArrayBare(xs: seq<JSON>, level: nat, pretty: bool)
    ensures Bare(Text(JArr(xs), level, pretty))
    decreases xs, 1
  {
    hide Bare, Items, Newline, Indent;
    ItemsBare(xs, level, pretty);
    LayoutBare(level + 1, pretty, true);
    BracketsBare();
    BareJoin5("[", Newline(pretty), Indent(level + 1, pretty), Items(xs, level, pretty), "]");
  }

  lemma {:induction false} ObjectBare(ms: seq<Member>, level: nat, pretty: bool)
    ensures Bare(Text(JObj(ms), level, pretty))
    decreases ms, 1
  {
    hide Bare, Members, Newline, Indent;
    MembersBare(ms, level, pretty);
    LayoutBare(level + 1, pretty, true);
    BracketsBare();
    BareJoin5("{", Newline(pretty), Indent(level + 1, pretty), Members(ms, level, pretty), "}");
  }

  lemma {:induction false} ItemsBare(xs: seq<JSON>, level: nat, pretty: bool)
    ensures Bare(Items(xs, level, pretty))
    decreases xs, 0
  {
    if xs == [] {
      BracketsBare();
    } else {
      hide Text, Between, Bare;
      TextBare(xs[0], level + 1, pretty);
      LayoutBare(level, pretty, |xs| > 1);
      ItemsBare(xs[1..], level, pretty);
      BareJoin3(Text(xs[0], level + 1, pretty), Between(|xs| > 1, level, pretty), Items(xs[1..], level, pretty));
    }
  }

  lemma {:induction false} MembersBare(ms: seq<Member>, level: nat, pretty: bool)
    ensures Bare(Members(ms, level, pretty))
    decreases ms, 0
  {
    if ms == [] {
      BracketsBare();
    } else {
      hide Text, Between, Bare, Quote;
      TextBare(ms[0].value, level + 1, pretty);
      NamedBare(ms[0], level, pretty);
      LayoutBare(level, pretty, |ms| > 1);
      MembersBare(ms[1..], level, pretty);
      BareJoin3(Named(ms[0], level, pretty), Between(|ms| > 1, level, pretty), Members(ms[1..], level, pretty));
    }
  }

  lemma NamedBare(m: Member, level: nat, pretty: bool)
    requires Bare(Text(m.value, level + 1, pretty))
    ensures Bare(Named(m, level, pretty))
  {
    hide Text, Quote, Bare;
    QuoteBare(m.name);
    BracketsBare();
    var blank := if pretty then " " else "";
    BareJoin3(Quote(m.name), ":", blank);
    BareJoin(Quote(m.name) + ":" + blank, Text(m.value, level + 1, pretty));
  }

  /** Printed text has no comments: it reads the same with comments allowed, slashes in strings and all. */
  lemma PrintedHasNoComments(v: JSON, pretty: bool)
    requires Good(v) && FitsAt(v, 0)
    ensures ParseWithComments(Text(v, 0, pretty)) == Read(v)
  {
    hide *;
    var t := Text(v, 0, pretty);
    TextBare(v, 0, pretty);
    BareStays(t, "/*", "*/");
    BareStays(t, "//", "\n");
    TextAlone(v, pretty);
    ParsedAs(t, t, t, v, "");
  }

  lemma BlanksBare(n: nat)
    ensures Bare(Blanks(n)) && Gap(Blanks(n))
  {
    BlanksAre(n);
    DullBare(Blanks(n));
  }

  lemma CommentThenBare(c: string, t: string)
    requires Bare(t) && IndexOf(c + "*/" + t, "*/") == Some(|c|)
    ensures Stripped("/*" + (c + "*/" + t), "/*", "*/") == Blanks(2 + |c| + 2) + t
  {
    BracketsBare();
    hide Stripped, Bare, IndexOf;
    CommentGone("", c, t, "/*", "*/");
    BareStays(t, "/*", "*/");
    NothingBefore("/*" + (c + "*/" + t));
    NothingBefore(Blanks(|"/*"| + |c| + |"*/"|) + t);
  }

  lemma NothingBefore(x: string)
    ensures "" + x == x
  {
  }

  lemma ParsedAs(x: string, y: string, z: string, v: JSON, rest: string)
    requires Stripped(x, "/*", "*/") == y && Stripped(y, "//", "\n") == z && ParseValue(z, 0) == Read(Parsed(v, rest))
    ensures ParseWithComments(x) == Read(v)
  {
    hide Stripped, ParseValue;
  }

  /** A comment before a printed value, whatever it says, is as good as none. */
  lemma LeadingComment(v: JSON, pretty: bool, c: string)
    requires Good(v) && FitsAt(v, 0) && IndexOf(c + "*/" + Text(v, 0, pretty), "*/") == Some(|c|)
    ensures ParseWithComments("/*" + (c + "*/" + Text(v, 0, pretty))) == Read(v)
  {
    hide *;
    var t, w := Text(v, 0, pretty), Blanks(2 + |c| + 2);
    TextBare(v, 0, pretty);
    CommentThenBare(c, t);
    BlanksBare(2 + |c| + 2);
    BareJoin(w, t);
    BareStays(w + t, "//", "\n");
    GapBeforeValue(w, t, 0);
    TextAlone(v, pretty);
    ParsedAs("/*" + (c + "*/" + t), w + t, w + t, v, "");
  }

  // ---------------------------------------------------------------- the code

  /** Whether tok stands at p; reading stops at the terminator. */
  method StandsAt(a: array<char>, p: nat, tok: string) returns (yes: bool)
    requires Terminated(a[..]) && p < a.Length && IsText(tok)
    ensures yes == Begins(From(a[..], p), tok)
  {
    var i := 0;
    var m := a[..];
    while i < |tok|
      invariant i <= |tok| && p + i < a.Length && From(m, p)[..i] == tok[..i]
    {
      TextAt(m, p + i);
      if a[p + i] != tok[i] {
        assert i < |From(m, p)| ==> From(m, p)[i] == a[p + i];
        return false;
      }
      assert From(m, p)[..i+1] == From(m, p)[..i] + [a[p + i]];
      i := i + 1;
    }
    return true;
  }

  lemma TextAt(m: string, p: nat)
    requires Terminated(m) && p < |m|
    ensures m[p] == NUL <==> p == |m| - 1
  {
    if p < |m| - 1 {
      assert m[..|m|-1][p] == m[p];
    }
  }

  lemma OneOn(m: string, p: nat)
    requires Terminated(m) && p + 1 < |m|
    ensures From(m, p) != "" && From(m, p)[1..] == From(m, p + 1)
  {
  }

  /** strstr from p on. */
  method Strstr(a: array<char>, p: nat, tok: string) returns (r: Option<nat>)
    requires Terminated(a[..]) && p < a.Length && IsText(tok)
    ensures r == IndexOf(From(a[..], p), tok)
  {
    var m := a[..];
    var q := p;
    while true
      invariant p <= q < a.Length
      invariant IndexOf(From(m, p), tok) ==
                match IndexOf(From(m, q), tok) case None => None case Some(k) => Some(k + (q - p))
      decreases a.Length - q
    {
      var here := StandsAt(a, q, tok);
      if here {
        return Some(q - p);
      }
      TextAt(m, q);
      if a[q] == NUL {
        return None;
      }
      OneOn(m, q);
      q := q + 1;
    }
  }

  /** m with spaces from p up to q. */
  function Blanked(m: string, p: nat, q: nat): string
    requires p <= q <= |m|
  {
    m[..p] + Blanks(q - p) + m[q..]
  }

  lemma BlankedNext(m: string, p: nat, i: nat)
    requires p <= i < |m|
    ensures |Blanked(m, p, i)| == |m| && Blanked(m, p, i)[i := ' '] == Blanked(m, p, i + 1)
  {
    BlanksAre(i - p);
    BlanksAre(i + 1 - p);
  }

  /** Spaces from p up to q. */
  method BlankOut(a: array<char>, p: nat, q: nat)
    requires p <= q <= a.Length
    modifies a
    ensures a[..] == Blanked(old(a[..]), p, q)
  {
    ghost var m := a[..];
    assert Blanked(m, p, p) == m;
    hide Blanked;
    for i := p to q
      invariant a[..] == Blanked(m, p, i)
    {
      BlankedNext(m, p, i);
      a[i] := ' ';
    }
  }

  // ---------------------------------------------------------------- the whole pass

  /** What is done before p and still to be stripped from p on makes up the result. */
  ghost predicate HalfStripped(m: string, p: nat, s: State, st: string, en: string, whole: string) {
    && Terminated(m) && p < |m| && st != ""
    && m[..p] + Strip(From(m, p), s, st, en) == whole
  }

  lemma HalfStrippedStart(m: string, st: string, en: string)
    requires Terminated(m) && st != "" && en != ""
    ensures HalfStripped(m, 0, OUTSIDE, st, en, Stripped(From(m, 0), st, en))
  {
    assert m[..0] + Stripped(From(m, 0), st, en) == Stripped(From(m, 0), st, en);
  }

  lemma HalfStrippedEnd(m: string, p: nat, s: State, st: string, en: string, whole: string)
    requires HalfStripped(m, p, s, st, en, whole) && m[p] == NUL
    ensures From(m, 0) == whole
  {
    TextAt(m, p);
    assert m[..p] + "" == m[..p];
  }

  lemma HalfStrippedChar(m: string, p: nat, s: State, st: string, en: string, whole: string)
    requires HalfStripped(m, p, s, st, en, whole) && m[p] != NUL && !Starts(From(m, p), s, st)
    ensures HalfStripped(m, p + 1, NextState(m[p], s), st, en, whole)
  {
    TextAt(m, p);
    OneOn(m, p);
    hide Starts, NextState;
    assert From(m, p)[0] == m[p];
    assert m[..p] + ([m[p]] + Strip(From(m, p + 1), NextState(m[p], s), st, en)) ==
           m[..p+1] + Strip(From(m, p + 1), NextState(m[p], s), st, en);
  }

  lemma BlankedText(m: string, p: nat, q: nat)
    requires Terminated(m) && p <= q < |m|
    ensures var b := Blanked(m, p, q);
            |b| == |m| && Terminated(b) && b[..q] == m[..p] + Blanks(q - p) && From(b, q) == From(m, q)
  {
    var b := Blanked(m, p, q);
    forall i | 0 <= i < |b| - 1 ensures 0 < b[i] as int < 256 {
      assert b[i] == if p <= i < q then ' ' else m[i];
      assert m[..|m|-1][i] == m[i];
    }
  }

  lemma BlankedTwice(m: string, p: nat, q: nat, r: nat)
    requires p <= q <= r <= |m|
    ensures |Blanked(m, p, q)| == |m| && Blanked(Blanked(m, p, q), q, r) == Blanked(m, p, r)
  {
  }

  lemma FromOn(m: string, p: nat, n: nat)
    requires p + n < |m|
    ensures |From(m, p)| >= n && From(m, p)[n..] == From(m, p + n)
  {
  }

  lemma HalfStrippedIs(m: string, p: nat, s: State, st: string, en: string, whole: string)
    requires HalfStripped(m, p, s, st, en, whole)
    ensures Terminated(m) && p < |m| && st != "" && m[..p] + Strip(From(m, p), s, st, en) == whole
  {
  }

  lemma BlankedHalf(m: string, p: nat, q: nat, st: string, en: string, whole: string)
    requires Terminated(m) && p <= q < |m| && st != ""
    requires m[..p] + (Blanks(q - p) + Strip(From(m, q), OUTSIDE, st, en)) == whole
    ensures HalfStripped(Blanked(m, p, q), q, OUTSIDE, st, en, whole)
  {
    BlankedText(m, p, q);
    hide Blanked, Blanks, Strip, From, Terminated;
    Assoc(m[..p], Blanks(q - p), Strip(From(m, q), OUTSIDE, st, en));
  }

  lemma EndAt(m: string, p: nat, st: string, en: string, k: nat)
    requires p + |st| < |m| && IndexOf(From(m, p + |st|), en) == Some(k)
    ensures var t, n := From(m, p), |st| + k + |en|;
            |st| <= |t| && p + n < |m| && CommentEnd(t, st, en) == Some(n) && n <= |t| && t[n..] == From(m, p + n)
  {
    hide IndexOf;
    FromOn(m, p, |st|);
    assert |From(m, p + |st|)| == |m| - 1 - (p + |st|);
    FromOn(m, p, |st| + k + |en|);
  }

  lemma HalfStrippedComment(m: string, p: nat, s: State, st: string, en: string, whole: string, k: nat)
    requires HalfStripped(m, p, s, st, en, whole) && Starts(From(m, p), s, st)
    requires p + |st| < |m| && IndexOf(From(m, p + |st|), en) == Some(k)
    ensures var q := p + |st| + k + |en|;
            q < |m| && HalfStripped(Blanked(m, p, q), q, OUTSIDE, st, en, whole)
  {
    hide *;
    var t, n := From(m, p), |st| + k + |en|;
    HalfStrippedIs(m, p, s, st, en, whole);
    EndAt(m, p, st, en, k);
    StripUnfold(t, s, st, en, n);
    BlankedHalf(m, p, p + n, st, en, whole);
  }

  lemma HalfStrippedOpen(m: string, p: nat, s: State, st: string, en: string, whole: string)
    requires HalfStripped(m, p, s, st, en, whole) && Starts(From(m, p), s, st)
    requires p + |st| < |m| && IndexOf(From(m, p + |st|), en) == None
    ensures Terminated(Blanked(m, p, p + |st|)) && From(Blanked(m, p, p + |st|), 0) == whole
  {
    var t, q := From(m, p), p + |st|;
    assert t[|st|..] == From(m, q);
    BlankedText(m, p, q);
    hide Starts, IndexOf;
    var b := Blanked(m, p, q);
    assert From(b, 0) == b[..q] + From(b, q);
    assert m[..p] + (Blanks(q - p) + From(m, q)) == m[..p] + Blanks(q - p) + From(m, q);
  }

  lemma StartsInside(m: string, p: nat, s: State, st: string)
    requires Terminated(m) && p < |m| && Starts(From(m, p), s, st)
    ensures p + |st| < |m|
  {
  }

  /** The start token blanked. */
  lemma StartBlanked(m: string, p: nat, s: State, st: string, en: string, whole: string)
    requires HalfStripped(m, p, s, st, en, whole) && Starts(From(m, p), s, st)
    ensures var q := p + |st|;
            && q < |m| && st != "" && |Blanked(m, p, q)| == |m| && Terminated(Blanked(m, p, q))
            && From(Blanked(m, p, q), q) == From(m, q)
  {
    StartsInside(m, p, s, st);
    BlankedText(m, p, p + |st|);
  }

  /** A comment at p: where scanning goes on, or that nothing is left to do. */
  method StripComment(a: array<char>, p: nat, ghost s: State, st: string, en: string, ghost whole: string)
    returns (ended: bool, q: nat)
    requires p < a.Length && HalfStripped(a[..], p, s, st, en, whole)
    requires Starts(From(a[..], p), s, st) && IsText(en) && en != ""
    modifies a
    ensures if ended then p < q < a.Length && HalfStripped(a[..], q, OUTSIDE, st, en, whole)
            else Terminated(a[..]) && From(a[..], 0) == whole
  {
    hide *;
    ghost var m := a[..];
    StartBlanked(m, p, s, st, en, whole);
    q := p + |st|;
    BlankOut(a, p, q);
    var k := Strstr(a, q, en);
    ended := k.Some?;
    if ended {
      var r := q + k.value + |en|;
      HalfStrippedComment(m, p, s, st, en, whole, k.value);
      BlankedTwice(m, p, q, r);
      BlankOut(a, q, r);
      q := r;
    } else {
      HalfStrippedOpen(m, p, s, st, en, whole);
    }
  }

  /** remove_comments, in place; no write falls on or beyond the terminator. */
  method RemoveComments(a: array<char>, st: string, en: string)
    requires Terminated(a[..]) && IsText(st) && IsText(en)
    modifies a
    ensures Terminated(a[..]) && From(a[..], 0) == Stripped(From(old(a[..]), 0), st, en)
  {
    if st == "" || en == "" {
      return;
    }
    ghost var whole := Stripped(From(a[..], 0), st, en);
    HalfStrippedStart(a[..], st, en);
    var p, inString, escaped := 0, false, false;
    while a[p] != NUL
      invariant p < a.Length && HalfStripped(a[..], p, State(inString, escaped), st, en, whole)
      decreases a.Length - p
    {
      ghost var s := State(inString, escaped);
      hide HalfStripped, Strip;
      if a[p] == '\\' && !escaped {
        HalfStrippedChar(a[..], p, s, st, en, whole);
        escaped := true;
        p := p + 1;
      } else if a[p] == '\"' && !escaped {
        HalfStrippedChar(a[..], p, s, st, en, whole);
        inString := !inString;
        escaped := false;
        p := p + 1;
      } else {
        var here := StandsAt(a, p, st);
        if !inString && here {
          var ended;
          ended, p := StripComment(a, p, s, st, en, whole);
          if !ended {
            return;
          }
          escaped := false;
        } else {
          HalfStrippedChar(a[..], p, s, st, en, whole);
          escaped := false;
          p := p + 1;
        }
      }
    }
    HalfStrippedEnd(a[..], p, State(inString, escaped), st, en, whole);
  }

  /** json_parse_string_with_comments on a terminated string, which is copied first. */
  method ParseStringWithComments(m: string) returns (r: Outcome<JSON>)
    requires Terminated(m)
    ensures r == ParseWithComments(From(m, 0))
  {
    var a := new char[|m|](i requires 0 <= i < |m| => m[i]);
    assert a[..] == m;
    hide Stripped, ParseValue, Terminated, From;
    RemoveComments(a, "/*", "*/");
    RemoveComments(a, "//", "\n");
    var q;
    r, q := ParseValueAt(a[..], 0, 0);
  }
}
