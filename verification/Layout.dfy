/**
 The layout of printed text.  Relaid lays a JSON text out anew, character by character and knowing
 nothing of values: white space outside literals is dropped, and for pretty text every element gets
 a line of its own, four spaces deeper than its bracket.
 */
module Layout {
  import opened CStrings
  import opened Numbers
  import opened Escapes
  import opened JsonValue
  import opened JsonPrint
  import opened Grammar
  import opened RoundTrip
  import opened Comments

  // ---------------------------------------------------------------- laying a text out anew

  predicate Opens(c: char) {
    c == '[' || c == '{'
  }

  predicate Closes(c: char) {
    c == ']' || c == '}'
  }

  function FourTimes(depth: int): string {
    if depth <= 0 then "" else seq(4 * depth, _ => ' ')
  }

  function Line(depth: int, pretty: bool): string {
    if pretty then "\n" + FourTimes(depth) else ""
  }

  /** t from state s on, with depth brackets open. */
  function Relaid(t: string, s: State, depth: int, pretty: bool): string
    decreases |t|
  {
    if t == "" then ""
    else
      var c, n := t[0], NextState(t[0], s);
      if s.inString || c == '\"' then [c] + Relaid(t[1..], n, depth, pretty)
      else if c as int in BLANKS then Relaid(t[1..], n, depth, pretty)
      else if Opens(c) then
        if |t| > 1 && Closes(t[1]) then t[..2] + Relaid(t[2..], NextState(t[1], n), depth, pretty)
        else [c] + Line(depth + 1, pretty) + Relaid(t[1..], n, depth + 1, pretty)
      else if Closes(c) then Line(depth - 1, pretty) + [c] + Relaid(t[1..], n, depth - 1, pretty)
      else if c == ',' then "," + Line(depth, pretty) + Relaid(t[1..], n, depth, pretty)
      else if c == ':' then ":" + (if pretty then " " else "") + Relaid(t[1..], n, depth, pretty)
      else [c] + Relaid(t[1..], n, depth, pretty)
  }

  // ---------------------------------------------------------------- its steps

  lemma {:induction false} RelaidGap(w: string, x: string, depth: int, pretty: bool)
    requires Gap(w)
    ensures Relaid(w + x, OUTSIDE, depth, pretty) == Relaid(x, OUTSIDE, depth, pretty)
  {
    if w == "" {
      assert w + x == x;
    } else {
      assert (w + x)[1..] == w[1..] + x;
      RelaidGap(w[1..], x, depth, pretty);
    }
  }

  /** Characters that neither quote nor lay out. */
  predicate Wordy(w: string) {
    forall i :: 0 <= i < |w| ==> w[i] !in "\"\\[]{},:" && w[i] as int !in BLANKS
  }

  lemma {:induction false} RelaidWord(w: string, x: string, depth: int, pretty: bool)
    requires Wordy(w)
    ensures Relaid(w + x, OUTSIDE, depth, pretty) == w + Relaid(x, OUTSIDE, depth, pretty)
  {
    if w == "" {
      assert w + x == x;
    } else {
      assert (w + x)[1..] == w[1..] + x;
      RelaidWord(w[1..], x, depth, pretty);
      assert w == [w[0]] + w[1..];
    }
  }

  lemma {:induction false} RelaidInside(a: string, x: string, s: State, depth: int, pretty: bool)
    requires Inside(a, s)
    ensures Relaid(a + x, s, depth, pretty) == a + Relaid(x, After(a, s), depth, pretty)
  {
    if a == "" {
      assert a + x == x;
    } else {
      assert (a + x)[1..] == a[1..] + x;
      RelaidInside(a[1..], x, NextState(a[0], s), depth, pretty);
      assert a == [a[0]] + a[1..];
    }
  }

  lemma RelaidQuote(s: string, x: string, depth: int, pretty: bool)
    ensures Relaid(Quote(s) + x, OUTSIDE, depth, pretty) == Quote(s) + Relaid(x, OUTSIDE, depth, pretty)
  {
    var e, t := EscString(s), "\"" + x;
    EscInside(s);
    hide EscString;
    RelaidInside(e, t, INSIDE, depth, pretty);
    assert Quote(s) + x == "\"" + (e + t) && ("\"" + (e + t))[1..] == e + t && t[1..] == x;
    assert NextState('\"', OUTSIDE) == INSIDE && NextState('\"', INSIDE) == OUTSIDE;
    assert Relaid(t, INSIDE, depth, pretty) == "\"" + Relaid(x, OUTSIDE, depth, pretty);
  }

  // ---------------------------------------------------------------- of separators and brackets

  lemma FourMore(n: nat)
    ensures FourTimes(n + 1) == "    " + FourTimes(n)
  {
  }

  lemma {:induction false} SpacesAre(n: nat)
    ensures Spaces(n) == FourTimes(n)
  {
    if n > 0 {
      SpacesAre(n - 1);
      FourMore(n - 1);
    }
  }

  lemma LineIs(level: nat, pretty: bool)
    ensures NewLine(level, pretty) == Line(level, pretty) && Gap(NewLine(level, pretty))
  {
    SpacesAre(level);
    SpacesGap(level);
  }

  lemma CommaStep(w: string, depth: int, pretty: bool)
    ensures Relaid("," + w, OUTSIDE, depth, pretty) == "," + (Line(depth, pretty) + Relaid(w, OUTSIDE, depth, pretty))
  {
    hide Line;
    assert ("," + w)[1..] == w;
  }

  lemma OpenStep(open: char, w: string, depth: int, pretty: bool)
    requires Opens(open) && w != "" && !Closes(w[0])
    ensures Relaid([open] + w, OUTSIDE, depth, pretty) ==
            [open] + (Line(depth + 1, pretty) + Relaid(w, OUTSIDE, depth + 1, pretty))
  {
    hide Line;
    assert ([open] + w)[1..] == w;
  }

  lemma OpenLine(level: nat, pretty: bool, x: string)
    requires x != "" && !Closes(x[0])
    ensures var w := NewLine(level, pretty) + x; w != "" && !Closes(w[0])
  {
    assert (NewLine(level, pretty) + x)[0] == if pretty then '\n' else x[0];
  }

  /** The separator behind an element, in whatever layout, gets the other one. */
  lemma RelaidComma(level: nat, was: bool, x: string, depth: nat, pretty: bool)
    ensures Relaid(Between(true, level, was) + x, OUTSIDE, depth + 1, pretty) ==
            Between(true, depth, pretty) + Relaid(x, OUTSIDE, depth + 1, pretty)
  {
    LineIs(level + 1, was);
    LineIs(depth + 1, pretty);
    LineOf(level, was);
    LineOf(depth, pretty);
    hide *;
    RelaidGap(NewLine(level + 1, was), x, depth + 1, pretty);
    Assoc(",", NewLine(level + 1, was), x);
    CommaStep(NewLine(level + 1, was) + x, depth + 1, pretty);
    Assoc(",", NewLine(depth + 1, pretty), Relaid(x, OUTSIDE, depth + 1, pretty));
  }

  lemma RelaidClose(level: nat, was: bool, close: char, x: string, depth: nat, pretty: bool)
    requires Closes(close)
    ensures Relaid(Between(false, level, was) + ([close] + x), OUTSIDE, depth + 1, pretty) ==
            Between(false, depth, pretty) + ([close] + Relaid(x, OUTSIDE, depth, pretty))
  {
    LineIs(level, was);
    LineIs(depth, pretty);
    LineOf(level, was);
    LineOf(depth, pretty);
    hide NewLine, Between, Line;
    var t := [close] + x;
    RelaidGap(NewLine(level, was), t, depth + 1, pretty);
    assert t[1..] == x;
  }

  /** Behind an opening bracket: the first line, unless the bracket closes at once. */
  lemma RelaidOpen(open: char, level: nat, was: bool, x: string, depth: nat, pretty: bool)
    requires Opens(open) && x != "" && !Closes(x[0])
    ensures Relaid([open] + (NewLine(level + 1, was) + x), OUTSIDE, depth, pretty) ==
            [open] + (NewLine(depth + 1, pretty) + Relaid(x, OUTSIDE, depth + 1, pretty))
  {
    LineIs(level + 1, was);
    LineIs(depth + 1, pretty);
    OpenLine(level + 1, was, x);
    hide *;
    RelaidGap(NewLine(level + 1, was), x, depth + 1, pretty);
    OpenStep(open, NewLine(level + 1, was) + x, depth, pretty);
  }

  // ---------------------------------------------------------------- of whole texts

  lemma ScalarRelaid(v: JSON, x: string, depth: nat, pretty: bool)
    requires !v.JArr? && !v.JObj?
    ensures var t := Text(v, 0, false);
            Relaid(t + x, OUTSIDE, depth, pretty) == t + Relaid(x, OUTSIDE, depth, pretty)
  {
    if v.JStr? {
      RelaidQuote(v.s, x, depth, pretty);
    } else {
      if v.JNum? {
        var s := NatText(if v.n < 0 then -v.n else v.n);
        assert forall i :: 0 <= i < |s| ==> IsDigit(s[i]);
      }
      RelaidWord(Text(v, 0, false), x, depth, pretty);
    }
  }

  lemma EmptyRelaid(t: string, x: string, depth: nat, pretty: bool)
    requires |t| == 2 && Opens(t[0]) && Closes(t[1])
    ensures Relaid(t + x, OUTSIDE, depth, pretty) == t + Relaid(x, OUTSIDE, depth, pretty)
  {
    assert (t + x)[..2] == t && (t + x)[2..] == x;
  }

  lemma TextStarts(v: JSON, level: nat, pretty: bool)
    ensures Text(v, level, pretty) != "" && !Closes(Text(v, level, pretty)[0])
  {
    IntHead(if v.JNum? then v.n else 0);
  }

  lemma Shifted(a: string, nl: string, ind: string, b: string, c: string, x: string)
    ensures a + nl + ind + b + c + x == a + ((nl + ind) + (b + (c + x)))
  {
  }

  lemma ArrayText(items: seq<JSON>, level: nat, pretty: bool, x: string)
    requires items != []
    ensures Text(JArr(items), level, pretty) + x ==
            ['['] + (NewLine(level + 1, pretty) + (Items(items, level, pretty) + ("]" + x)))
  {
    hide Items, Newline, Indent;
    Shifted("[", Newline(pretty), Indent(level + 1, pretty), Items(items, level, pretty), "]", x);
  }

  lemma ObjectText(ms: seq<Member>, level: nat, pretty: bool, x: string)
    requires ms != []
    ensures Text(JObj(ms), level, pretty) + x ==
            ['{'] + (NewLine(level + 1, pretty) + (Members(ms, level, pretty) + ("}" + x)))
  {
    hide Members, Newline, Indent;
    Shifted("{", Newline(pretty), Indent(level + 1, pretty), Members(ms, level, pretty), "}", x);
  }

  /**
   The text of a value, compact or pretty and at any depth, laid out anew is its text, compact or
   pretty, at the depth asked for.
   */
  lemma {:induction false} TextRelaid(v: JSON, level: nat, was: bool, x: string, depth: nat, pretty: bool)
    ensures Relaid(Text(v, level, was) + x, OUTSIDE, depth, pretty) ==
            Text(v, depth, pretty) + Relaid(x, OUTSIDE, depth, pretty)
    decreases v, 1
  {
    hide Relaid, Items, Members, Newline, Indent, Opens, Closes;
    if v.JArr? {
      ArrayRelaid(v.items, level, was, x, depth, pretty);
    } else if v.JObj? {
      ObjectRelaid(v.members, level, was, x, depth, pretty);
    } else {
      ScalarRelaid(v, x, depth, pretty);
    }
  }

  lemma {:induction false} ArrayRelaid(items: seq<JSON>, level: nat, was: bool, x: string, depth: nat, pretty: bool)
    ensures Relaid(Text(JArr(items), level, was) + x, OUTSIDE, depth, pretty) ==
            Text(JArr(items), depth, pretty) + Relaid(x, OUTSIDE, depth, pretty)
    decreases items, 1
  {
    if items == [] {
      EmptyRelaid("[]", x, depth, pretty);
    } else {
      hide *;
      ArrayText(items, level, was, x);
      ItemsStart(items, level, was, "]" + x);
      BracketsOpen();
      RelaidOpen('[', level, was, Items(items, level, was) + ("]" + x), depth, pretty);
      ItemsRelaid(items, level, was, x, depth, pretty);
      ArrayText(items, depth, pretty, Relaid(x, OUTSIDE, depth, pretty));
    }
  }

  lemma BracketsOpen()
    ensures Opens('[') && Opens('{') && Closes(']') && Closes('}')
  {
  }

  lemma {:induction false} ObjectRelaid(ms: seq<Member>, level: nat, was: bool, x: string, depth: nat, pretty: bool)
    ensures Relaid(Text(JObj(ms), level, was) + x, OUTSIDE, depth, pretty) ==
            Text(JObj(ms), depth, pretty) + Relaid(x, OUTSIDE, depth, pretty)
    decreases ms, 1
  {
    if ms == [] {
      EmptyRelaid("{}", x, depth, pretty);
    } else {
      hide *;
      ObjectText(ms, level, was, x);
      MembersStart(ms, level, was, "}" + x);
      BracketsOpen();
      RelaidOpen('{', level, was, Members(ms, level, was) + ("}" + x), depth, pretty);
      MembersRelaid(ms, level, was, x, depth, pretty);
      ObjectText(ms, depth, pretty, Relaid(x, OUTSIDE, depth, pretty));
    }
  }

  lemma MembersStart(ms: seq<Member>, level: nat, pretty: bool, x: string)
    requires ms != []
    ensures var y := Members(ms, level, pretty) + x; y != "" && !Closes(y[0])
  {
    hide Text, Between, EscString;
  }

  lemma ItemsStart(items: seq<JSON>, level: nat, pretty: bool, x: string)
    requires items != []
    ensures var y := Items(items, level, pretty) + x; y != "" && !Closes(y[0])
  {
    TextStarts(items[0], level + 1, pretty);
    hide Text, Between;
  }

  lemma Pieces(t: string, b: string, i: string, x: string)
    ensures t + b + i + x == t + (b + (i + x))
  {
  }

  lemma {:induction false} ItemsRelaid(items: seq<JSON>, level: nat, was: bool, x: string, depth: nat, pretty: bool)
    requires items != []
    ensures Relaid(Items(items, level, was) + ("]" + x), OUTSIDE, depth + 1, pretty) ==
            Items(items, depth, pretty) + ("]" + Relaid(x, OUTSIDE, depth, pretty))
    decreases items, 0
  {
    hide Relaid, Text, Between;
    var more := |items| > 1;
    var y := Items(items[1..], level, was) + ("]" + x);
    Pieces(Text(items[0], level + 1, was), Between(more, level, was), Items(items[1..], level, was), "]" + x);
    TextRelaid(items[0], level + 1, was, Between(more, level, was) + y, depth + 1, pretty);
    if more {
      RelaidComma(level, was, y, depth, pretty);
      ItemsRelaid(items[1..], level, was, x, depth, pretty);
    } else {
      assert y == "]" + x;
      RelaidClose(level, was, ']', x, depth, pretty);
    }
    Pieces(Text(items[0], depth + 1, pretty), Between(more, depth, pretty), Items(items[1..], depth, pretty),
           "]" + Relaid(x, OUTSIDE, depth, pretty));
  }

  /** The colon and the space behind it, which may have been there. */
  lemma RelaidColon(was: bool, x: string, depth: nat, pretty: bool)
    ensures Relaid(":" + ((if was then " " else "") + x), OUTSIDE, depth, pretty) ==
            ":" + ((if pretty then " " else "") + Relaid(x, OUTSIDE, depth, pretty))
  {
    var sp := if was then " " else "";
    RelaidGap(sp, x, depth, pretty);
    assert (":" + (sp + x))[1..] == sp + x;
  }

  lemma NamedApart(m: Member, level: nat, pretty: bool, x: string)
    ensures Named(m, level, pretty) + x ==
            Quote(m.name) + (":" + ((if pretty then " " else "") + (Text(m.value, level + 1, pretty) + x)))
  {
    var q, sp, t := Quote(m.name), if pretty then " " else "", Text(m.value, level + 1, pretty);
    assert q + ":" + sp + t + x == q + (":" + (sp + (t + x)));
  }

  lemma {:induction false} NamedRelaid(m: Member, level: nat, was: bool, x: string, depth: nat, pretty: bool)
    ensures Relaid(Named(m, level, was) + x, OUTSIDE, depth + 1, pretty) ==
            Named(m, depth, pretty) + Relaid(x, OUTSIDE, depth + 1, pretty)
    decreases m, 2
  {
    hide *;
    var y := Text(m.value, level + 1, was) + x;
    NamedApart(m, level, was, x);
    RelaidQuote(m.name, ":" + ((if was then " " else "") + y), depth + 1, pretty);
    RelaidColon(was, y, depth + 1, pretty);
    TextRelaid(m.value, level + 1, was, x, depth + 1, pretty);
    NamedApart(m, depth, pretty, Relaid(x, OUTSIDE, depth + 1, pretty));
  }

  lemma {:induction false} MembersRelaid(ms: seq<Member>, level: nat, was: bool, x: string, depth: nat, pretty: bool)
    requires ms != []
    ensures Relaid(Members(ms, level, was) + ("}" + x), OUTSIDE, depth + 1, pretty) ==
            Members(ms, depth, pretty) + ("}" + Relaid(x, OUTSIDE, depth, pretty))
    decreases ms, 0
  {
    hide Relaid, Named, Between;
    var more := |ms| > 1;
    var y := Members(ms[1..], level, was) + ("}" + x);
    Pieces(Named(ms[0], level, was), Between(more, level, was), Members(ms[1..], level, was), "}" + x);
    NamedRelaid(ms[0], level, was, Between(more, level, was) + y, depth, pretty);
    if more {
      RelaidComma(level, was, y, depth, pretty);
      MembersRelaid(ms[1..], level, was, x, depth, pretty);
    } else {
      assert y == "}" + x;
      RelaidClose(level, was, '}', x, depth, pretty);
    }
    Pieces(Named(ms[0], depth, pretty), Between(more, depth, pretty), Members(ms[1..], depth, pretty),
           "}" + Relaid(x, OUTSIDE, depth, pretty));
  }

  // ---------------------------------------------------------------- what the layout is

  /** No white space outside literals in t, read from state s on. */
  predicate NoneBlank(t: string, s: State) {
    t == "" || ((s.inString || t[0] as int !in BLANKS) && NoneBlank(t[1..], NextState(t[0], s)))
  }

  /** Compact layout drops white space and adds nothing. */
  lemma {:induction false} Squeezed(t: string, s: State, depth: int)
    ensures |Relaid(t, s, depth, false)| <= |t|
    ensures |Relaid(t, s, depth, false)| == |t| <==> NoneBlank(t, s)
    decreases |t|
  {
    hide NextState, FourTimes;
    if t != "" {
      var n := NextState(t[0], s);
      Squeezed(t[1..], n, depth);
      Squeezed(t[1..], n, depth + 1);
      Squeezed(t[1..], n, depth - 1);
      if |t| > 1 {
        Squeezed(t[2..], NextState(t[1], n), depth);
        assert t[1..][1..] == t[2..];
      }
    }
  }

  /**
   Compact text has no white space outside literals; pretty text is it spread over lines, and
   squeezes back to it.
   */
  lemma TextLayout(v: JSON)
    ensures var t := Text(v, 0, false);
            NoneBlank(t, OUTSIDE) && Relaid(t, OUTSIDE, 0, true) == Text(v, 0, true)
            && Relaid(Text(v, 0, true), OUTSIDE, 0, false) == t
  {
    hide *;
    TextRelaid(v, 0, false, "", 0, false);
    TextRelaid(v, 0, false, "", 0, true);
    TextRelaid(v, 0, true, "", 0, false);
    NothingLeft();
    Squeezed(Text(v, 0, false), OUTSIDE, 0);
    assert Text(v, 0, false) + "" == Text(v, 0, false) && Text(v, 0, true) + "" == Text(v, 0, true);
  }

  lemma NothingLeft()
    ensures forall pretty :: Relaid("", OUTSIDE, 0, pretty) == ""
  {
  }
}
