/**
 Whole runs of edits, joins and departures: the chain of lines stays well-formed and shows
 the flat text throughout, and the cursor a server keeps for itself never leaves the start.
 */
module EditRuns {
  import opened Document
  import opened FlatText
  import opened FlatEditor
  import opened FlatEdits

  /** An edit by a cursor, a new cursor copied from the own one, or a cursor taken away. */
  datatype Step = Edit(user: int, op: Op) | Join(who: int) | Leave(who: int)

  predicate Enabled(d: Doc, s: Step) {
    match s
    case Edit(c, op) => c in d.curs && TypedOp(op)
    case Join(c) => c != 0 && c !in d.curs && 0 in d.curs
    case Leave(c) => c in d.curs
  }

  function Next(d: Doc, s: Step): Doc
    requires WF(d) && Enabled(d, s)
  {
    match s
    case Edit(c, op) => Apply(d, c, op)
    case Join(c) => AddCursor(d, c, d.curs[0])
    case Leave(c) => RemoveCursor(d, c)
  }

  lemma NextKeeps(d: Doc, s: Step)
    requires WF(d) && Enabled(d, s)
    ensures WF(Next(d, s))
  {
    match s
    case Edit(c, op) => ApplyKeeps(d, c, op);
    case Join(c) =>
      assert OnText(d, d.curs[0]);
      assert forall j :: j in Next(d, s).curs ==> OnText(d, Next(d, s).curs[j]);
    case Leave(c) =>
      assert forall j :: j in Next(d, s).curs ==> OnText(d, d.curs[j]);
  }

  /** What the steps do to the flat text; the cursors come and go beside it. */
  function FlatNext(f: Flat, s: Step): Flat
    requires Good(f)
    requires match s case Edit(c, _) => c in f.offs case Join(_) => 0 in f.offs case Leave(_) => true
  {
    match s
    case Edit(c, op) => FlatApply(f, c, op)
    case Join(c) => f.(offs := f.offs[c := f.offs[0]])
    case Leave(c) => if c == 0 then f else f.(offs := f.offs - {c})
  }

  lemma NextRefines(d: Doc, s: Step)
    requires WF(d) && Enabled(d, s)
    ensures Good(Abs(d)) && WF(Next(d, s)) && Abs(Next(d, s)) == FlatNext(Abs(d), s)
  {
    AbsGood(d);
    NextKeeps(d, s);
    hide WF, Text, Offset, FlatApply, Apply;
    match s
    case Edit(c, op) => ApplyRefines(d, c, op);
    case Join(c) => AbsIs(Next(d, s), FlatNext(Abs(d), s));
    case Leave(c) => AbsIs(Next(d, s), FlatNext(Abs(d), s));
  }

  /** A run: each document comes from the one before by an enabled step. */
  ghost predicate IsRun(ds: seq<Doc>, steps: seq<Step>) {
    && |ds| == |steps| + 1
    && WF(ds[0])
    && forall i :: 0 <= i < |steps| ==> StepOk(ds[i], steps[i], ds[i+1])
  }

  ghost predicate StepOk(d: Doc, s: Step, d': Doc) {
    WF(d) ==> Enabled(d, s) && d' == Next(d, s)
  }

  /** Every document of every run is well-formed, and its text is the flat editor's. */
  lemma {:induction false} RunKeeps(ds: seq<Doc>, steps: seq<Step>, i: nat)
    requires IsRun(ds, steps) && i < |ds|
    ensures WF(ds[i])
    ensures i > 0 ==>
      && WF(ds[i-1]) && Good(Abs(ds[i-1])) && Enabled(ds[i-1], steps[i-1])
      && Abs(ds[i]) == FlatNext(Abs(ds[i-1]), steps[i-1])
  {
    if i > 0 {
      RunKeeps(ds, steps, i - 1);
      assert StepOk(ds[i-1], steps[i-1], ds[i]);
      NextRefines(ds[i-1], steps[i-1]);
    }
  }

  // ---------------------------------------------------------------- the server's own cursor

  lemma OwnOffset(d: Doc)
    requires WF(d) && d.server
    ensures OwnAtStart(d) <==> Offset(d, d.curs[0]) == 0
  {
    var start := Pos(d.lines[0].id, 0);
    assert OnText(d, d.curs[0]);
    assert Idx(d.lines, start.line) == 0;
    assert Offset(d, start) == 0;
    if Offset(d, d.curs[0]) == 0 {
      OffsetInjective(d, d.curs[0], start);
    }
  }

  lemma OwnStays(d: Doc, s: Step)
    requires WF(d) && Enabled(d, s) && OwnAtStart(d)
    requires s.Edit? ==> s.user != 0
    ensures WF(Next(d, s)) && OwnAtStart(Next(d, s))
  {
    NextRefines(d, s);
    OwnOffset(d);
    var f, f' := Abs(d), Abs(Next(d, s));
    if s.Edit? {
      OwnStaysFlat(f, s.user, s.op);
      NextServer(d, s);
      OwnOffset(Next(d, s));
    }
  }

  lemma NextServer(d: Doc, s: Step)
    requires WF(d) && Enabled(d, s)
    ensures Next(d, s).server == d.server
  {
    if s.Edit? { assert OnText(d, d.curs[s.user]); }
  }

  lemma OwnStaysFlat(f: Flat, c: int, op: Op)
    requires Good(f) && c in f.offs && f.server && f.offs[0] == 0 && c != 0
    ensures FlatApply(f, c, op).offs[0] == 0
  {
  }

  /**
   In every run of a server from its loaded document, driven by users with ids other than 0,
   the own cursor is at the first place of the first line.
   */
  lemma {:induction false} OwnAlwaysAtStart(ds: seq<Doc>, steps: seq<Step>, i: nat)
    requires IsRun(ds, steps) && i < |ds| && OwnAtStart(ds[0])
    requires forall j :: 0 <= j < |steps| && steps[j].Edit? ==> steps[j].user != 0
    ensures WF(ds[i]) && OwnAtStart(ds[i])
  {
    if i > 0 {
      OwnAlwaysAtStart(ds, steps, i - 1);
      assert StepOk(ds[i-1], steps[i-1], ds[i]);
      OwnStays(ds[i-1], steps[i-1]);
    }
  }

  // ---------------------------------------------------------------- edits undone

  /** Newline then backspace by one cursor restores the text and every cursor's offset. */
  lemma NewLineUndone(d: Doc, c: int)
    requires WF(d) && c in d.curs
    requires d.server ==> OwnAtStart(d) && c != 0
    ensures WF(NewLine(d, c)) && c in NewLine(d, c).curs && WF(Backspace(NewLine(d, c), c))
    ensures Abs(Backspace(NewLine(d, c), c)) == Abs(d)
  {
    ApplyRefines(d, c, InsertLine);
    ApplyKeys(d, c, InsertLine);
    var m := NewLine(d, c);
    assert m == Apply(d, c, InsertLine);
    ApplyRefines(m, c, Delete);
    assert Backspace(m, c) == Apply(m, c, Delete);
    if d.server { OwnOffset(d); }
    NewLineThenDelete(Abs(d), c);
  }

  /** No other cursor stands one column right of p. */
  predicate NoneRight(d: Doc, c: int, p: Pos) {
    forall j :: j in d.curs && j != c ==> d.curs[j] != p.(col := p.col + 1)
  }

  predicate AtStart(d: Doc, p: Pos) {
    d.lines != [] && p == StartPos(d)
  }

  lemma AtStartIs(d: Doc, p: Pos)
    requires WF(d) && OnText(d, p)
    ensures AtStart(d, p) <==> Offset(d, p) == 0
  {
    var start := StartPos(d);
    assert Idx(d.lines, start.line) == 0 && OnText(d, start) && Offset(d, start) == 0;
    if Offset(d, p) == 0 {
      OffsetInjective(d, p, start);
    }
  }

  lemma RightIs(d: Doc, c: int, j: int)
    requires WF(d) && c in d.curs && j in d.curs
    ensures Good(Abs(d)) && c in Abs(d).offs && j in Abs(d).offs
    ensures var f, p := Abs(d), d.curs[c];
            d.curs[j] == p.(col := p.col + 1) <==> f.offs[j] == f.offs[c] + 1 && f.text[f.offs[c]] != '\n'
  {
    AbsGood(d);
    assert OnText(d, d.curs[c]) && OnText(d, d.curs[j]);
    JustRight(d, d.curs[c], d.curs[j]);
    OffsetInText(d, d.curs[j]);
  }

  lemma NoneRightIs(d: Doc, c: int)
    requires WF(d) && c in d.curs
    ensures Good(Abs(d)) && c in Abs(d).offs
    ensures var f := Abs(d);
            NoneRight(d, c, d.curs[c]) <==>
            forall j :: j in f.offs && j != c && f.offs[j] == f.offs[c] + 1 ==> f.text[f.offs[c]] == '\n'
  {
    AbsGood(d);
    var f := Abs(d);
    assert f.offs.Keys == d.curs.Keys;
    hide WF, Abs;
    forall j | j in d.curs
      ensures d.curs[j] == d.curs[c].(col := d.curs[c].col + 1) <==> f.offs[j] == f.offs[c] + 1 && f.text[f.offs[c]] != '\n'
    {
      RightIs(d, c, j);
    }
  }

  lemma RoomIs(d: Doc, p: Pos)
    requires WF(d) && OnText(d, p)
    ensures 0 <= Offset(d, p) <= |Text(d)| && (HasRoom(d, p) <==> Roomy(Abs(d), Offset(d, p)))
  {
    LineShape(d, p);
  }

  /** The three conditions on c's place, read off the flat document. */
  lemma FlatPlace(d: Doc, c: int) returns (f: Flat)
    requires WF(d) && c in d.curs
    ensures f == Abs(d) && f.text == Text(d) && Good(f) && c in f.offs
    ensures HasRoom(d, d.curs[c]) <==> Roomy(f, f.offs[c])
    ensures AtStart(d, d.curs[c]) <==> f.offs[c] == 0
    ensures NoneRight(d, c, d.curs[c]) <==>
            forall j :: j in f.offs && j != c && f.offs[j] == f.offs[c] + 1 ==> f.text[f.offs[c]] == '\n'
  {
    assert OnText(d, d.curs[c]);
    AbsGood(d);
    RoomIs(d, d.curs[c]);
    AtStartIs(d, d.curs[c]);
    NoneRightIs(d, c);
    f := Abs(d);
    hide WF, OnText, HasRoom, AtStart, NoneRight, Roomy, Idx, Cat, Joined;
  }

  lemma TypeThenDelete(d: Doc, c: int, ch: char) returns (m: Doc, h: Doc)
    requires WF(d) && c in d.curs && Typed(ch)
    ensures WF(m) && m == InsertChar(d, c, ch) && c in m.curs && WF(h) && h == Backspace(m, c)
    ensures Abs(h).text == Text(h)
    ensures Good(Abs(d)) && Abs(h) == FlatApply(FlatApply(Abs(d), c, Insert(ch)), c, Delete)
  {
    ApplyRefines(d, c, Insert(ch));
    ApplyKeys(d, c, Insert(ch));
    m := Apply(d, c, Insert(ch));
    ApplyRefines(m, c, Delete);
    h := Apply(m, c, Delete);
  }

  /**
   A character typed and deleted by one cursor.  With room on the line the text is restored,
   and all cursors are exactly when no other cursor stood one column right of the insertion.
   On a full line the character is refused, and text and cursors are as before exactly when
   the cursor is at the very start, where there is nothing to delete.
   */
  lemma InsertUndone(d: Doc, c: int, ch: char)
    requires WF(d) && c in d.curs && Typed(ch)
    ensures WF(InsertChar(d, c, ch)) && c in InsertChar(d, c, ch).curs && WF(Backspace(InsertChar(d, c, ch), c))
    ensures var h, p := Backspace(InsertChar(d, c, ch), c), d.curs[c];
            if HasRoom(d, p) then Text(h) == Text(d) && (Abs(h) == Abs(d) <==> NoneRight(d, c, p))
            else (Text(h) == Text(d) <==> AtStart(d, p)) && (Abs(h) == Abs(d) <==> AtStart(d, p))
  {
    assert ch != '\n';
    hide *;
    var f := FlatPlace(d, c);
    var m, h := TypeThenDelete(d, c, ch);
    InsertThenDelete(f, c, ch);
  }

  /** "ab" on the screen, one cursor before it and one between the two letters. */
  const TWO_CURSORS :=
    Doc([Line(0, "ab"), Line(1, "")], 0, 2, 2, 2, 20, false, map[0 := Pos(0, 0), 1 := Pos(0, 1)])

  const TYPED_X := TWO_CURSORS.(lines := [Line(0, "xab"), Line(1, "")], curs := map[0 := Pos(0, 1), 1 := Pos(0, 1)])

  lemma ExampleTyped()
    ensures WF(TWO_CURSORS) && InsertChar(TWO_CURSORS, 0, 'x') == TYPED_X
  {
    var d := TWO_CURSORS;
    DistinctIdsMeans(d.lines);
    assert Idx(d.lines, 0) == 0;
    assert "ab"[..0] + ['x'] + "ab"[0..] == "xab";
    hide DistinctIds;
    var e := TypeChar(d, 0, 0, 0, 'x');
    assert e.lines == TYPED_X.lines && e.curs == TYPED_X.curs;
  }

  lemma ExampleDeleted()
    requires WF(TYPED_X)
    ensures Backspace(TYPED_X, 0) == TWO_CURSORS.(curs := map[0 := Pos(0, 0), 1 := Pos(0, 0)])
  {
    hide WF;
    var f := TWO_CURSORS.(curs := map[0 := Pos(0, 0), 1 := Pos(0, 0)]);
    assert Idx(TYPED_X.lines, 0) == 0;
    assert "xab"[..0] + "xab"[1..] == "ab";
    var e := DeleteChar(TYPED_X, 0, 0, 1);
    assert e.lines == f.lines && e.curs == f.curs;
  }

  /** Typing and deleting before the first letter drags the other cursor there. */
  lemma InsertUndoneExample()
    ensures var d := TWO_CURSORS;
            && WF(d) && WF(InsertChar(d, 0, 'x')) && 0 in InsertChar(d, 0, 'x').curs
            && Backspace(InsertChar(d, 0, 'x'), 0) == d.(curs := map[0 := Pos(0, 0), 1 := Pos(0, 0)])
  {
    ExampleTyped();
    hide WF, InsertChar, Backspace;
    InsertKeeps(TWO_CURSORS, 0, 'x');
    ExampleDeleted();
  }

  /** A line of one character, all there is room for. */
  const FULL_LINE := Doc([Line(0, "a"), Line(1, "")], 0, 2, 2, 2, 2, false, map[0 := Pos(0, 1)])

  /** On it typing and deleting takes the character away, with no other cursor about. */
  lemma FullLineExample()
    ensures var d := FULL_LINE;
            && WF(d) && InsertChar(d, 0, 'x') == d && !HasRoom(d, d.curs[0]) && !AtStart(d, d.curs[0])
            && Backspace(d, 0) == d.(lines := [Line(0, ""), Line(1, "")], curs := map[0 := Pos(0, 0)])
  {
    var d := FULL_LINE;
    DistinctIdsMeans(d.lines);
    assert Idx(d.lines, 0) == 0;
    assert "a"[..0] + "a"[1..] == "";
    hide DistinctIds;
    var e := DeleteChar(d, 0, 0, 1);
    assert e.lines == [Line(0, ""), Line(1, "")] && e.curs == map[0 := Pos(0, 0)];
  }

  // ---------------------------------------------------------------- edits that cross

  lemma ApplyBoth(d: Doc, u: int, v: int, p: Op, q: Op) returns (m: Doc, n: Doc, f: Flat, g: Flat)
    requires WF(d) && u in d.curs && v in d.curs && TypedOp(p) && TypedOp(q)
    ensures WF(m) && m == Apply(d, u, p) && v in m.curs && n == Apply(m, v, q) && WF(n)
    ensures f == Abs(d) && Good(f) && u in f.offs && g == FlatApply(f, u, p) && v in g.offs
    ensures Text(n) == FlatApply(g, v, q).text
  {
    m := Apply(d, u, p);
    ApplyRefines(d, u, p);
    ApplyKeys(d, u, p);
    ApplyRefines(m, v, q);
    n, f := Apply(m, v, q), Abs(d);
    g := FlatApply(f, u, p);
  }

  /** Whether a typed at p and b typed at q may cross, read off the lines. */
  predicate CommuteAt(d: Doc, p: Pos, q: Pos, a: char, b: char)
    requires OnText(d, p) && OnText(d, q)
  {
    var s := LineText(d, p);
    if !HasRoom(d, p) || !HasRoom(d, q) || p.line != q.line then true
    else if |s| == d.width - 2 then
      a == b && forall i :: Min(p.col, q.col) <= i < (if p.col < q.col then q.col else p.col) ==> s[i] == a
    else
      (p.col == q.col ==> a == b) && (q.col == p.col + 1 ==> b == s[p.col]) && (p.col == q.col + 1 ==> a == s[q.col])
  }

  lemma RunIs(d: Doc, p: Pos, lo: int, hi: int, ch: char)
    requires WF(d) && OnText(d, p) && 0 <= lo <= hi <= |LineText(d, p)|
    ensures var o := Offset(d, p) - p.col;
            && 0 <= o + lo && o + hi <= |Text(d)|
            && (Run(Text(d), o + lo, o + hi, ch) <==> forall i :: lo <= i < hi ==> LineText(d, p)[i] == ch)
  {
    LineShape(d, p);
    var t, s, o := Text(d), LineText(d, p), Offset(d, p) - p.col;
    forall i | 0 <= i < |s| ensures 0 <= o + i < |t| && t[o + i] == s[i] {
      LineChars(d, p, i);
    }
    hide Text, Offset, LineText, WF, LineStart, LineEnd, OnText;
    if Run(t, o + lo, o + hi, ch) {
      forall i | lo <= i < hi ensures s[i] == ch {
        assert t[o + i] == ch;
      }
    }
    if forall i :: lo <= i < hi ==> s[i] == ch {
      forall j | o + lo <= j < o + hi ensures t[j] == ch {
        assert t[o + (j - o)] == s[j - o];
      }
    }
  }

  lemma CommuteIs(d: Doc, p: Pos, q: Pos, a: char, b: char)
    requires WF(d) && OnText(d, p) && OnText(d, q)
    ensures 0 <= Offset(d, p) <= |Text(d)| && 0 <= Offset(d, q) <= |Text(d)|
    ensures Commute(Abs(d), Offset(d, p), Offset(d, q), a, b) <==> CommuteAt(d, p, q, a, b)
  {
    RoomIs(d, p);
    RoomIs(d, q);
    LineShape(d, p);
    LineShape(d, q);
    SameLineIs(d, p, q);
    hide LineStart, LineEnd, Run, Text, Offset, WF, HasRoom, Roomy;
    if p.line == q.line {
      CommuteOnLine(d, p, q, a, b);
    }
  }

  lemma CommuteOnLine(d: Doc, p: Pos, q: Pos, a: char, b: char)
    requires WF(d) && OnText(d, p) && OnText(d, q) && p.line == q.line
    ensures var s, t, o := LineText(d, p), Text(d), Offset(d, p) - p.col;
            var lo, hi := Min(p.col, q.col), if p.col < q.col then q.col else p.col;
            && Offset(d, q) == o + q.col && 0 <= o + lo && o + hi <= |t|
            && (Run(t, o + lo, o + hi, a) <==> forall i :: lo <= i < hi ==> s[i] == a)
            && (q.col == p.col + 1 ==> t[o + p.col] == s[p.col]) && (p.col == q.col + 1 ==> t[o + q.col] == s[q.col])
  {
    var lo, hi := Min(p.col, q.col), if p.col < q.col then q.col else p.col;
    RunIs(d, p, lo, hi, a);
    if q.col == p.col + 1 {
      LineChars(d, p, p.col);
    } else if p.col == q.col + 1 {
      LineChars(d, p, q.col);
    }
  }

  /**
   Why users must take turns: of two users who type at once, each has its own edit applied
   first.  Their texts agree exactly when one of the lines is full, or the lines are different
   ones, or the two characters come in the same order: not at one place, unless they are equal,
   and not at neighbouring places, unless the second is equal to the character between them;
   and with room for one character only, when all between the places are the character both
   typed.
   */
  lemma CrossingEdits(d: Doc, u: int, v: int, a: char, b: char)
    requires WF(d) && u in d.curs && v in d.curs && u != v && Typed(a) && Typed(b)
    ensures WF(Apply(d, u, Insert(a))) && v in Apply(d, u, Insert(a)).curs && WF(Apply(Apply(d, u, Insert(a)), v, Insert(b)))
    ensures WF(Apply(d, v, Insert(b))) && u in Apply(d, v, Insert(b)).curs && WF(Apply(Apply(d, v, Insert(b)), u, Insert(a)))
    ensures OnText(d, d.curs[u]) && OnText(d, d.curs[v])
    ensures Text(Apply(Apply(d, u, Insert(a)), v, Insert(b))) == Text(Apply(Apply(d, v, Insert(b)), u, Insert(a)))
            <==> CommuteAt(d, d.curs[u], d.curs[v], a, b)
  {
    var m, n, f, g := ApplyBoth(d, u, v, Insert(a), Insert(b));
    var m', n', f', g' := ApplyBoth(d, v, u, Insert(b), Insert(a));
    assert OnText(d, d.curs[u]) && OnText(d, d.curs[v]);
    hide FlatApply, WF, Commute, CommuteAt, OnText;
    CommuteIs(d, d.curs[u], d.curs[v], a, b);
    CrossingInserts(Abs(d), u, v, a, b);
  }

  /** "ab": x typed before it and y at once between the two letters. */
  lemma CrossingExample()
    ensures var d := TWO_CURSORS;
            WF(d) && OnText(d, d.curs[0]) && OnText(d, d.curs[1]) && !CommuteAt(d, d.curs[0], d.curs[1], 'x', 'y')
  {
    ExampleTyped();
    assert Idx(TWO_CURSORS.lines, 0) == 0;
  }
}
