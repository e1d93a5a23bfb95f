/**
 The editor as its users see it: one flat string, every cursor an offset into it.  This is
 the reference the chain of lines is proved against (FlatEdits.dfy); it knows no lines, only
 '\n' characters.
 */
module FlatEditor {
  import opened Document

  datatype Flat = Flat(text: string, width: int, server: bool, offs: map<int, int>)

  ghost predicate Good(f: Flat) {
    && (forall j :: j in f.offs ==> 0 <= f.offs[j] <= |f.text|)
    && (f.server ==> 0 in f.offs)
  }

  /** The offset where the line of o begins. */
  function LineStart(t: string, o: int): (s: int)
    requires 0 <= o <= |t|
    ensures 0 <= s <= o
    decreases o
  {
    if o == 0 || t[o-1] == '\n' then o else LineStart(t, o - 1)
  }

  /** The offset of the line break that ends the line of o, or the end of the text. */
  function LineEnd(t: string, o: int): (e: int)
    requires 0 <= o <= |t|
    ensures o <= e <= |t|
    decreases |t| - o
  {
    if o == |t| || t[o] == '\n' then o else LineEnd(t, o + 1)
  }

  /** LineStart is the one place s <= o with a line break, or nothing, before it and none from s to o. */
  lemma {:induction false} LineStartIs(t: string, o: int, s: int)
    requires 0 <= s <= o <= |t|
    ensures LineStart(t, o) == s <==> (s == 0 || t[s-1] == '\n') && forall i :: s <= i < o ==> t[i] != '\n'
    decreases o
  {
    if o > s {
      LineStartIs(t, o - 1, s);
    }
  }

  lemma {:induction false} LineEndIs(t: string, o: int, e: int)
    requires 0 <= o <= e <= |t|
    ensures LineEnd(t, o) == e <==> (e == |t| || t[e] == '\n') && forall i :: o <= i < e ==> t[i] != '\n'
    decreases |t| - o
  {
    if o < e {
      LineEndIs(t, o + 1, e);
    }
  }

  function UpFrom(t: string, o: int): (r: int)
    requires 0 <= o <= |t|
    ensures 0 <= r <= o
  {
    var s := LineStart(t, o);
    if s == 0 then o else Min(LineStart(t, s - 1) + (o - s), s - 1)
  }

  function DownFrom(t: string, o: int): (r: int)
    requires 0 <= o <= |t|
    ensures 0 <= r <= |t|
  {
    var e := LineEnd(t, o);
    if e == |t| then o else Min(e + 1 + (o - LineStart(t, o)), LineEnd(t, e + 1))
  }

  function MoveFrom(t: string, o: int, dir: Dir): (r: int)
    requires 0 <= o <= |t|
    ensures 0 <= r <= |t|
  {
    match dir
    case Up => UpFrom(t, o)
    case Down => DownFrom(t, o)
    case Left => if o == 0 then 0 else o - 1
    case Right => if o == |t| then o else o + 1
  }

  /** Another cursor p beside a character typed at o: the one just right of o stays. */
  function PastInsert(t: string, o: int, p: int): int
    requires 0 <= o <= |t| && 0 <= p <= |t|
  {
    if p <= o || (p == o + 1 && t[o] != '\n') then p else p + 1
  }

  /** Another cursor p beside a line break typed at o. */
  function PastNewLine(t: string, o: int, p: int): int
    requires 0 <= o <= |t|
  {
    if p < o || (p == o && LineStart(t, o) != o) then p else p + 1
  }

  function PastDelete(o: int, p: int): int {
    if p >= o then p - 1 else p
  }

  function FlatInsert(f: Flat, c: int, ch: char): Flat
    requires Good(f) && c in f.offs
  {
    var t, o := f.text, f.offs[c];
    if LineEnd(t, o) - LineStart(t, o) >= f.width - 1 then f
    else f.(text := t[..o] + [ch] + t[o..],
            offs := map j | j in f.offs :: if j == c then o + 1 else PastInsert(t, o, f.offs[j]))
  }

  function FlatNewLine(f: Flat, c: int): Flat
    requires Good(f) && c in f.offs
  {
    var t, o := f.text, f.offs[c];
    var t' := t[..o] + "\n" + t[o..];
    f.(text := t',
       offs := map j | j in f.offs ::
         var p := if j == c then o + 1 else PastNewLine(t, o, f.offs[j]);
         if f.server && j == 0 && LineStart(t, o) == o then UpFrom(t', p) else p)
  }

  function FlatDelete(f: Flat, c: int): Flat
    requires Good(f) && c in f.offs
  {
    var t, o := f.text, f.offs[c];
    if o == 0 then f
    else f.(text := t[..o-1] + t[o..],
            offs := map j | j in f.offs :: if j == c then o - 1 else PastDelete(o, f.offs[j]))
  }

  function FlatApply(f: Flat, c: int, op: Op): (r: Flat)
    requires Good(f) && c in f.offs
    ensures Good(r) && r.offs.Keys == f.offs.Keys
  {
    match op
    case Insert(ch) => FlatInsert(f, c, ch)
    case InsertLine => FlatNewLine(f, c)
    case Delete => FlatDelete(f, c)
    case Move(dir) => f.(offs := f.offs[c := MoveFrom(f.text, f.offs[c], dir)])
  }

  // ---------------------------------------------------------------- what one operation undoes

  /** Newline then backspace by the same cursor restores the text and every cursor. */
  lemma NewLineThenDelete(f: Flat, c: int)
    requires Good(f) && c in f.offs
    requires f.server && LineStart(f.text, f.offs[c]) == f.offs[c] ==> c != 0 && f.offs[0] == 0
    ensures FlatApply(FlatApply(f, c, InsertLine), c, Delete) == f
  {
    var g := FlatApply(f, c, InsertLine);
    var h := FlatApply(g, c, Delete);
    assert h.text == f.text;
    forall j | j in f.offs ensures h.offs[j] == f.offs[j] {
    }
    assert h.offs.Keys == f.offs.Keys;
    assert h.offs == f.offs;
  }

  /** There is room for a character on the line of o. */
  predicate Roomy(f: Flat, o: int)
    requires 0 <= o <= |f.text|
  {
    LineEnd(f.text, o) - LineStart(f.text, o) < f.width - 1
  }

  /**
   Typing a character and deleting it.  With room on the line the text is restored, and every
   cursor exactly when no other cursor stood just right of the insertion on the same line.  On
   a full line the character is refused, and the deletion takes an older one away unless the
   cursor is at the very start.
   */
  lemma InsertThenDelete(f: Flat, c: int, ch: char)
    requires Good(f) && c in f.offs && ch != '\n'
    ensures var h := FlatApply(FlatApply(f, c, Insert(ch)), c, Delete);
            var o := f.offs[c];
            if Roomy(f, o) then
              h.text == f.text &&
              (h == f <==> forall j :: j in f.offs && j != c && f.offs[j] == o + 1 ==> f.text[o] == '\n')
            else
              (h.text == f.text <==> o == 0) && (h == f <==> o == 0)
  {
    if Roomy(f, f.offs[c]) {
      TypedThenDeleted(f, c, ch);
    } else {
      var o := f.offs[c];
      assert FlatApply(f, c, Insert(ch)) == f;
      assert o > 0 ==> |FlatApply(f, c, Delete).text| == |f.text| - 1;
    }
  }

  lemma TypedThenDeleted(f: Flat, c: int, ch: char)
    requires Good(f) && c in f.offs && ch != '\n' && Roomy(f, f.offs[c])
    ensures var h := FlatApply(FlatApply(f, c, Insert(ch)), c, Delete);
            var o := f.offs[c];
            h.text == f.text &&
            (h == f <==> forall j :: j in f.offs && j != c && f.offs[j] == o + 1 ==> f.text[o] == '\n')
  {
    var g := FlatApply(f, c, Insert(ch));
    var h := FlatApply(g, c, Delete);
    var o := f.offs[c];
    assert h.text == f.text;
    assert h.offs.Keys == f.offs.Keys;
    forall j | j in f.offs
      ensures h.offs[j] == f.offs[j] <==> !(j != c && f.offs[j] == o + 1 && f.text[o] != '\n')
    {
    }
    if forall j :: j in f.offs && j != c && f.offs[j] == o + 1 ==> f.text[o] == '\n' {
      assert h.offs == f.offs;
    }
  }

  // ---------------------------------------------------------------- edits that cross

  function Ins(t: string, o: int, ch: char): (r: string)
    requires 0 <= o <= |t|
    ensures |r| == |t| + 1
  {
    t[..o] + [ch] + t[o..]
  }

  predicate SameLine(t: string, p: int, q: int)
    requires 0 <= p <= |t| && 0 <= q <= |t|
  {
    LineStart(t, p) == LineStart(t, q)
  }

  /** The line of q is where there are only characters between: from its start to its end. */
  lemma LineOf(t: string, q: int, o: int)
    requires 0 <= q <= |t| && 0 <= o <= |t|
    ensures SameLine(t, o, q) <==> LineStart(t, q) <= o <= LineEnd(t, q)
    ensures SameLine(t, o, q) ==> LineEnd(t, o) == LineEnd(t, q)
  {
    var s, e := LineStart(t, q), LineEnd(t, q);
    LineStartIs(t, q, s);
    LineEndIs(t, q, e);
    if s <= o <= e {
      LineStartIs(t, o, s);
      LineEndIs(t, o, e);
    } else if LineStart(t, o) == s {
      LineStartIs(t, o, s);
    }
  }

  /** Character i of t with ch typed at o. */
  function CharAt(t: string, o: int, ch: char, i: int): char
    requires 0 <= o <= |t| && 0 <= i <= |t|
  {
    if i < o then t[i] else if i == o then ch else t[i-1]
  }

  /** t' is t with ch typed at o. */
  predicate IsIns(t: string, o: int, ch: char, t': string) {
    && 0 <= o <= |t| && |t'| == |t| + 1
    && forall i :: 0 <= i <= |t| ==> t'[i] == CharAt(t, o, ch, i)
  }

  lemma InsIs(t: string, o: int, ch: char)
    requires 0 <= o <= |t|
    ensures IsIns(t, o, ch, Ins(t, o, ch))
  {
  }

  lemma StartGrows(t: string, o: int, ch: char, t': string, q: int)
    requires IsIns(t, o, ch, t') && 0 <= q <= |t| && ch != '\n'
    ensures var q', s := PastInsert(t, o, q), LineStart(t, q);
            0 <= q' <= |t'| && LineStart(t', q') == if o < s then s + 1 else s
  {
    var q', s := PastInsert(t, o, q), LineStart(t, q);
    var s' := if o < s then s + 1 else s;
    LineStartIs(t, q, s);
    hide LineStart;
    assert s > 0 ==> t[s-1] == '\n' && t'[s'-1] == '\n';
    forall i | s' <= i < q' ensures t'[i] != '\n' {
      assert t'[i] == if i < o then t[i] else if i == o then ch else t[i-1];
    }
    LineStartIs(t', q', s');
  }

  lemma EndGrows(t: string, o: int, ch: char, t': string, q: int)
    requires IsIns(t, o, ch, t') && 0 <= q <= |t| && ch != '\n'
    ensures var q', e := PastInsert(t, o, q), LineEnd(t, q);
            0 <= q' <= |t'| && LineEnd(t', q') == if o <= e then e + 1 else e
  {
    var q', e := PastInsert(t, o, q), LineEnd(t, q);
    var e' := if o <= e then e + 1 else e;
    LineEndIs(t, q, e);
    hide LineEnd;
    assert e < |t| ==> t[e] == '\n' && t'[e'] == '\n';
    forall i | q' <= i < e' ensures t'[i] != '\n' {
      assert t'[i] == if i < o then t[i] else if i == o then ch else t[i-1];
    }
    LineEndIs(t', q', e');
  }

  /** How the line of another place q grows when ch is typed at o. */
  lemma LineGrows(t: string, o: int, ch: char, q: int)
    requires 0 <= o <= |t| && 0 <= q <= |t| && ch != '\n'
    ensures var t', q' := Ins(t, o, ch), PastInsert(t, o, q);
            0 <= q' <= |t'| &&
            LineEnd(t', q') - LineStart(t', q') == LineEnd(t, q) - LineStart(t, q) + if SameLine(t, o, q) then 1 else 0
  {
    hide *;
    var t' := Ins(t, o, ch);
    InsIs(t, o, ch);
    StartGrows(t, o, ch, t', q);
    EndGrows(t, o, ch, t', q);
    LineOf(t, q, o);
  }

  predicate Run(t: string, lo: int, hi: int, ch: char)
    requires 0 <= lo && hi <= |t|
  {
    forall i :: lo <= i < hi ==> t[i] == ch
  }

  /**
   When two users may type at once, a at p and b at q: the texts agree if one line is full, or
   the lines differ, or the two characters end up in the same order.  With room for one only,
   each side keeps its own.
   */
  predicate Commute(f: Flat, p: int, q: int, a: char, b: char)
    requires 0 <= p <= |f.text| && 0 <= q <= |f.text|
  {
    if !Roomy(f, p) || !Roomy(f, q) || !SameLine(f.text, p, q) then true
    else if LineEnd(f.text, p) - LineStart(f.text, p) == f.width - 2 then
      a == b && Run(f.text, Min(p, q), if p < q then q else p, a)
    else
      (p == q ==> a == b) && (q == p + 1 ==> b == f.text[p]) && (p == q + 1 ==> a == f.text[q])
  }

  /** The text after a is typed at p and then b at q, each if there is room. */
  function Crossed(f: Flat, p: int, q: int, a: char, b: char): string
    requires 0 <= p <= |f.text| && 0 <= q <= |f.text|
  {
    if !Roomy(f, p) then if !Roomy(f, q) then f.text else Ins(f.text, q, b)
    else if !Roomy(f, q) ||
            (SameLine(f.text, p, q) && LineEnd(f.text, p) - LineStart(f.text, p) == f.width - 2) then Ins(f.text, p, a)
    else Ins(Ins(f.text, p, a), PastInsert(f.text, p, q), b)
  }

  lemma CrossedIs(f: Flat, u: int, v: int, a: char, b: char)
    requires Good(f) && u in f.offs && v in f.offs && u != v && a != '\n'
    ensures FlatApply(FlatApply(f, u, Insert(a)), v, Insert(b)).text == Crossed(f, f.offs[u], f.offs[v], a, b)
  {
    var p, q := f.offs[u], f.offs[v];
    var g := FlatApply(f, u, Insert(a));
    LineOf(f.text, q, p);
    if Roomy(f, p) {
      assert g.text == Ins(f.text, p, a) && g.offs[v] == PastInsert(f.text, p, q) && g.width == f.width;
      LineGrows(f.text, p, a, q);
    }
    hide LineStart, LineEnd;
  }

  // ---------------------------------------------------------------- two insertions compared

  lemma InsertedTwice(t: string, p: int, q: int, a: char, b: char, x: string, y: string)
    requires IsIns(t, p, a, x) && IsIns(t, q, b, y) && p <= q
    ensures x == y <==> a == b && Run(t, p, q, a)
  {
    if x == y {
      assert x[q] == y[q];
      RunBack(t, x, p, q, a);
    } else if a == b && Run(t, p, q, a) {
      assert forall i :: 0 <= i <= |t| ==> x[i] == y[i];
    }
  }

  lemma OneEach(t: string, p: int, q: int, a: char, b: char)
    requires 0 <= p <= q <= |t|
    ensures Ins(t, p, a) == Ins(t, q, b) <==> a == b && Run(t, p, q, a)
  {
    hide *;
    InsIs(t, p, a);
    InsIs(t, q, b);
    InsertedTwice(t, p, q, a, b, Ins(t, p, a), Ins(t, q, b));
  }

  /** A character that stands after its successor all the way from p to q is a run. */
  lemma {:induction false} RunBack(t: string, x: string, p: int, q: int, a: char)
    requires 0 <= p <= q <= |t| && |x| == |t| + 1 && x[p] == a
    requires forall i :: p <= i < q ==> x[i] == t[i]
    requires forall i :: p < i <= q ==> x[i] == t[i-1]
    ensures Run(t, p, q, a) && x[q] == a
    decreases q - p
  {
    if p < q {
      RunBack(t, x, p + 1, q, a);
    }
  }

  lemma BothApart(t: string, p: int, q: int, a: char, b: char)
    requires 0 <= p < q <= |t|
    ensures Ins(Ins(t, p, a), q + 1, b) == Ins(Ins(t, q, b), p, a)
  {
  }

  lemma BothAdjacent(t: string, p: int, a: char, b: char)
    requires 0 <= p < |t|
    ensures Ins(Ins(t, p, a), p + 1, b) == Ins(Ins(t, p + 1, b), p, a) <==> b == t[p]
  {
    var x, y := Ins(Ins(t, p, a), p + 1, b), Ins(Ins(t, p + 1, b), p, a);
    assert x == t[..p] + [a, b] + t[p..] && t[p..] == [t[p]] + t[p+1..];
    assert y == t[..p] + [a] + [t[p]] + [b] + t[p+1..];
    assert x[p+1] == b && y[p+1] == t[p];
  }

  lemma BothHere(t: string, p: int, a: char, b: char)
    requires 0 <= p <= |t|
    ensures Ins(Ins(t, p, a), p, b) == Ins(Ins(t, p, b), p, a) <==> a == b
  {
    var x, y := Ins(Ins(t, p, a), p, b), Ins(Ins(t, p, b), p, a);
    assert x[p] == b && y[p] == a;
  }

  lemma CrossedAgree(f: Flat, p: int, q: int, a: char, b: char)
    requires 0 <= p <= q <= |f.text|
    ensures Crossed(f, p, q, a, b) == Crossed(f, q, p, b, a) <==> Commute(f, p, q, a, b)
  {
    LineOf(f.text, q, p);
    LineOf(f.text, p, q);
    LineStartIs(f.text, q, LineStart(f.text, q));
    hide LineStart, LineEnd, Ins;
    OneEach(f.text, p, q, a, b);
    if p == q {
      BothHere(f.text, p, a, b);
    } else {
      BothApart(f.text, p, q, a, b);
      if q == p + 1 {
        BothAdjacent(f.text, p, a, b);
      }
    }
  }

  /** Two users who type at once, each seeing its own edit first, agree exactly when the edits commute. */
  lemma CrossingInserts(f: Flat, u: int, v: int, a: char, b: char)
    requires Good(f) && u in f.offs && v in f.offs && u != v && a != '\n' && b != '\n'
    ensures FlatApply(FlatApply(f, u, Insert(a)), v, Insert(b)).text == FlatApply(FlatApply(f, v, Insert(b)), u, Insert(a)).text
            <==> Commute(f, f.offs[u], f.offs[v], a, b)
  {
    CrossedIs(f, u, v, a, b);
    CrossedIs(f, v, u, b, a);
    var p, q := f.offs[u], f.offs[v];
    LineOf(f.text, q, p);
    hide Crossed, FlatApply, LineStart, LineEnd;
    if p <= q {
      CrossedAgree(f, p, q, a, b);
    } else {
      CrossedAgree(f, q, p, b, a);
    }
  }
}
