/**
 Main results about the edit operations: over the flat text and flat offsets each of them
 is a plain string edit, and the offset of every cursor afterwards is stated exactly.
 */
module FlatEdits {
  import opened Document
  import opened FlatText
  import opened FlatEditor

  // ---------------------------------------------------------------- places and their offsets

  lemma {:induction false} CatPrefixGrows(ls: seq<Line>, i: nat, j: nat)
    requires i <= j <= |ls|
    ensures |Cat(ls[..i])| + (if i < j then |ls[i].str| + 1 else 0) <= |Cat(ls[..j])|
  {
    if i < j {
      CatSplit(ls, i);
      assert ls[..j] == ls[..i+1] + ls[i+1..j];
      CatAppend(ls[..i+1], ls[i+1..j]);
    }
  }

  /** Offsets order places as lines and columns do. */
  lemma OffsetOrder(d: Doc, p: Pos, q: Pos)
    requires ChainOk(d) && OnText(d, p) && OnText(d, q)
    ensures var i, j := Idx(d.lines, p.line), Idx(d.lines, q.line);
            Offset(d, p) < Offset(d, q) <==> i < j || (i == j && p.col < q.col)
  {
    var i, j := Idx(d.lines, p.line), Idx(d.lines, q.line);
    if i < j {
      CatPrefixGrows(d.lines, i, j);
    } else {
      CatPrefixGrows(d.lines, j, i);
    }
  }

  /** Two places of the text with the same offset are the same place. */
  lemma OffsetInjective(d: Doc, p: Pos, q: Pos)
    requires ChainOk(d) && OnText(d, p) && OnText(d, q) && Offset(d, p) == Offset(d, q)
    ensures p == q
  {
    OffsetOrder(d, p, q);
    OffsetOrder(d, q, p);
  }

  /** A place of line k, as a split of the text with its final line break. */
  lemma BodySplit(d: Doc, k: nat)
    requires ChainOk(d) && k <= LastAt(d)
    ensures Text(d) + "\n" == Cat(d.lines[..k]) + (d.lines[k].str + "\n") + Cat(Body(d)[k+1..])
  {
    var b := Body(d);
    CatJoined(b);
    CatSplit(b, k);
    assert b[..k] == d.lines[..k];
  }

  lemma OffsetInText(d: Doc, p: Pos)
    requires ChainOk(d) && OnText(d, p)
    ensures 0 <= Offset(d, p) <= |Text(d)|
  {
    BodySplit(d, Idx(d.lines, p.line));
  }

  /** Replacing m[i..j] inside a + m + '\n' + b, seen on the texts without their final line break. */
  lemma SpliceText(t: string, t': string, a: string, m: string, b: string, i: nat, j: nat, x: string)
    requires t + "\n" == a + (m + "\n") + b && i <= j <= |m|
    requires t' + "\n" == a + (m[..i] + x + m[j..] + "\n") + b
    ensures |a| + j <= |t| && t' == t[..|a| + i] + x + t[|a| + j..]
  {
    var full := t + "\n";
    assert |t'| == |t| + |x| - (j - i);
    assert full[..|a| + i] == a + m[..i];
    assert full[|a| + j..] == m[j..] + "\n" + b;
    assert t' + "\n" == full[..|a| + i] + x + full[|a| + j..];
    assert t[..|a| + i] == full[..|a| + i];
    assert t[|a| + j..] + "\n" == full[|a| + j..];
    assert t' == (t' + "\n")[..|t'|];
  }

  // ---------------------------------------------------------------- lines inside the flat text

  lemma CatEnds(ls: seq<Line>, k: nat)
    requires k <= |ls|
    ensures k == 0 ==> Cat(ls[..k]) == ""
    ensures k > 0 ==> Cat(ls[..k]) != "" && Cat(ls[..k])[|Cat(ls[..k])| - 1] == '\n'
  {
    if k > 0 {
      CatSplit(ls, k - 1);
    }
  }

  /** The line s of a + s + '\n' + b, found again by the line breaks around it. */
  lemma ShapeOf(t: string, a: string, s: string, b: string, col: int)
    requires t + "\n" == a + (s + "\n") + b && TypedString(s) && 0 <= col <= |s|
    requires a == "" || a[|a|-1] == '\n'
    ensures |a| + |s| <= |t|
    ensures LineStart(t, |a| + col) == |a|
    ensures LineEnd(t, |a| + col) == |a| + |s|
  {
    var full := t + "\n";
    assert forall i :: 0 <= i < |t| ==> t[i] == full[i];
    assert forall i :: |a| <= i < |a| + |s| ==> full[i] == s[i - |a|] && Typed(s[i - |a|]);
    assert a != "" ==> full[|a|-1] == '\n';
    assert full[|a| + |s|] == '\n';
    LineStartIs(t, |a| + col, |a|);
    LineEndIs(t, |a| + col, |a| + |s|);
  }

  /** The line of a place, found again in the flat text. */
  lemma LineShape(d: Doc, p: Pos)
    requires ChainOk(d) && OnText(d, p)
    ensures 0 <= Offset(d, p) <= |Text(d)|
    ensures LineStart(Text(d), Offset(d, p)) == Offset(d, p) - p.col
    ensures LineEnd(Text(d), Offset(d, p)) == Offset(d, p) - p.col + |d.lines[Idx(d.lines, p.line)].str|
  {
    var k := Idx(d.lines, p.line);
    assert LineOk(d.lines[k], d.idCnt);
    BodySplit(d, k);
    CatEnds(d.lines, k);
    ShapeOf(Text(d), Cat(d.lines[..k]), d.lines[k].str, Cat(Body(d)[k+1..]), p.col);
  }

  lemma CharsOf(t: string, a: string, s: string, b: string, i: int)
    requires t + "\n" == a + (s + "\n") + b && 0 <= i < |s|
    ensures |a| + i < |t| && t[|a| + i] == s[i]
  {
    var full := t + "\n";
    assert full[|a| + i] == s[i] && |a| + i < |t|;
  }

  /** The characters of the line of a place, found again in the flat text. */
  lemma LineChars(d: Doc, p: Pos, i: int)
    requires ChainOk(d) && OnText(d, p) && 0 <= i < |d.lines[Idx(d.lines, p.line)].str|
    ensures 0 <= Offset(d, p) - p.col + i < |Text(d)|
    ensures Text(d)[Offset(d, p) - p.col + i] == d.lines[Idx(d.lines, p.line)].str[i]
  {
    var k := Idx(d.lines, p.line);
    BodySplit(d, k);
    CharsOf(Text(d), Cat(d.lines[..k]), d.lines[k].str, Cat(Body(d)[k+1..]), i);
  }

  /** Places on one line have one line start, and no others have. */
  lemma SameLineIs(d: Doc, p: Pos, q: Pos)
    requires ChainOk(d) && OnText(d, p) && OnText(d, q)
    ensures Offset(d, p) - p.col == Offset(d, q) - q.col <==> p.line == q.line
  {
    if Offset(d, p) - p.col == Offset(d, q) - q.col {
      OffsetInjective(d, p.(col := 0), q.(col := 0));
    }
  }

  /** The text ends with the last line, and a line break follows every other line. */
  lemma LastLineEnds(d: Doc, k: nat)
    requires ChainOk(d) && k <= LastAt(d)
    ensures |Cat(d.lines[..k])| + |d.lines[k].str| == |Text(d)| <==> k == LastAt(d)
  {
    BodySplit(d, k);
    var b := Body(d)[k+1..];
    if k == LastAt(d) {
      assert b == [];
    } else {
      assert Cat(b) == b[0].str + "\n" + Cat(b[1..]);
    }
  }

  // ---------------------------------------------------------------- moves

  lemma UpIsFlat(d: Doc, p: Pos)
    requires ChainOk(d) && OnText(d, p)
    ensures 0 <= Offset(d, p) <= |Text(d)|
    ensures Offset(d, MovePos(d.lines, d.last, p, Up)) == UpFrom(Text(d), Offset(d, p))
  {
    LineShape(d, p);
    var k := Idx(d.lines, p.line);
    CatEnds(d.lines, k);
    if k > 0 {
      var prev := d.lines[k-1];
      CatSplit(d.lines, k - 1);
      assert Idx(d.lines, prev.id) == k - 1;
      LineShape(d, Pos(prev.id, |prev.str|));
    }
  }

  lemma DownIsFlat(d: Doc, p: Pos)
    requires ChainOk(d) && OnText(d, p)
    ensures 0 <= Offset(d, p) <= |Text(d)|
    ensures Offset(d, MovePos(d.lines, d.last, p, Down)) == DownFrom(Text(d), Offset(d, p))
  {
    LineShape(d, p);
    var k := Idx(d.lines, p.line);
    LastLineEnds(d, k);
    assert p.line == d.last <==> k == LastAt(d);
    if k < LastAt(d) {
      var next := d.lines[k+1];
      CatSplit(d.lines, k);
      assert Idx(d.lines, next.id) == k + 1;
      LineShape(d, Pos(next.id, 0));
    }
  }

  lemma LeftIsFlat(d: Doc, p: Pos)
    requires ChainOk(d) && OnText(d, p)
    ensures Offset(d, MovePos(d.lines, d.last, p, Left)) == if Offset(d, p) == 0 then 0 else Offset(d, p) - 1
  {
    var k := Idx(d.lines, p.line);
    CatEnds(d.lines, k);
    if p.col == 0 && k > 0 {
      CatSplit(d.lines, k - 1);
      assert Idx(d.lines, d.lines[k-1].id) == k - 1;
    }
  }

  lemma RightIsFlat(d: Doc, p: Pos)
    requires ChainOk(d) && OnText(d, p)
    ensures Offset(d, MovePos(d.lines, d.last, p, Right)) ==
            if Offset(d, p) == |Text(d)| then Offset(d, p) else Offset(d, p) + 1
  {
    var k := Idx(d.lines, p.line);
    LastLineEnds(d, k);
    OffsetInText(d, p);
    BodySplit(d, k);
    assert p.line == d.last <==> k == LastAt(d);
    if p.col == |d.lines[k].str| && k < LastAt(d) {
      CatSplit(d.lines, k);
      assert Idx(d.lines, d.lines[k+1].id) == k + 1;
    }
  }

  lemma MoveIsFlat(d: Doc, p: Pos, dir: Dir)
    requires ChainOk(d) && OnText(d, p)
    ensures 0 <= Offset(d, p) <= |Text(d)|
    ensures Offset(d, MovePos(d.lines, d.last, p, dir)) == MoveFrom(Text(d), Offset(d, p), dir)
  {
    OffsetInText(d, p);
    match dir
    case Up => UpIsFlat(d, p);
    case Down => DownIsFlat(d, p);
    case Left => LeftIsFlat(d, p);
    case Right => RightIsFlat(d, p);
  }

  // ---------------------------------------------------------------- the text after each operation

  lemma SetStrFlat(d: Doc, k: nat, t: string)
    requires ChainOk(d) && k <= LastAt(d)
    ensures Text(d.(lines := SetStr(d.lines, k, t))) + "\n" ==
            Cat(d.lines[..k]) + (t + "\n") + Cat(Body(d)[k+1..])
  {
    var b := Body(d.(lines := SetStr(d.lines, k, t)));
    CatJoined(b);
    CatSplit(b, k);
    assert b[..k] == d.lines[..k];
    assert b[k+1..] == Body(d)[k+1..];
  }

  lemma TypeText(d: Doc, d': Doc, k: nat, col: nat, upto: nat, x: string)
    requires ChainOk(d) && k <= LastAt(d) && col <= upto <= |d.lines[k].str|
    requires d'.lines == SetStr(d.lines, k, d.lines[k].str[..col] + x + d.lines[k].str[upto..])
    requires d'.height == d.height
    ensures var o := |Cat(d.lines[..k])|;
            o + upto <= |Text(d)| && Text(d') == Text(d)[..o + col] + x + Text(d)[o + upto..]
  {
    var t := d.lines[k].str[..col] + x + d.lines[k].str[upto..];
    SetStrFlat(d, k, t);
    BodySplit(d, k);
    assert Body(d') == Body(d.(lines := SetStr(d.lines, k, t)));
    SpliceText(Text(d), Text(d'), Cat(d.lines[..k]), d.lines[k].str,
               Cat(Body(d)[k+1..]), col, upto, x);
  }

  lemma AboveText(d: Doc, d': Doc, k: nat)
    requires ChainOk(d) && k <= LastAt(d)
    requires d'.lines == InsertAt(d.lines, k, Line(d.idCnt, "")) && d'.height == d.height
    ensures var o := |Cat(d.lines[..k])|;
            o <= |Text(d)| && Text(d') == Text(d)[..o] + "\n" + Text(d)[o..]
  {
    var s := d.lines[k].str;
    var a, b := Cat(d.lines[..k]), Cat(Body(d)[k+1..]);
    AboveBody(d, d', k);
    BodySplit(d, k);
    assert (a + "\n") + (s + "\n") + b == a + (s[..0] + "\n" + s[0..] + "\n") + b;
    SpliceText(Text(d), Text(d'), a, s, b, 0, 0, "\n");
  }

  lemma AboveBody(d: Doc, d': Doc, k: nat)
    requires ChainOk(d) && k <= LastAt(d)
    requires d'.lines == InsertAt(d.lines, k, Line(d.idCnt, "")) && d'.height == d.height
    ensures Text(d') + "\n" == (Cat(d.lines[..k]) + "\n") + (d.lines[k].str + "\n") + Cat(Body(d)[k+1..])
  {
    var b := Body(d');
    var l := Line(d.idCnt, "");
    assert b == d.lines[..k] + [l] + [d.lines[k]] + Body(d)[k+1..];
    CatJoined(b);
    CatAppend(d.lines[..k] + [l] + [d.lines[k]], Body(d)[k+1..]);
    CatAppend(d.lines[..k] + [l], [d.lines[k]]);
    CatAppend(d.lines[..k], [l]);
    CatOne(l);
    CatOne(d.lines[k]);
  }

  lemma SplitBody(d: Doc, d': Doc, k: nat, col: nat)
    requires ChainOk(d) && k <= LastAt(d) && col <= |d.lines[k].str| && d'.height == d.height
    requires var s := d.lines[k].str;
             d'.lines == InsertAt(SetStr(d.lines, k, s[..col]), k + 1, Line(d.idCnt, s[col..]))
    ensures var s := d.lines[k].str;
            Text(d') + "\n" == Cat(d.lines[..k]) + (s[..col] + "\n") + (s[col..] + "\n") + Cat(Body(d)[k+1..])
  {
    var b := Body(d');
    var l, r := Line(d.lines[k].id, d.lines[k].str[..col]), Line(d.idCnt, d.lines[k].str[col..]);
    assert b == d.lines[..k] + [l] + [r] + Body(d)[k+1..];
    CatJoined(b);
    CatAppend(d.lines[..k] + [l] + [r], Body(d)[k+1..]);
    CatAppend(d.lines[..k] + [l], [r]);
    CatAppend(d.lines[..k], [l]);
    CatOne(l);
    CatOne(r);
  }

  lemma SplitText(d: Doc, d': Doc, k: nat, col: nat)
    requires ChainOk(d) && k <= LastAt(d) && col <= |d.lines[k].str| && d'.height == d.height
    requires var s := d.lines[k].str;
             d'.lines == InsertAt(SetStr(d.lines, k, s[..col]), k + 1, Line(d.idCnt, s[col..]))
    ensures var o := |Cat(d.lines[..k])| + col;
            o <= |Text(d)| && Text(d') == Text(d)[..o] + "\n" + Text(d)[o..]
  {
    var s := d.lines[k].str;
    var a, b := Cat(d.lines[..k]), Cat(Body(d)[k+1..]);
    SplitBody(d, d', k, col);
    BodySplit(d, k);
    Regroup(a, s[..col], s[col..], b);
    SpliceText(Text(d), Text(d'), a, s, b, col, col, "\n");
  }

  lemma Regroup(a: string, r: string, s: string, b: string)
    ensures (a + (r + "\n")) + (s + "\n") + b == a + ((r + "\n" + s) + "\n") + b
  {
  }

  lemma JoinText(d: Doc, d': Doc, k: nat)
    requires ChainOk(d) && 0 < k <= LastAt(d) && d'.height == d.height
    requires d'.lines == RemoveAt(SetStr(d.lines, k - 1, d.lines[k-1].str + d.lines[k].str), k)
    ensures var o := |Cat(d.lines[..k])|;
            0 < o <= |Text(d)| && Text(d') == Text(d)[..o-1] + Text(d)[o..]
  {
    hide Cat;
    var r, s := d.lines[k-1].str, d.lines[k].str;
    var a, b := Cat(d.lines[..k-1]), Cat(Body(d)[k+1..]);
    JoinBody(d, d', k);
    BodySplit(d, k);
    CatSplit(d.lines, k - 1);
    var m := r + "\n" + s;
    assert m[..|r|] + "" + m[|r| + 1..] == r + s;
    Regroup(a, r, s, b);
    SpliceText(Text(d), Text(d'), a, m, b, |r|, |r| + 1, "");
  }

  lemma JoinBody(d: Doc, d': Doc, k: nat)
    requires ChainOk(d) && 0 < k <= LastAt(d) && d'.height == d.height
    requires d'.lines == RemoveAt(SetStr(d.lines, k - 1, d.lines[k-1].str + d.lines[k].str), k)
    ensures Text(d') + "\n" ==
            Cat(d.lines[..k-1]) + (d.lines[k-1].str + d.lines[k].str + "\n") + Cat(Body(d)[k+1..])
  {
    var b := Body(d');
    var l := Line(d.lines[k-1].id, d.lines[k-1].str + d.lines[k].str);
    assert b == d.lines[..k-1] + [l] + Body(d)[k+1..];
    CatJoined(b);
    CatAppend(d.lines[..k-1] + [l], Body(d)[k+1..]);
    CatAppend(d.lines[..k-1], [l]);
    CatOne(l);
  }

  // ---------------------------------------------------------------- every cursor after each operation

  lemma SetStrOffset(ls: seq<Line>, k: nat, t: string, q: Pos)
    requires k < |ls|
    ensures At(SetStr(ls, k, t), Idx(SetStr(ls, k, t), q.line), q.col) ==
            At(ls, Idx(ls, q.line), q.col) + if k < Idx(ls, q.line) then |t| - |ls[k].str| else 0
  {
    SetStrIdx(ls, k, t, q.line);
    SetStrPrefix(ls, k, t, Idx(ls, q.line));
  }

  lemma InsertAtOffset(ls: seq<Line>, k: nat, l: Line, q: Pos)
    requires k <= |ls| && Fresh(ls, l.id)
    ensures At(InsertAt(ls, k, l), Idx(InsertAt(ls, k, l), q.line), q.col) ==
            if q.line == l.id then At(ls, k, q.col)
            else At(ls, Idx(ls, q.line), q.col) + if k <= Idx(ls, q.line) then |l.str| + 1 else 0
  {
    hide Idx, Cat, InsertAt;
    InsertAtIdx(ls, k, l, q.line);
    InsertAtPrefix(ls, k, l, Idx(InsertAt(ls, k, l), q.line));
  }

  lemma RemoveAtOffset(ls: seq<Line>, k: nat, q: Pos)
    requires k < |ls| && q.line != ls[k].id && Idx(ls, q.line) < |ls|
    ensures At(RemoveAt(ls, k), Idx(RemoveAt(ls, k), q.line), q.col) ==
            At(ls, Idx(ls, q.line), q.col) - if k < Idx(ls, q.line) then |ls[k].str| + 1 else 0
  {
    RemoveAtIdx(ls, k, q.line);
    RemoveAtPrefix(ls, k, Idx(RemoveAt(ls, k), q.line));
    CatSplit(ls, k);
  }

  /** A place p of line k: its offset, and the character right of it. */
  lemma PlaceInText(d: Doc, k: nat, col: int)
    requires ChainOk(d) && k <= LastAt(d) && 0 <= col <= |d.lines[k].str|
    ensures Idx(d.lines, d.lines[k].id) == k
    ensures var o := |Cat(d.lines[..k])| + col;
            o == Offset(d, Pos(d.lines[k].id, col)) && o <= |Text(d)| &&
            LineStart(Text(d), o) == o - col && LineEnd(Text(d), o) == o - col + |d.lines[k].str|
  {
    assert Idx(d.lines, d.lines[k].id) == k;
    LineShape(d, Pos(d.lines[k].id, col));
  }

  /** Whether q stands just right of p on the same line, read off the flat text. */
  lemma JustRight(d: Doc, p: Pos, q: Pos)
    requires ChainOk(d) && OnText(d, p) && OnText(d, q)
    ensures 0 <= Offset(d, p) <= |Text(d)|
    ensures q == p.(col := p.col + 1) <==>
            Offset(d, q) == Offset(d, p) + 1 && Offset(d, p) < |Text(d)| && Text(d)[Offset(d, p)] != '\n'
  {
    LineShape(d, p);
    LineShape(d, q);
    var k := Idx(d.lines, p.line);
    var right := p.(col := p.col + 1);
    if p.col < |d.lines[k].str| {
      assert OnText(d, right);
      if Offset(d, q) == Offset(d, right) { OffsetInjective(d, q, right); }
    }
  }

  lemma TypeOffset(d: Doc, c: int, k: nat, col: int, ch: char, j: int)
    requires WF(d) && j in d.curs && k <= LastAt(d) && 0 <= col <= |d.lines[k].str|
    ensures var d' := TypeChar(d, c, k, col, ch);
            var o := Offset(d, Pos(d.lines[k].id, col));
            0 <= o <= |Text(d)| && 0 <= Offset(d, d.curs[j]) <= |Text(d)| &&
            Offset(d', d'.curs[j]) == if j == c then o + 1 else PastInsert(Text(d), o, Offset(d, d.curs[j]))
  {
    var l := d.lines[k];
    var t := l.str[..col] + [ch] + l.str[col..];
    var p, q := Pos(l.id, col), d.curs[j];
    assert OnText(d, q);
    PlaceInText(d, k, col);
    SetStrOffset(d.lines, k, t, Pos(l.id, col + 1));
    SetStrOffset(d.lines, k, t, q);
    SetStrOffset(d.lines, k, t, AfterInsert(p, q));
    OffsetOrder(d, p, q);
    JustRight(d, p, q);
    OffsetInText(d, q);
  }

  lemma DeleteOffset(d: Doc, c: int, k: nat, col: int, j: int)
    requires WF(d) && j in d.curs && k <= LastAt(d) && 0 < col <= |d.lines[k].str|
    ensures var d' := DeleteChar(d, c, k, col);
            var o := Offset(d, Pos(d.lines[k].id, col));
            Offset(d', d'.curs[j]) == if j == c then o - 1 else PastDelete(o, Offset(d, d.curs[j]))
  {
    var l := d.lines[k];
    var t := l.str[..col-1] + l.str[col..];
    var p, q := Pos(l.id, col), d.curs[j];
    assert OnText(d, q);
    PlaceInText(d, k, col);
    SetStrOffset(d.lines, k, t, Pos(l.id, col - 1));
    SetStrOffset(d.lines, k, t, q);
    SetStrOffset(d.lines, k, t, AfterDelete(Pos(l.id, col - 1), q));
    OffsetOrder(d, q, p);
  }

  /** A place of the right half of a split line. */
  lemma RightHalfOffset(d: Doc, k: nat, col: int, at: int)
    requires ChainOk(d) && k <= LastAt(d) && 0 < col <= |d.lines[k].str|
    ensures var s := d.lines[k].str;
            var ls := InsertAt(SetStr(d.lines, k, s[..col]), k + 1, Line(d.idCnt, s[col..]));
            At(ls, Idx(ls, d.idCnt), at) == |Cat(d.lines[..k])| + col + 1 + at
  {
    var s := d.lines[k].str;
    var m := SetStr(d.lines, k, s[..col]);
    CounterFresh(d);
    SetStrIdx(d.lines, k, s[..col], d.idCnt);
    InsertAtOffset(m, k + 1, Line(d.idCnt, s[col..]), Pos(d.idCnt, at));
    SetStrPrefix(d.lines, k, s[..col], k + 1);
    CatSplit(d.lines, k);
  }

  /** A place of any other line, or of the left half. */
  lemma BesideSplitOffset(d: Doc, k: nat, col: int, q: Pos)
    requires ChainOk(d) && k <= LastAt(d) && 0 < col <= |d.lines[k].str| && OnText(d, q)
    ensures var s := d.lines[k].str;
            var ls := InsertAt(SetStr(d.lines, k, s[..col]), k + 1, Line(d.idCnt, s[col..]));
            At(ls, Idx(ls, q.line), q.col) == Offset(d, q) + if k < Idx(d.lines, q.line) then 1 else 0
  {
    var s := d.lines[k].str;
    var m := SetStr(d.lines, k, s[..col]);
    CounterFresh(d);
    SetStrIdx(d.lines, k, s[..col], d.idCnt);
    SetStrIdx(d.lines, k, s[..col], q.line);
    SetStrOffset(d.lines, k, s[..col], q);
    InsertAtOffset(m, k + 1, Line(d.idCnt, s[col..]), q);
  }

  lemma SplitOffset(d: Doc, c: int, k: nat, col: int, j: int)
    requires WF(d) && j in d.curs && k <= LastAt(d) && 0 < col <= |d.lines[k].str|
    ensures var d' := SplitLine(d, c, k, col);
            var o := Offset(d, Pos(d.lines[k].id, col));
            0 <= o <= |Text(d)| &&
            Offset(d', d'.curs[j]) == if j == c then o + 1 else PastNewLine(Text(d), o, Offset(d, d.curs[j]))
  {
    hide OnLines;
    var l := d.lines[k];
    var p, q := Pos(l.id, col), d.curs[j];
    assert OnText(d, q);
    PlaceInText(d, k, col);
    OffsetOrder(d, p, q);
    if j == c {
      RightHalfOffset(d, k, col, 0);
    } else if q.line == l.id && col < q.col {
      RightHalfOffset(d, k, col, q.col - col);
    } else {
      BesideSplitOffset(d, k, col, q);
    }
  }

  /** A place of the joined line, or of any other one, after line k went onto line k - 1. */
  lemma BesideJoinOffset(d: Doc, k: nat, q: Pos)
    requires ChainOk(d) && 0 < k <= LastAt(d) && q.line != d.lines[k].id && Idx(d.lines, q.line) < |d.lines|
    ensures var ls := RemoveAt(SetStr(d.lines, k - 1, d.lines[k-1].str + d.lines[k].str), k);
            At(ls, Idx(ls, q.line), q.col) == Offset(d, q) - if k < Idx(d.lines, q.line) then 1 else 0
  {
    var t := d.lines[k-1].str + d.lines[k].str;
    var m := SetStr(d.lines, k - 1, t);
    SetStrIdx(d.lines, k - 1, t, q.line);
    SetStrOffset(d.lines, k - 1, t, q);
    RemoveAtOffset(m, k, q);
  }

  lemma JoinOffset(d: Doc, c: int, k: nat, j: int)
    requires WF(d) && j in d.curs && 0 < k <= LastAt(d)
    ensures var d' := JoinLine(d, c, k);
            var o := Offset(d, Pos(d.lines[k].id, 0));
            Offset(d', d'.curs[j]) == if j == c then o - 1 else PastDelete(o, Offset(d, d.curs[j]))
  {
    var prev, l := d.lines[k-1], d.lines[k];
    var q := d.curs[j];
    assert OnText(d, q);
    assert Idx(d.lines, l.id) == k && Idx(d.lines, prev.id) == k - 1;
    CatSplit(d.lines, k - 1);
    OffsetOrder(d, q, Pos(l.id, 0));
    BesideJoinOffset(d, k, JoinLine(d, c, k).curs[j]);
  }

  lemma AboveOffset(d: Doc, k: nat, q: Pos)
    requires ChainOk(d) && OnText(d, q) && k <= LastAt(d)
    ensures var d' := d.(lines := InsertAt(d.lines, k, Line(d.idCnt, "")));
            var o := |Cat(d.lines[..k])|;
            o <= |Text(d)| && LineStart(Text(d), o) == o &&
            Offset(d', q) == PastNewLine(Text(d), o, Offset(d, q))
  {
    PlaceInText(d, k, 0);
    CounterFresh(d);
    InsertAtOffset(d.lines, k, Line(d.idCnt, ""), q);
    OffsetOrder(d, q, Pos(d.lines[k].id, 0));
  }

  /** The flat document of a chain of lines. */
  function Abs(d: Doc): Flat
    requires 1 <= d.height <= |d.lines|
  {
    Flat(Text(d), d.width, d.server, map j | j in d.curs :: Offset(d, d.curs[j]))
  }

  lemma AbsGood(d: Doc)
    requires WF(d)
    ensures Good(Abs(d))
  {
    forall j | j in d.curs ensures 0 <= Offset(d, d.curs[j]) <= |Text(d)| {
      assert OnText(d, d.curs[j]);
      OffsetInText(d, d.curs[j]);
    }
  }

  /** d' shows the flat document f, d being what both were made from. */
  lemma AbsIs(d: Doc, f: Flat)
    requires 1 <= d.height <= |d.lines|
    requires Text(d) == f.text && d.width == f.width && d.server == f.server
    requires d.curs.Keys == f.offs.Keys
    requires forall j :: j in d.curs ==> Offset(d, d.curs[j]) == f.offs[j]
    ensures Abs(d) == f
  {
    var offs := Abs(d).offs;
    assert offs.Keys == f.offs.Keys;
    forall j | j in offs ensures offs[j] == f.offs[j] {
      assert j in d.curs;
    }
    assert offs == f.offs;
  }

  lemma TypeCharFrame(d: Doc, c: int, k: nat, col: int, ch: char)
    requires k < |d.lines| && 0 <= col <= |d.lines[k].str|
    ensures var d' := TypeChar(d, c, k, col, ch);
            d'.curs.Keys == d.curs.Keys && d'.(lines := d.lines, curs := d.curs) == d && |d'.lines| == |d.lines|
  {
  }

  lemma TypeCharText(d: Doc, c: int, k: nat, col: int, ch: char)
    requires WF(d) && c in d.curs && k <= LastAt(d) && 0 <= col <= |d.lines[k].str|
    requires d.curs[c] == Pos(d.lines[k].id, col) && |d.lines[k].str| < d.width - 1
    ensures Good(Abs(d)) && 1 <= d.height <= |TypeChar(d, c, k, col, ch).lines|
    ensures Text(TypeChar(d, c, k, col, ch)) == FlatInsert(Abs(d), c, ch).text
  {
    AbsGood(d);
    PlaceInText(d, k, col);
    TypeText(d, TypeChar(d, c, k, col, ch), k, col, col, [ch]);
  }

  lemma TypeCharOff(d: Doc, c: int, k: nat, col: int, ch: char, j: int)
    requires WF(d) && c in d.curs && k <= LastAt(d) && 0 <= col <= |d.lines[k].str|
    requires d.curs[c] == Pos(d.lines[k].id, col) && |d.lines[k].str| < d.width - 1
    requires j in d.curs
    ensures Good(Abs(d))
    ensures Offset(TypeChar(d, c, k, col, ch), TypeChar(d, c, k, col, ch).curs[j]) == FlatInsert(Abs(d), c, ch).offs[j]
  {
    AbsGood(d);
    PlaceInText(d, k, col);
    TypeOffset(d, c, k, col, ch, j);
  }

  lemma TypeCharRefines(d: Doc, c: int, k: nat, col: int, ch: char)
    requires WF(d) && c in d.curs && k <= LastAt(d) && 0 <= col <= |d.lines[k].str|
    requires d.curs[c] == Pos(d.lines[k].id, col) && |d.lines[k].str| < d.width - 1
    ensures Good(Abs(d)) && 1 <= d.height <= |TypeChar(d, c, k, col, ch).lines|
    ensures Abs(TypeChar(d, c, k, col, ch)) == FlatInsert(Abs(d), c, ch)
  {
    TypeCharText(d, c, k, col, ch);
    TypeCharFrame(d, c, k, col, ch);
    forall j | j in d.curs
      ensures Offset(TypeChar(d, c, k, col, ch), TypeChar(d, c, k, col, ch).curs[j]) == FlatInsert(Abs(d), c, ch).offs[j]
    {
      TypeCharOff(d, c, k, col, ch, j);
    }
    AbsIs(TypeChar(d, c, k, col, ch), FlatInsert(Abs(d), c, ch));
  }

  lemma InsertRefines(d: Doc, c: int, ch: char)
    requires WF(d) && c in d.curs && Typed(ch)
    ensures WF(InsertChar(d, c, ch)) && Good(Abs(d))
    ensures Abs(InsertChar(d, c, ch)) == FlatInsert(Abs(d), c, ch)
  {
    InsertKeeps(d, c, ch);
    AbsGood(d);
    assert OnText(d, d.curs[c]);
    var k := Idx(d.lines, d.curs[c].line);
    PlaceInText(d, k, d.curs[c].col);
    if |d.lines[k].str| < d.width - 1 {
      TypeCharRefines(d, c, k, d.curs[c].col, ch);
    }
  }

  lemma DeleteCharText(d: Doc, c: int, k: nat, col: int)
    requires WF(d) && c in d.curs && k <= LastAt(d) && 0 < col <= |d.lines[k].str|
    requires d.curs[c] == Pos(d.lines[k].id, col)
    ensures Good(Abs(d)) && 1 <= d.height <= |DeleteChar(d, c, k, col).lines|
    ensures Text(DeleteChar(d, c, k, col)) == FlatDelete(Abs(d), c).text
  {
    hide LastAt;
    AbsGood(d);
    PlaceInText(d, k, col);
    var s := d.lines[k].str;
    assert s[..col-1] + "" + s[col..] == s[..col-1] + s[col..];
    TypeText(d, DeleteChar(d, c, k, col), k, col - 1, col, "");
  }

  lemma DeleteCharOff(d: Doc, c: int, k: nat, col: int, j: int)
    requires WF(d) && c in d.curs && k <= LastAt(d) && 0 < col <= |d.lines[k].str|
    requires d.curs[c] == Pos(d.lines[k].id, col)
    requires j in d.curs
    ensures Good(Abs(d))
    ensures Offset(DeleteChar(d, c, k, col), DeleteChar(d, c, k, col).curs[j]) == FlatDelete(Abs(d), c).offs[j]
  {
    AbsGood(d);
    PlaceInText(d, k, col);
    DeleteOffset(d, c, k, col, j);
  }

  lemma DeleteCharRefines(d: Doc, c: int, k: nat, col: int)
    requires WF(d) && c in d.curs && k <= LastAt(d) && 0 < col <= |d.lines[k].str|
    requires d.curs[c] == Pos(d.lines[k].id, col)
    ensures Good(Abs(d)) && 1 <= d.height <= |DeleteChar(d, c, k, col).lines|
    ensures Abs(DeleteChar(d, c, k, col)) == FlatDelete(Abs(d), c)
  {
    DeleteCharText(d, c, k, col);
    forall j | j in d.curs
      ensures Offset(DeleteChar(d, c, k, col), DeleteChar(d, c, k, col).curs[j]) == FlatDelete(Abs(d), c).offs[j]
    {
      DeleteCharOff(d, c, k, col, j);
    }
    AbsIs(DeleteChar(d, c, k, col), FlatDelete(Abs(d), c));
  }

  lemma JoinLineText(d: Doc, c: int, k: nat)
    requires WF(d) && c in d.curs && 0 < k <= LastAt(d)
    requires d.curs[c] == Pos(d.lines[k].id, 0)
    ensures Good(Abs(d)) && 1 <= d.height <= |JoinLine(d, c, k).lines|
    ensures Text(JoinLine(d, c, k)) == FlatDelete(Abs(d), c).text
  {
    AbsGood(d);
    PlaceInText(d, k, 0);
    JoinText(d, JoinLine(d, c, k), k);
  }

  lemma JoinLineOff(d: Doc, c: int, k: nat, j: int)
    requires WF(d) && c in d.curs && 0 < k <= LastAt(d)
    requires d.curs[c] == Pos(d.lines[k].id, 0)
    requires j in d.curs
    ensures Good(Abs(d)) && Offset(JoinLine(d, c, k), JoinLine(d, c, k).curs[j]) == FlatDelete(Abs(d), c).offs[j]
  {
    AbsGood(d);
    PlaceInText(d, k, 0);
    CatEnds(d.lines, k);
    JoinOffset(d, c, k, j);
  }

  lemma JoinLineRefines(d: Doc, c: int, k: nat)
    requires WF(d) && c in d.curs && 0 < k <= LastAt(d)
    requires d.curs[c] == Pos(d.lines[k].id, 0)
    ensures Good(Abs(d)) && 1 <= d.height <= |JoinLine(d, c, k).lines|
    ensures Abs(JoinLine(d, c, k)) == FlatDelete(Abs(d), c)
  {
    JoinLineText(d, c, k);
    forall j | j in d.curs ensures Offset(JoinLine(d, c, k), JoinLine(d, c, k).curs[j]) == FlatDelete(Abs(d), c).offs[j] {
      JoinLineOff(d, c, k, j);
    }
    AbsIs(JoinLine(d, c, k), FlatDelete(Abs(d), c));
  }

  lemma BackspaceRefines(d: Doc, c: int)
    requires WF(d) && c in d.curs
    ensures WF(Backspace(d, c)) && Good(Abs(d))
    ensures Abs(Backspace(d, c)) == FlatDelete(Abs(d), c)
  {
    BackspaceKeeps(d, c);
    AbsGood(d);
    var p := d.curs[c];
    assert OnText(d, p);
    var k := Idx(d.lines, p.line);
    CatEnds(d.lines, k);
    if p.col > 0 {
      DeleteCharRefines(d, c, k, p.col);
    } else if k > 0 {
      JoinLineRefines(d, c, k);
    }
  }

  lemma SplitLineText(d: Doc, c: int, k: nat, col: int)
    requires WF(d) && c in d.curs && k <= LastAt(d) && 0 < col <= |d.lines[k].str|
    requires d.curs[c] == Pos(d.lines[k].id, col)
    ensures Good(Abs(d)) && 1 <= d.height <= |SplitLine(d, c, k, col).lines|
    ensures Text(SplitLine(d, c, k, col)) == FlatNewLine(Abs(d), c).text
  {
    AbsGood(d);
    PlaceInText(d, k, col);
    SplitText(d, SplitLine(d, c, k, col), k, col);
  }

  lemma SplitLineOff(d: Doc, c: int, k: nat, col: int, j: int)
    requires WF(d) && c in d.curs && k <= LastAt(d) && 0 < col <= |d.lines[k].str|
    requires d.curs[c] == Pos(d.lines[k].id, col)
    requires j in d.curs
    ensures Good(Abs(d))
    ensures Offset(SplitLine(d, c, k, col), SplitLine(d, c, k, col).curs[j]) == FlatNewLine(Abs(d), c).offs[j]
  {
    AbsGood(d);
    PlaceInText(d, k, col);
    SplitOffset(d, c, k, col, j);
  }

  lemma SplitLineRefines(d: Doc, c: int, k: nat, col: int)
    requires WF(d) && c in d.curs && k <= LastAt(d) && 0 < col <= |d.lines[k].str|
    requires d.curs[c] == Pos(d.lines[k].id, col)
    ensures Good(Abs(d)) && 1 <= d.height <= |SplitLine(d, c, k, col).lines|
    ensures Abs(SplitLine(d, c, k, col)) == FlatNewLine(Abs(d), c)
  {
    SplitLineText(d, c, k, col);
    forall j | j in d.curs
      ensures Offset(SplitLine(d, c, k, col), SplitLine(d, c, k, col).curs[j]) == FlatNewLine(Abs(d), c).offs[j]
    {
      SplitLineOff(d, c, k, col, j);
    }
    AbsIs(SplitLine(d, c, k, col), FlatNewLine(Abs(d), c));
  }

  /** A cursor beside an empty line put above line k; a server's own cursor is then pulled up. */
  lemma NewLineAboveOffset(d: Doc, k: nat, j: int)
    requires WF(d) && k <= LastAt(d) && j in d.curs
    ensures Good(Abs(d)) && WF(NewLineAbove(d, k))
    ensures var d' := NewLineAbove(d, k);
            var o := |Cat(d.lines[..k])|;
            o <= |Text(d)| && 0 <= PastNewLine(Text(d), o, Offset(d, d.curs[j])) <= |Text(d')| &&
            var p := PastNewLine(Text(d), o, Offset(d, d.curs[j]));
            Offset(d', d'.curs[j]) == if d.server && j == 0 then UpFrom(Text(d'), p) else p
  {
    AbsGood(d);
    NewLineAboveKeeps(d, k);
    InsertLineKeeps(d, k);
    var m := d.(lines := InsertAt(d.lines, k, Line(d.idCnt, "")), idCnt := d.idCnt + 1, numLines := d.numLines + 1);
    var q := d.curs[j];
    assert OnText(d, q) && OnText(m, q);
    AboveOffset(d, k, q);
    var d' := NewLineAbove(d, k);
    assert Text(d') == Text(m) && Offset(m, q) == Offset(d', q);
    if d.server && j == 0 {
      UpIsFlat(m, q);
      assert d'.curs[0] == MovePos(m.lines, d.last, q, Up);
    } else {
      OffsetInText(m, q);
      assert d'.curs[j] == q;
    }
  }

  lemma NewLineAboveFrame(d: Doc, k: nat)
    requires k <= |d.lines|
    ensures var d' := NewLineAbove(d, k);
            d'.curs.Keys == d.curs.Keys && d'.height == d.height && d'.width == d.width && d'.server == d.server
  {
  }

  lemma NewLineAboveText(d: Doc, c: int, k: nat)
    requires WF(d) && c in d.curs && k <= LastAt(d)
    requires d.curs[c] == Pos(d.lines[k].id, 0)
    ensures Good(Abs(d)) && 1 <= d.height <= |NewLineAbove(d, k).lines|
    ensures Text(NewLineAbove(d, k)) == FlatNewLine(Abs(d), c).text
  {
    AbsGood(d);
    PlaceInText(d, k, 0);
    AboveText(d, NewLineAbove(d, k), k);
  }

  lemma AboveOff(d: Doc, c: int, k: nat, j: int)
    requires WF(d) && c in d.curs && k <= LastAt(d)
    requires d.curs[c] == Pos(d.lines[k].id, 0)
    requires j in d.curs
    ensures Good(Abs(d)) && Offset(NewLineAbove(d, k), NewLineAbove(d, k).curs[j]) == FlatNewLine(Abs(d), c).offs[j]
  {
    AbsGood(d);
    PlaceInText(d, k, 0);
    NewLineAboveText(d, c, k);
    NewLineAboveOffset(d, k, j);
    hide WF, Text, Cat, Good, NewLineAbove;
    var f := Abs(d);
    var o := |Cat(d.lines[..k])|;
    assert f.offs[c] == o && f.offs[j] == Offset(d, d.curs[j]);
    assert j == c ==> PastNewLine(f.text, o, f.offs[j]) == o + 1;
  }

  lemma NewLineAboveRefines(d: Doc, c: int, k: nat)
    requires WF(d) && c in d.curs && k <= LastAt(d)
    requires d.curs[c] == Pos(d.lines[k].id, 0)
    ensures Good(Abs(d)) && 1 <= d.height <= |NewLineAbove(d, k).lines|
    ensures Abs(NewLineAbove(d, k)) == FlatNewLine(Abs(d), c)
  {
    NewLineAboveText(d, c, k);
    NewLineAboveFrame(d, k);
    forall j | j in d.curs ensures Offset(NewLineAbove(d, k), NewLineAbove(d, k).curs[j]) == FlatNewLine(Abs(d), c).offs[j] {
      AboveOff(d, c, k, j);
    }
    AbsIs(NewLineAbove(d, k), FlatNewLine(Abs(d), c));
  }

  lemma NewLineRefines(d: Doc, c: int)
    requires WF(d) && c in d.curs
    ensures WF(NewLine(d, c)) && Good(Abs(d))
    ensures Abs(NewLine(d, c)) == FlatNewLine(Abs(d), c)
  {
    NewLineKeeps(d, c);
    AbsGood(d);
    var p := d.curs[c];
    assert OnText(d, p);
    var k := Idx(d.lines, p.line);
    if p.col == 0 {
      NewLineAboveRefines(d, c, k);
    } else {
      SplitLineRefines(d, c, k, p.col);
    }
  }

  lemma MoveRefines(d: Doc, c: int, dir: Dir)
    requires WF(d) && c in d.curs
    ensures WF(MoveCursor(d, c, dir)) && Good(Abs(d))
    ensures Abs(MoveCursor(d, c, dir)) == FlatApply(Abs(d), c, Move(dir))
  {
    MoveCursorKeeps(d, c, dir);
    AbsGood(d);
    assert OnText(d, d.curs[c]);
    MoveIsFlat(d, d.curs[c], dir);
    AbsIs(MoveCursor(d, c, dir), FlatApply(Abs(d), c, Move(dir)));
  }

  /** Each operation on the chain of lines is the same operation on the flat text. */
  lemma ApplyRefines(d: Doc, c: int, op: Op)
    requires WF(d) && c in d.curs && TypedOp(op)
    ensures WF(Apply(d, c, op)) && Good(Abs(d))
    ensures Abs(Apply(d, c, op)) == FlatApply(Abs(d), c, op)
  {
    match op
    case Insert(ch) => InsertRefines(d, c, ch);
    case InsertLine => NewLineRefines(d, c);
    case Delete => BackspaceRefines(d, c);
    case Move(dir) => MoveRefines(d, c, dir);
  }
}
