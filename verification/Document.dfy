/**
 The editor's document as a value: the chain of lines in order, the identity of the last
 line of the text, and the position of every cursor by cursor id.  Lines are named by their
 ids, as cursors name their line by a pointer.  Each operation is stated as one function on
 this value; the class Buffer in Buffers.dfy carries it out in place.
 */
module Document {
  datatype Line = Line(id: int, str: string)

  datatype Pos = Pos(line: int, col: int)

  datatype Dir = Up | Down | Left | Right

  datatype Doc = Doc(
    lines: seq<Line>,
    last: int,
    numLines: int,
    idCnt: int,
    height: int,
    width: int,
    server: bool,
    curs: map<int, Pos>)

  /** The four operations a client relays. */
  datatype Op = Insert(ch: char) | InsertLine | Delete | Move(dir: Dir)

  // ---------------------------------------------------------------- well-formed documents

  /** The index of the first line with the given id, or |ls|. */
  function Idx(ls: seq<Line>, id: int): (k: nat)
    ensures k <= |ls|
    ensures k < |ls| ==> ls[k].id == id
  {
    if ls == [] || ls[0].id == id then 0 else 1 + Idx(ls[1..], id)
  }

  /** Each line is found again by its id. */
  ghost predicate DistinctIds(ls: seq<Line>) {
    forall i :: 0 <= i < |ls| ==> Idx(ls, ls[i].id) == i
  }

  lemma {:induction false} IdxFirst(ls: seq<Line>, id: int, j: nat)
    requires j < |ls| && ls[j].id == id
    ensures Idx(ls, id) <= j
  {
    if j > 0 && ls[0].id != id {
      IdxFirst(ls[1..], id, j - 1);
    }
  }

  /** In other words, no two lines share an id. */
  lemma DistinctIdsMeans(ls: seq<Line>)
    ensures DistinctIds(ls) <==> forall i, j :: 0 <= i < j < |ls| ==> ls[i].id != ls[j].id
  {
    forall i | 0 <= i < |ls| ensures Idx(ls, ls[i].id) <= i {
      IdxFirst(ls, ls[i].id, i);
    }
  }

  ghost predicate Fresh(ls: seq<Line>, id: int) {
    Idx(ls, id) == |ls|
  }

  /** Characters a rope may hold: ASCII, no terminator, no line break. */
  predicate Typed(c: char) {
    0 < c as int < 128 && c != '\n'
  }

  predicate TypedString(s: string) {
    forall i :: 0 <= i < |s| ==> Typed(s[i])
  }

  /** The index of the last line of the text; height - 1 padding lines follow it. */
  function LastAt(d: Doc): int {
    |d.lines| - d.height
  }

  /** p is a place in line 0, ..., n of ls. */
  predicate OnLines(ls: seq<Line>, n: int, p: Pos) {
    var k := Idx(ls, p.line);
    k < |ls| && k <= n && 0 <= p.col <= |ls[k].str|
  }

  predicate OnText(d: Doc, p: Pos) {
    OnLines(d.lines, LastAt(d), p)
  }

  predicate LineOk(l: Line, idCnt: int) {
    0 <= l.id < idCnt && TypedString(l.str)
  }

  ghost predicate LinesOk(ls: seq<Line>, idCnt: int) {
    forall i :: 0 <= i < |ls| ==> LineOk(ls[i], idCnt)
  }

  ghost predicate Padding(ls: seq<Line>, from: int) {
    forall i :: 0 <= from < i < |ls| ==> ls[i].str == ""
  }

  ghost predicate ChainOk(d: Doc) {
    && 1 <= d.height <= |d.lines|
    && DistinctIds(d.lines)
    && LinesOk(d.lines, d.idCnt)
    && d.lines[LastAt(d)].id == d.last
    && Padding(d.lines, LastAt(d))
    && d.numLines == |d.lines|
  }

  ghost predicate WF(d: Doc) {
    && ChainOk(d)
    && (forall c :: c in d.curs ==> OnText(d, d.curs[c]))
    && (d.server ==> 0 in d.curs)
  }

  function StartPos(d: Doc): Pos
    requires d.lines != []
  {
    Pos(d.lines[0].id, 0)
  }

  /** The server's own cursor is at the first place of the first line. */
  predicate OwnAtStart(d: Doc) {
    d.lines != [] && d.server && 0 in d.curs && d.curs[0] == StartPos(d)
  }

  // ---------------------------------------------------------------- line edits

  function SetStr(ls: seq<Line>, k: nat, str: string): seq<Line>
    requires k < |ls|
  {
    ls[k := Line(ls[k].id, str)]
  }

  function InsertAt(ls: seq<Line>, k: nat, l: Line): seq<Line>
    requires k <= |ls|
  {
    ls[..k] + [l] + ls[k..]
  }

  function RemoveAt(ls: seq<Line>, k: nat): seq<Line>
    requires k < |ls|
  {
    ls[..k] + ls[k+1..]
  }

  lemma {:induction false} SetStrIdx(ls: seq<Line>, k: nat, str: string, id: int)
    requires k < |ls|
    ensures Idx(SetStr(ls, k, str), id) == Idx(ls, id)
  {
    var m := SetStr(ls, k, str);
    if ls[0].id != id {
      if k == 0 {
        assert m[1..] == ls[1..];
      } else {
        assert m[1..] == SetStr(ls[1..], k - 1, str);
        SetStrIdx(ls[1..], k - 1, str, id);
      }
    }
  }

  lemma {:induction false} InsertAtIdx(ls: seq<Line>, k: nat, l: Line, id: int)
    requires k <= |ls| && Fresh(ls, l.id)
    ensures Idx(InsertAt(ls, k, l), id) ==
            if id == l.id then k else if Idx(ls, id) < k then Idx(ls, id) else Idx(ls, id) + 1
  {
    var m := InsertAt(ls, k, l);
    if k == 0 {
      assert m[1..] == ls;
    } else {
      assert m[0] == ls[0];
      assert m[1..] == InsertAt(ls[1..], k - 1, l);
      InsertAtIdx(ls[1..], k - 1, l, id);
    }
  }

  lemma {:induction false} RemoveAtIdx(ls: seq<Line>, k: nat, id: int)
    requires k < |ls| && id != ls[k].id
    ensures Idx(RemoveAt(ls, k), id) == if Idx(ls, id) < k then Idx(ls, id) else Idx(ls, id) - 1
  {
    var m := RemoveAt(ls, k);
    if k == 0 {
      assert m == ls[1..];
    } else {
      assert m[0] == ls[0];
      assert m[1..] == RemoveAt(ls[1..], k - 1);
      RemoveAtIdx(ls[1..], k - 1, id);
    }
  }

  lemma SetStrDistinct(ls: seq<Line>, k: nat, str: string)
    requires k < |ls| && DistinctIds(ls)
    ensures DistinctIds(SetStr(ls, k, str))
  {
    var m := SetStr(ls, k, str);
    forall i | 0 <= i < |m| ensures Idx(m, m[i].id) == i {
      assert ls[i].id == m[i].id;
      SetStrIdx(ls, k, str, m[i].id);
    }
  }

  lemma InsertAtDistinct(ls: seq<Line>, k: nat, l: Line)
    requires k <= |ls| && DistinctIds(ls) && Fresh(ls, l.id)
    ensures DistinctIds(InsertAt(ls, k, l))
  {
    var m := InsertAt(ls, k, l);
    forall i | 0 <= i < |m| ensures Idx(m, m[i].id) == i {
      assert i != k ==> m[i] == ls[if i < k then i else i - 1];
      InsertAtIdx(ls, k, l, m[i].id);
    }
  }

  lemma RemoveAtDistinct(ls: seq<Line>, k: nat)
    requires k < |ls| && DistinctIds(ls)
    ensures DistinctIds(RemoveAt(ls, k))
  {
    var m := RemoveAt(ls, k);
    forall i | 0 <= i < |m| ensures Idx(m, m[i].id) == i {
      assert m[i] == ls[if i < k then i else i + 1];
      assert Idx(ls, ls[k].id) == k;
      RemoveAtIdx(ls, k, m[i].id);
    }
  }

  /** The id counter names no line yet. */
  lemma CounterFresh(d: Doc)
    requires ChainOk(d)
    ensures Fresh(d.lines, d.idCnt)
  {
    var k := Idx(d.lines, d.idCnt);
    assert k < |d.lines| ==> LineOk(d.lines[k], d.idCnt);
  }

  // ---------------------------------------------------------------- operations

  function Min(a: int, b: int): int {
    if a < b then a else b
  }

  /** Where a cursor at p goes: the two vertical moves clamp the column. */
  function MovePos(ls: seq<Line>, last: int, p: Pos, dir: Dir): Pos
    requires Idx(ls, p.line) < |ls|
  {
    var k := Idx(ls, p.line);
    match dir
    case Up =>
      if k == 0 then p else Pos(ls[k-1].id, Min(p.col, |ls[k-1].str|))
    case Down =>
      if k + 1 == |ls| || p.line == last then p else Pos(ls[k+1].id, Min(p.col, |ls[k+1].str|))
    case Left =>
      if p.col > 0 then p.(col := p.col - 1)
      else if k == 0 then p
      else Pos(ls[k-1].id, |ls[k-1].str|)
    case Right =>
      if p.col < |ls[k].str| then p.(col := p.col + 1)
      else if k + 1 == |ls| || p.line == last then p
      else Pos(ls[k+1].id, 0)
  }

  function MoveCursor(d: Doc, c: int, dir: Dir): Doc
    requires WF(d) && c in d.curs
  {
    d.(curs := d.curs[c := MovePos(d.lines, d.last, d.curs[c], dir)])
  }

  /** A cursor q beside an insertion at p: it is compared with the column after the insertion. */
  function AfterInsert(p: Pos, q: Pos): Pos {
    if q.line == p.line && p.col + 1 < q.col then q.(col := q.col + 1) else q
  }

  function TypeChar(d: Doc, c: int, k: nat, col: int, ch: char): Doc
    requires k < |d.lines| && 0 <= col <= |d.lines[k].str|
  {
    var l := d.lines[k];
    d.(lines := SetStr(d.lines, k, l.str[..col] + [ch] + l.str[col..]),
       curs := map j | j in d.curs ::
         if j == c then Pos(l.id, col + 1) else AfterInsert(Pos(l.id, col), d.curs[j]))
  }

  /** Refused for an unknown cursor, and on a line of width - 1 characters or more. */
  function InsertChar(d: Doc, c: int, ch: char): Doc
    requires WF(d)
  {
    if c !in d.curs then d
    else
      var k := Idx(d.lines, d.curs[c].line);
      if |d.lines[k].str| >= d.width - 1 then d
      else TypeChar(d, c, k, d.curs[c].col, ch)
  }

  /** What a rope takes of a byte: nothing of the terminator nor of a byte that is not UTF-8 by itself. */
  function RopeBytes(ch: char): string {
    if 0 < ch as int < 128 then [ch] else ""
  }

  /** Whatever the rope takes, the cursors are moved as if it were the whole byte. */
  function TypeByte(d: Doc, c: int, k: nat, col: int, ch: char): Doc
    requires k < |d.lines| && 0 <= col <= |d.lines[k].str|
  {
    var l := d.lines[k];
    TypeChar(d, c, k, col, ch).(lines := SetStr(d.lines, k, l.str[..col] + RopeBytes(ch) + l.str[col..]))
  }

  /** The text of the line of p. */
  function LineText(d: Doc, p: Pos): string {
    var k := Idx(d.lines, p.line);
    if k < |d.lines| then d.lines[k].str else ""
  }

  /** There is room for a character on the line of p. */
  predicate HasRoom(d: Doc, p: Pos) {
    |LineText(d, p)| < d.width - 1
  }

  /** InsertChar for any byte. */
  function InsertByte(d: Doc, c: int, ch: char): Doc
    requires WF(d)
  {
    if c !in d.curs || !HasRoom(d, d.curs[c]) then d
    else TypeByte(d, c, Idx(d.lines, d.curs[c].line), d.curs[c].col, ch)
  }

  /** A cursor at the end of c's line that an insertion at c moves on. */
  predicate AtTheEnd(d: Doc, c: int, j: int)
    requires c in d.curs
  {
    && j in d.curs && d.curs[j].line == d.curs[c].line && d.curs[j].col == |LineText(d, d.curs[c])|
    && (j == c || d.curs[c].col + 1 < d.curs[j].col)
  }

  /** A cursor q beside a line split at p, the right half being line id. */
  function AfterSplit(p: Pos, id: int, q: Pos): Pos {
    if q.line == p.line && p.col < q.col then Pos(id, q.col - p.col) else q
  }

  /** At column 0: an empty line above, the cursors keep their line; a server pulls its own cursor up. */
  function NewLineAbove(d: Doc, k: nat): Doc
    requires k <= |d.lines|
  {
    var ls := InsertAt(d.lines, k, Line(d.idCnt, ""));
    d.(lines := ls,
       idCnt := d.idCnt + 1,
       numLines := d.numLines + 1,
       curs := if d.server && 0 in d.curs && d.curs[0].line != ls[0].id && Idx(ls, d.curs[0].line) < |ls|
               then d.curs[0 := MovePos(ls, d.last, d.curs[0], Up)]
               else d.curs)
  }

  /** Line k split at column col by cursor c. */
  function SplitLine(d: Doc, c: int, k: nat, col: int): Doc
    requires k < |d.lines| && 0 <= col <= |d.lines[k].str|
  {
    var l := d.lines[k];
    d.(lines := InsertAt(SetStr(d.lines, k, l.str[..col]), k + 1, Line(d.idCnt, l.str[col..])),
       last := if l.id == d.last then d.idCnt else d.last,
       idCnt := d.idCnt + 1,
       numLines := d.numLines + 1,
       curs := map j | j in d.curs :: if j == c then Pos(d.idCnt, 0) else AfterSplit(Pos(l.id, col), d.idCnt, d.curs[j]))
  }

  function NewLine(d: Doc, c: int): Doc
    requires WF(d) && c in d.curs
  {
    var p := d.curs[c];
    var k := Idx(d.lines, p.line);
    if p.col == 0 then NewLineAbove(d, k) else SplitLine(d, c, k, p.col)
  }

  /** A cursor q beside a deletion that leaves the acting cursor at p. */
  function AfterDelete(p: Pos, q: Pos): Pos {
    if q.line == p.line && p.col < q.col then q.(col := q.col - 1) else q
  }

  /** A cursor q beside the join of line gone onto the end of a line, at position p. */
  function AfterJoin(p: Pos, gone: int, q: Pos): Pos {
    if q.line == gone then Pos(p.line, q.col + p.col) else q
  }

  function DeleteChar(d: Doc, c: int, k: nat, col: int): Doc
    requires k < |d.lines| && 0 < col <= |d.lines[k].str|
  {
    var l := d.lines[k];
    var p' := Pos(l.id, col - 1);
    d.(lines := SetStr(d.lines, k, l.str[..col-1] + l.str[col..]),
       curs := map j | j in d.curs :: if j == c then p' else AfterDelete(p', d.curs[j]))
  }

  /** Line k appended to the line above it by cursor c. */
  function JoinLine(d: Doc, c: int, k: nat): Doc
    requires 0 < k < |d.lines|
  {
    var prev, l := d.lines[k-1], d.lines[k];
    var p' := Pos(prev.id, |prev.str|);
    d.(lines := RemoveAt(SetStr(d.lines, k - 1, prev.str + l.str), k),
       last := if l.id == d.last then prev.id else d.last,
       numLines := d.numLines - 1,
       curs := map j | j in d.curs :: if j == c then p' else AfterJoin(p', l.id, d.curs[j]))
  }

  function Backspace(d: Doc, c: int): Doc
    requires WF(d) && c in d.curs
  {
    var p := d.curs[c];
    var k := Idx(d.lines, p.line);
    if p.col > 0 then DeleteChar(d, c, k, p.col)
    else if k == 0 then d
    else JoinLine(d, c, k)
  }

  function Apply(d: Doc, c: int, op: Op): Doc
    requires WF(d) && c in d.curs
  {
    match op
    case Insert(ch) => InsertChar(d, c, ch)
    case InsertLine => NewLine(d, c)
    case Delete => Backspace(d, c)
    case Move(dir) => MoveCursor(d, c, dir)
  }

  predicate TypedOp(op: Op) {
    op.Insert? ==> Typed(op.ch)
  }

  function AddCursor(d: Doc, c: int, p: Pos): Doc {
    d.(curs := d.curs[c := p])
  }

  /** Deleting the own cursor, id 0, is refused. */
  function RemoveCursor(d: Doc, c: int): Doc {
    if c == 0 then d else d.(curs := d.curs - {c})
  }

  // ---------------------------------------------------------------- every operation keeps WF

  lemma MoveKeeps(d: Doc, p: Pos, dir: Dir)
    requires ChainOk(d) && OnText(d, p)
    ensures OnText(d, MovePos(d.lines, d.last, p, dir))
  {
  }

  lemma SetStrKeeps(d: Doc, k: nat, str: string)
    requires ChainOk(d) && k < |d.lines| && k <= LastAt(d) && TypedString(str)
    ensures ChainOk(d.(lines := SetStr(d.lines, k, str)))
  {
    SetStrDistinct(d.lines, k, str);
  }

  lemma InsertAtLines(ls: seq<Line>, k: nat, l: Line, idCnt: int, from: int)
    requires k <= |ls| && LinesOk(ls, idCnt) && Padding(ls, from) && LineOk(l, idCnt + 1)
    requires 0 <= from && k <= from + 1
    ensures LinesOk(InsertAt(ls, k, l), idCnt + 1) && Padding(InsertAt(ls, k, l), from + 1)
  {
    var m := InsertAt(ls, k, l);
    forall i | 0 <= i < |m| ensures LineOk(m[i], idCnt + 1) {
      assert i != k ==> m[i] == ls[if i < k then i else i - 1] && LineOk(m[i], idCnt);
    }
  }

  /** A fresh line inserted above or below line k of the text; last moves on when k was the last. */
  lemma InsertAtKeeps(d: Doc, k: nat, str: string, last: int)
    requires ChainOk(d) && k <= LastAt(d) + 1 && TypedString(str)
    requires last == if k == LastAt(d) + 1 then d.idCnt else d.last
    ensures ChainOk(d.(lines := InsertAt(d.lines, k, Line(d.idCnt, str)), last := last,
                       idCnt := d.idCnt + 1, numLines := d.numLines + 1))
  {
    var l := Line(d.idCnt, str);
    CounterFresh(d);
    assert LineOk(d.lines[0], d.idCnt);
    InsertAtDistinct(d.lines, k, l);
    InsertAtLines(d.lines, k, l, d.idCnt, LastAt(d));
    assert InsertAt(d.lines, k, l)[LastAt(d) + 1] == if k == LastAt(d) + 1 then l else d.lines[LastAt(d)];
  }

  lemma RemoveAtLines(ls: seq<Line>, k: nat, idCnt: int, from: int)
    requires k < |ls| && LinesOk(ls, idCnt) && Padding(ls, from) && 0 < from && k <= from
    ensures LinesOk(RemoveAt(ls, k), idCnt) && Padding(RemoveAt(ls, k), from - 1)
  {
    var m := RemoveAt(ls, k);
    assert forall i :: 0 <= i < |m| ==> m[i] == ls[if i < k then i else i + 1];
  }

  lemma RemoveAtKeeps(d: Doc, k: nat, last: int)
    requires ChainOk(d) && 0 < k <= LastAt(d)
    requires last == if k == LastAt(d) then d.lines[k-1].id else d.last
    ensures ChainOk(d.(lines := RemoveAt(d.lines, k), last := last, numLines := d.numLines - 1))
  {
    RemoveAtDistinct(d.lines, k);
    RemoveAtLines(d.lines, k, d.idCnt, LastAt(d));
    var m := RemoveAt(d.lines, k);
    assert m[LastAt(d) - 1] == d.lines[if k == LastAt(d) then k - 1 else LastAt(d)];
  }

  lemma SetStrOn(ls: seq<Line>, k: nat, str: string, n: int, q: Pos)
    requires DistinctIds(ls) && k < |ls| && OnLines(ls, n, q)
    requires q.line == ls[k].id ==> q.col <= |str|
    ensures OnLines(SetStr(ls, k, str), n, q)
  {
    SetStrIdx(ls, k, str, q.line);
  }

  lemma InsertAtOn(ls: seq<Line>, k: nat, l: Line, n: int, q: Pos)
    requires DistinctIds(ls) && k <= |ls| && k <= n + 1
    requires Fresh(ls, l.id)
    requires if q.line == l.id then 0 <= q.col <= |l.str| else OnLines(ls, n, q)
    ensures OnLines(InsertAt(ls, k, l), n + 1, q)
  {
    InsertAtIdx(ls, k, l, q.line);
  }

  lemma RemoveAtOn(ls: seq<Line>, k: nat, n: int, q: Pos)
    requires DistinctIds(ls) && k < |ls| && k <= n
    requires q.line != ls[k].id && OnLines(ls, n, q)
    ensures OnLines(RemoveAt(ls, k), n - 1, q)
  {
    RemoveAtIdx(ls, k, q.line);
  }

  /** An edit inside line k keeps WF when each cursor keeps its line and stays inside it. */
  lemma EditLineKeeps(d: Doc, k: nat, t: string, curs: map<int, Pos>)
    requires WF(d) && k < |d.lines| && k <= LastAt(d) && TypedString(t)
    requires curs.Keys == d.curs.Keys
    requires forall j :: j in curs ==> curs[j].line == d.curs[j].line
    requires forall j :: j in curs ==>
      if curs[j].line == d.lines[k].id then 0 <= curs[j].col <= |t| else curs[j].col == d.curs[j].col
    ensures WF(d.(lines := SetStr(d.lines, k, t), curs := curs))
  {
    var d' := d.(lines := SetStr(d.lines, k, t), curs := curs);
    SetStrKeeps(d, k, t);
    assert ChainOk(d');
    forall j | j in curs ensures OnText(d', curs[j]) {
      assert OnText(d, d.curs[j]);
      SetStrIdx(d.lines, k, t, curs[j].line);
    }
  }

  lemma TypeCharKeeps(d: Doc, c: int, k: nat, col: int, ch: char)
    requires WF(d) && k <= LastAt(d) && 0 <= col <= |d.lines[k].str| && Typed(ch)
    requires c in d.curs ==> d.curs[c] == Pos(d.lines[k].id, col)
    ensures WF(TypeChar(d, c, k, col, ch))
  {
    var d' := TypeChar(d, c, k, col, ch);
    var l := d.lines[k];
    LineTyped(d, k, col);
    var t := l.str[..col] + [ch] + l.str[col..];
    forall j | j in d'.curs && d'.curs[j].line == l.id ensures 0 <= d'.curs[j].col <= |t| {
      assert OnText(d, d.curs[j]);
    }
    EditLineKeeps(d, k, t, d'.curs);
  }

  lemma InsertKeeps(d: Doc, c: int, ch: char)
    requires WF(d) && Typed(ch)
    ensures WF(InsertChar(d, c, ch))
  {
    if c in d.curs {
      assert OnText(d, d.curs[c]);
      var k := Idx(d.lines, d.curs[c].line);
      if |d.lines[k].str| < d.width - 1 {
        TypeCharKeeps(d, c, k, d.curs[c].col, ch);
      }
    }
  }

  lemma TypedByte(d: Doc, c: int, ch: char)
    requires WF(d) && Typed(ch)
    ensures InsertByte(d, c, ch) == InsertChar(d, c, ch) && WF(InsertByte(d, c, ch))
  {
    InsertKeeps(d, c, ch);
  }

  /** A line break goes into the line as a character. */
  lemma LineBreakByte(d: Doc, c: int)
    requires WF(d) && c in d.curs && HasRoom(d, d.curs[c])
    ensures !WF(InsertByte(d, c, '\n'))
  {
    var k := Idx(d.lines, d.curs[c].line);
    var d' := InsertByte(d, c, '\n');
    assert d'.lines[k].str[d.curs[c].col] == '\n';
    assert !LineOk(d'.lines[k], d'.idCnt);
  }

  /** Where a byte the rope does not take leaves cursor j. */
  function LostPlace(d: Doc, c: int, j: int): Pos
    requires c in d.curs && j in d.curs
  {
    if j == c then d.curs[c].(col := d.curs[c].col + 1) else AfterInsert(d.curs[c], d.curs[j])
  }

  lemma LostByteIs(d: Doc, c: int, ch: char)
    requires WF(d) && c in d.curs && HasRoom(d, d.curs[c]) && RopeBytes(ch) == ""
    ensures InsertByte(d, c, ch) == d.(curs := InsertByte(d, c, ch).curs)
    ensures InsertByte(d, c, ch).curs.Keys == d.curs.Keys
    ensures forall j :: j in d.curs ==> InsertByte(d, c, ch).curs[j] == LostPlace(d, c, j)
  {
    assert OnText(d, d.curs[c]);
    var k, col := Idx(d.lines, d.curs[c].line), d.curs[c].col;
    var s := d.lines[k].str;
    assert s[..col] + "" + s[col..] == s && SetStr(d.lines, k, s) == d.lines;
  }

  lemma CursorsOnly(d: Doc, cs: map<int, Pos>)
    requires WF(d) && cs.Keys == d.curs.Keys
    ensures WF(d.(curs := cs)) <==> forall j :: j in cs ==> OnText(d, cs[j])
  {
    assert forall p :: OnText(d.(curs := cs), p) == OnText(d, p);
  }

  lemma LostPlaceOn(d: Doc, c: int, j: int)
    requires WF(d) && c in d.curs && j in d.curs
    ensures OnText(d, LostPlace(d, c, j)) <==> !AtTheEnd(d, c, j)
  {
    assert OnText(d, d.curs[c]) && OnText(d, d.curs[j]);
  }

  /** A byte the rope does not take leaves the text, and the places of cursors only when none runs over. */
  lemma LostByte(d: Doc, c: int, ch: char)
    requires WF(d) && c in d.curs && HasRoom(d, d.curs[c]) && RopeBytes(ch) == ""
    ensures InsertByte(d, c, ch).lines == d.lines
    ensures InsertByte(d, c, ch).curs[c] == d.curs[c].(col := d.curs[c].col + 1)
    ensures WF(InsertByte(d, c, ch)) <==> forall j :: !AtTheEnd(d, c, j)
  {
    var cs := InsertByte(d, c, ch).curs;
    LostByteIs(d, c, ch);
    CursorsOnly(d, cs);
    forall j | j in d.curs ensures OnText(d, cs[j]) <==> !AtTheEnd(d, c, j) {
      LostPlaceOn(d, c, j);
    }
    hide WF, InsertByte, OnText;
  }

  /**
   Which bytes may be typed: the document stays well-formed exactly when the byte is a character
   of a line, or is refused, or is no character at all and finds no cursor at the end of the line.
   */
  lemma InsertByteKeeps(d: Doc, c: int, ch: char)
    requires WF(d)
    ensures 0 < ch as int < 128 && ch != '\n' ==> InsertByte(d, c, ch) == InsertChar(d, c, ch)
    ensures WF(InsertByte(d, c, ch)) <==>
              || c !in d.curs || !HasRoom(d, d.curs[c]) || (0 < ch as int < 128 && ch != '\n')
              || ((ch as int == 0 || ch as int >= 128) && forall j :: !AtTheEnd(d, c, j))
  {
    if Typed(ch) {
      TypedByte(d, c, ch);
    } else if c in d.curs && HasRoom(d, d.curs[c]) {
      if ch == '\n' {
        LineBreakByte(d, c);
      } else {
        LostByte(d, c, ch);
      }
    }
  }

  const EMPTY_LINE := Doc([Line(0, "")], 0, 1, 1, 1, 3, false, map[0 := Pos(0, 0)])

  lemma LostByteExample()
    ensures WF(EMPTY_LINE)
    ensures var d' := InsertByte(EMPTY_LINE, 0, 0xE9 as char);
            d'.lines[0].str == "" && d'.curs[0] == Pos(0, 1) && !WF(d')
  {
    assert Idx(EMPTY_LINE.lines, 0) == 0;
    LostByte(EMPTY_LINE, 0, 0xE9 as char);
    assert AtTheEnd(EMPTY_LINE, 0, 0);
  }

  lemma InsertLineKeeps(d: Doc, k: nat)
    requires WF(d) && k <= LastAt(d)
    ensures WF(d.(lines := InsertAt(d.lines, k, Line(d.idCnt, "")), idCnt := d.idCnt + 1, numLines := d.numLines + 1))
  {
    var m := d.(lines := InsertAt(d.lines, k, Line(d.idCnt, "")), idCnt := d.idCnt + 1, numLines := d.numLines + 1);
    InsertAtKeeps(d, k, "", d.last);
    assert ChainOk(m);
    CounterFresh(d);
    forall j | j in d.curs ensures OnText(m, d.curs[j]) {
      assert OnText(d, d.curs[j]);
      InsertAtOn(d.lines, k, Line(d.idCnt, ""), LastAt(d), d.curs[j]);
    }
  }

  lemma NewLineAboveKeeps(d: Doc, k: nat)
    requires WF(d) && k <= LastAt(d)
    ensures WF(NewLineAbove(d, k))
  {
    InsertLineKeeps(d, k);
    var m := d.(lines := InsertAt(d.lines, k, Line(d.idCnt, "")), idCnt := d.idCnt + 1, numLines := d.numLines + 1);
    if d.server {
      MoveCursorKeeps(m, 0, Up);
    }
  }

  /** Every cursor of a split line ends on one of its two halves. */
  lemma SplitOn(d: Doc, k: nat, col: nat, q: Pos)
    requires ChainOk(d) && k < |d.lines| && k <= LastAt(d) && col <= |d.lines[k].str| && OnText(d, q)
    ensures OnLines(InsertAt(SetStr(d.lines, k, d.lines[k].str[..col]), k + 1, Line(d.idCnt, d.lines[k].str[col..])),
                    LastAt(d) + 1, AfterSplit(Pos(d.lines[k].id, col), d.idCnt, q))
  {
    var s := d.lines[k].str;
    var q' := AfterSplit(Pos(d.lines[k].id, col), d.idCnt, q);
    CounterFresh(d);
    SetStrIdx(d.lines, k, s[..col], d.idCnt);
    SetStrDistinct(d.lines, k, s[..col]);
    assert Idx(d.lines, d.lines[k].id) == k;
    if q' == q {
      SetStrOn(d.lines, k, s[..col], LastAt(d), q);
    }
    InsertAtOn(SetStr(d.lines, k, s[..col]), k + 1, Line(d.idCnt, s[col..]), LastAt(d), q');
  }

  lemma SplitLineKeeps(d: Doc, c: int, k: nat, col: nat)
    requires WF(d) && k <= LastAt(d) && col <= |d.lines[k].str|
    ensures WF(SplitLine(d, c, k, col))
  {
    var d' := SplitLine(d, c, k, col);
    var s := d.lines[k].str;
    var m := d.(lines := SetStr(d.lines, k, s[..col]));
    LineTyped(d, k, col);
    SetStrKeeps(d, k, s[..col]);
    InsertAtKeeps(m, k + 1, s[col..], d'.last);
    assert ChainOk(d');
    CounterFresh(m);
    InsertAtIdx(m.lines, k + 1, Line(d.idCnt, s[col..]), d.idCnt);
    forall j | j in d'.curs ensures OnText(d', d'.curs[j]) {
      assert OnText(d, d.curs[j]);
      SplitOn(d, k, col, d.curs[j]);
    }
  }

  lemma LineTyped(d: Doc, k: nat, col: nat)
    requires ChainOk(d) && k < |d.lines| && col <= |d.lines[k].str|
    ensures TypedString(d.lines[k].str[..col]) && TypedString(d.lines[k].str[col..])
  {
    assert LineOk(d.lines[k], d.idCnt);
  }

  lemma NewLineKeeps(d: Doc, c: int)
    requires WF(d) && c in d.curs
    ensures WF(NewLine(d, c))
  {
    var p := d.curs[c];
    assert OnText(d, p);
    var k := Idx(d.lines, p.line);
    if p.col == 0 {
      NewLineAboveKeeps(d, k);
    } else {
      SplitLineKeeps(d, c, k, p.col);
    }
  }

  /** Every cursor of two joined lines ends on the joined line. */
  lemma JoinOn(d: Doc, k: nat, q: Pos)
    requires ChainOk(d) && 0 < k <= LastAt(d) && OnText(d, q)
    ensures var prev := d.lines[k-1];
            OnLines(RemoveAt(SetStr(d.lines, k - 1, prev.str + d.lines[k].str), k), LastAt(d) - 1,
                    AfterJoin(Pos(prev.id, |prev.str|), d.lines[k].id, q))
  {
    var prev := d.lines[k-1];
    var t := prev.str + d.lines[k].str;
    var ls := SetStr(d.lines, k - 1, t);
    var q' := AfterJoin(Pos(prev.id, |prev.str|), d.lines[k].id, q);
    assert Idx(d.lines, prev.id) == k - 1 && Idx(d.lines, d.lines[k].id) == k;
    SetStrIdx(d.lines, k - 1, t, q'.line);
    SetStrDistinct(d.lines, k - 1, t);
    assert OnLines(ls, LastAt(d), q');
    RemoveAtOn(ls, k, LastAt(d), q');
  }

  lemma JoinLinesOk(d: Doc, k: nat)
    requires ChainOk(d) && 0 < k <= LastAt(d)
    ensures var prev := d.lines[k-1];
            ChainOk(d.(lines := RemoveAt(SetStr(d.lines, k - 1, prev.str + d.lines[k].str), k),
                       last := if d.lines[k].id == d.last then prev.id else d.last,
                       numLines := d.numLines - 1))
  {
    hide Idx;
    var t := d.lines[k-1].str + d.lines[k].str;
    LineTyped(d, k - 1, 0);
    LineTyped(d, k, 0);
    SetStrKeeps(d, k - 1, t);
    assert Idx(d.lines, d.lines[k].id) == k && Idx(d.lines, d.last) == LastAt(d);
    RemoveAtKeeps(d.(lines := SetStr(d.lines, k - 1, t)), k, if k == LastAt(d) then d.lines[k-1].id else d.last);
  }

  lemma JoinLineKeeps(d: Doc, c: int, k: nat)
    requires WF(d) && 0 < k <= LastAt(d)
    ensures WF(JoinLine(d, c, k))
  {
    var d' := JoinLine(d, c, k);
    JoinLinesOk(d, k);
    assert ChainOk(d');
    JoinOn(d, k, Pos(d.lines[k].id, 0));
    forall j | j in d'.curs ensures OnText(d', d'.curs[j]) {
      assert OnText(d, d.curs[j]);
      JoinOn(d, k, d.curs[j]);
    }
  }

  lemma DeleteCharKeeps(d: Doc, c: int, k: nat, col: int)
    requires WF(d) && c in d.curs && k <= LastAt(d) && 0 < col <= |d.lines[k].str|
    requires d.curs[c] == Pos(d.lines[k].id, col)
    ensures WF(DeleteChar(d, c, k, col))
  {
    var d' := DeleteChar(d, c, k, col);
    var l := d.lines[k];
    LineTyped(d, k, col - 1);
    LineTyped(d, k, col);
    var t := l.str[..col - 1] + l.str[col..];
    forall j | j in d'.curs && d'.curs[j].line == l.id ensures 0 <= d'.curs[j].col <= |t| {
      assert OnText(d, d.curs[j]);
    }
    EditLineKeeps(d, k, t, d'.curs);
  }

  lemma BackspaceKeeps(d: Doc, c: int)
    requires WF(d) && c in d.curs
    ensures WF(Backspace(d, c))
  {
    var p := d.curs[c];
    assert OnText(d, p);
    var k := Idx(d.lines, p.line);
    if p.col > 0 {
      DeleteCharKeeps(d, c, k, p.col);
    } else if k > 0 {
      JoinLineKeeps(d, c, k);
    }
  }

  lemma MoveCursorKeeps(d: Doc, c: int, dir: Dir)
    requires WF(d) && c in d.curs
    ensures WF(MoveCursor(d, c, dir))
  {
    MoveKeeps(d, d.curs[c], dir);
  }

  /** The structural invariant is kept by every relayed operation. */
  lemma ApplyKeeps(d: Doc, c: int, op: Op)
    requires WF(d) && c in d.curs && TypedOp(op)
    ensures WF(Apply(d, c, op))
  {
    match op
    case Insert(ch) => InsertKeeps(d, c, ch);
    case InsertLine => NewLineKeeps(d, c);
    case Delete => BackspaceKeeps(d, c);
    case Move(dir) => MoveCursorKeeps(d, c, dir);
  }

  lemma ApplyKeys(d: Doc, c: int, op: Op)
    requires WF(d) && c in d.curs
    ensures Apply(d, c, op).curs.Keys == d.curs.Keys
  {
    assert OnText(d, d.curs[c]);
  }
}
