/**
 The buffer in place: a doubly linked chain of line nodes, one own cursor and an array of
 peer cursors that point into it.  The ghost field doc is the value the object stands for;
 each method carries out the operation of the same name in Document.dfy.
 */
module Buffers {
  import opened Document
  import opened Chains

  const MAX_CURSOR_NUM := 20

  datatype Bres = FAILED | UPDATE

  datatype CmoveRes = aUP | aDOWN | aHORIZONTAL | aNONE

  /** What a move from p to q is reported as. */
  function Moved(ls: seq<Line>, p: Pos, q: Pos): CmoveRes {
    var i, j := Idx(ls, p.line), Idx(ls, q.line);
    if j < i then aUP else if i < j then aDOWN else if p.col != q.col then aHORIZONTAL else aNONE
  }

  function EmptyDoc(h: nat, w: int): Doc {
    Doc(seq(h, i => Line(i, "")), 0, h, h, h, w, false, map[0 := Pos(0, 0)])
  }

  lemma EmptyWF(h: nat, w: int)
    requires h >= 1
    ensures WF(EmptyDoc(h, w))
  {
    var ls := EmptyDoc(h, w).lines;
    DistinctIdsMeans(ls);
    assert Idx(ls, 0) == 0;
  }

  /** What a buffer of one line stands for. */
  function OneLineDoc(l: Line, numLines: int, idCnt: int, height: int, width: int): Doc {
    Doc([l], l.id, numLines, idCnt, height, width, false, map[0 := Pos(l.id, 0)])
  }

  // ---------------------------------------------------------------- a loop over all cursors

  /** Cursor positions once the own cursor and the peers of the first n slots have moved from cs to cs'. */
  ghost function Blend(cs: map<int, Pos>, cs': map<int, Pos>, slot: map<int, nat>, n: nat): map<int, Pos>
    requires cs.Keys == cs'.Keys
  {
    map j | j in cs :: if j == 0 || (j in slot && slot[j] < n) then cs'[j] else cs[j]
  }

  lemma BlendStart(cs: map<int, Pos>, cs': map<int, Pos>, slot: map<int, nat>)
    requires cs.Keys == cs'.Keys && 0 in cs
    ensures Blend(cs, cs', slot, 0) == cs[0 := cs'[0]]
  {
  }

  lemma BlendStep(cs: map<int, Pos>, cs': map<int, Pos>, slot: map<int, nat>, n: nat, id: int)
    requires cs.Keys == cs'.Keys && id in cs && id in slot && slot[id] == n && id != 0
    requires forall j :: j in cs && j != 0 && j in slot && slot[j] == n ==> j == id
    ensures Blend(cs, cs', slot, n + 1) == Blend(cs, cs', slot, n)[id := cs'[id]]
  {
  }

  lemma BlendSkip(cs: map<int, Pos>, cs': map<int, Pos>, slot: map<int, nat>, n: nat)
    requires cs.Keys == cs'.Keys
    requires forall j :: j in cs && j != 0 && j in slot ==> slot[j] != n
    ensures Blend(cs, cs', slot, n + 1) == Blend(cs, cs', slot, n)
  {
  }

  lemma BlendEnd(cs: map<int, Pos>, cs': map<int, Pos>, slot: map<int, nat>, n: nat)
    requires cs.Keys == cs'.Keys
    requires forall j :: j in cs && j != 0 ==> j in slot && slot[j] < n
    ensures Blend(cs, cs', slot, n) == cs'
  {
  }

  /** The map of places once every cursor but that of id has been nudged. */
  ghost predicate NudgedRight(cs: map<int, Pos>, cs': map<int, Pos>, id: int) {
    && id in cs && cs'.Keys == cs.Keys
    && forall j :: j in cs ==> cs'[j] == if j == id then cs[j] else AfterInsert(cs[id].(col := cs[id].col - 1), cs[j])
  }

  ghost predicate NudgedLeft(cs: map<int, Pos>, cs': map<int, Pos>, id: int) {
    && id in cs && cs'.Keys == cs.Keys
    && forall j :: j in cs ==> cs'[j] == if j == id then cs[j] else AfterDelete(cs[id], cs[j])
  }

  lemma ByteNudges(d: Doc, c: int, k: nat, col: int, ch: char)
    requires DistinctIds(d.lines) && k < |d.lines| && 0 <= col <= |d.lines[k].str| && c in d.curs
    ensures var d' := TypeByte(d, c, k, col, ch);
            && DistinctIds(d'.lines)
            && NudgedRight(d.curs[c := Pos(d.lines[k].id, col + 1)], d'.curs, c)
            && d'.lines == SetStr(d.lines, k, d.lines[k].str[..col] + RopeBytes(ch) + d.lines[k].str[col..])
            && d' == d.(lines := d'.lines, curs := d'.curs)
  {
    SetStrDistinct(d.lines, k, d.lines[k].str[..col] + RopeBytes(ch) + d.lines[k].str[col..]);
  }

  lemma DeleteNudges(d: Doc, c: int, k: nat, col: int)
    requires DistinctIds(d.lines) && k < |d.lines| && 0 < col <= |d.lines[k].str| && c in d.curs
    ensures var d' := DeleteChar(d, c, k, col);
            && DistinctIds(d'.lines)
            && NudgedLeft(d.curs[c := Pos(d.lines[k].id, col - 1)], d'.curs, c)
  {
    SetStrDistinct(d.lines, k, d.lines[k].str[..col-1] + d.lines[k].str[col..]);
  }

  ghost predicate PulledUp(cs: map<int, Pos>, cs': map<int, Pos>, id: int, gone: int) {
    && id in cs && cs'.Keys == cs.Keys
    && forall j :: j in cs ==> cs'[j] == if j == id then cs[j] else AfterJoin(cs[id], gone, cs[j])
  }

  /** Where the cursors of line k go when the line is deleted from under them. */
  ghost function Rehomed(ls: seq<Line>, k: nat, cs: map<int, Pos>): map<int, Pos>
    requires 0 < k < |ls|
  {
    map j | j in cs ::
      if cs[j].line == ls[k].id then Pos(ls[k-1].id, Min(cs[j].col, |ls[k-1].str|)) else cs[j]
  }

  function UpOne(ls: seq<Line>, k: nat, last: int): int
    requires 0 < k < |ls|
  {
    if ls[k].id == last then ls[k-1].id else last
  }

  /** The document just before line k, already copied onto line k - 1, is taken away. */
  function Merged(d: Doc, c: int, k: nat): Doc
    requires 0 < k < |d.lines|
  {
    JoinLine(d, c, k).(lines := SetStr(d.lines, k - 1, d.lines[k-1].str + d.lines[k].str))
  }

  lemma JoinPulls(d: Doc, c: int, k: nat, cs: map<int, Pos>)
    requires DistinctIds(d.lines) && 0 < k < |d.lines| && c in d.curs
    requires cs == d.curs[c := Pos(d.lines[k-1].id, |d.lines[k-1].str|)]
    requires forall j :: j in d.curs && d.curs[j].line == d.lines[k].id ==> d.curs[j].col <= |d.lines[k].str|
    ensures var m := Merged(d, c, k);
            && DistinctIds(m.lines) && PulledUp(cs, m.curs, c, d.lines[k].id)
            && FitsAbove(m.lines, k, cs)
  {
    SetStrDistinct(d.lines, k - 1, d.lines[k-1].str + d.lines[k].str);
    assert Idx(d.lines, d.lines[k-1].id) != Idx(d.lines, d.lines[k].id);
  }

  lemma JoinLeaves(d: Doc, c: int, k: nat)
    requires DistinctIds(d.lines) && 0 < k < |d.lines| && c in d.curs
    ensures var m := Merged(d, c, k);
            && DistinctIds(m.lines) && m.curs[c].line == m.lines[k-1].id && |m.lines| == |d.lines|
            && JoinLine(d, c, k) == m.(lines := RemoveAt(m.lines, k), last := UpOne(m.lines, k, m.last),
                                       curs := Rehomed(m.lines, k, m.curs))
  {
    var m := Merged(d, c, k);
    SetStrDistinct(d.lines, k - 1, d.lines[k-1].str + d.lines[k].str);
    assert Idx(d.lines, d.lines[k-1].id) != Idx(d.lines, d.lines[k].id);
    assert forall j :: j in m.curs ==> m.curs[j].line != m.lines[k].id;
    assert Rehomed(m.lines, k, m.curs) == m.curs;
  }

  /** No cursor of line k stands beyond the end of line k - 1, which already ends with its text. */
  ghost predicate FitsAbove(ls: seq<Line>, k: nat, cs: map<int, Pos>)
    requires 0 < k < |ls|
  {
    forall j :: j in cs && cs[j].line == ls[k].id ==> cs[j].col <= |ls[k-1].str|
  }

  lemma JoinReady(d: Doc, c: int, k: nat)
    requires WF(d) && c in d.curs && 0 < k < |d.lines| && k <= LastAt(d) && d.curs[c] == Pos(d.lines[k].id, 0)
    ensures DistinctIds(d.lines) && JoinLine(d, c, k) == Backspace(d, c) && WF(JoinLine(d, c, k))
    ensures forall j :: j in d.curs && d.curs[j].line == d.lines[k].id ==> d.curs[j].col <= |d.lines[k].str|
  {
    assert Idx(d.lines, d.lines[k].id) == k;
    JoinLineKeeps(d, c, k);
    forall j | j in d.curs && d.curs[j].line == d.lines[k].id ensures d.curs[j].col <= |d.lines[k].str| {
      assert OnText(d, d.curs[j]);
    }
  }

  ghost predicate PushedDown(cs: map<int, Pos>, cs': map<int, Pos>, id: int, below: int) {
    && id in cs && cs'.Keys == cs.Keys
    && forall j :: j in cs ==> cs'[j] == if j == id then cs[j] else AfterSplit(cs[id], below, cs[j])
  }

  /** A cursor of line k right of p fits on line k + 1 once p is taken off its column. */
  ghost predicate FitsBelow(ls: seq<Line>, k: nat, p: Pos, cs: map<int, Pos>)
    requires k + 1 < |ls|
  {
    forall j :: j in cs && cs[j].line == ls[k].id ==> cs[j].col - p.col <= |ls[k+1].str|
  }

  /** The document after a new empty line at k. */
  function Added(d: Doc, k: nat): Doc
    requires k <= |d.lines|
  {
    d.(lines := InsertAt(d.lines, k, Line(d.idCnt, "")), idCnt := d.idCnt + 1, numLines := d.numLines + 1)
  }

  /** Line k split, no cursor moved yet. */
  function Cut(d: Doc, c: int, k: nat, col: int): Doc
    requires k < |d.lines| && 0 <= col <= |d.lines[k].str|
  {
    SplitLine(d, c, k, col).(curs := d.curs)
  }

  /** Every other cursor of a split line where SplitLine puts it. */
  ghost function Pushed(d: Doc, c: int, k: nat, col: int): map<int, Pos>
    requires k < |d.lines|
  {
    map j | j in d.curs :: if j == c then d.curs[j] else AfterSplit(Pos(d.lines[k].id, col), d.idCnt, d.curs[j])
  }

  /** The document after a new empty line below line k, nothing cut yet. */
  function AddedBelow(d: Doc, k: nat): Doc
    requires k < |d.lines|
  {
    Added(d, k + 1).(last := if d.lines[k].id == d.last then d.idCnt else d.last)
  }

  lemma CutLines(d: Doc, c: int, k: nat, col: int)
    requires k < |d.lines| && 0 <= col <= |d.lines[k].str|
    ensures var e := AddedBelow(d, k);
            var s := e.lines[k].str;
            && |e.lines| == |d.lines| + 1 && s == d.lines[k].str
            && Cut(d, c, k, col) == e.(lines := SetStr(SetStr(e.lines, k, s[..col]), k + 1, s[col..]))
            && (col == |s| ==> Cut(d, c, k, col) == e)
  {
    var e := AddedBelow(d, k);
    var s := d.lines[k].str;
    assert Cut(d, c, k, col).lines == SetStr(SetStr(e.lines, k, s[..col]), k + 1, s[col..]);
    if col == |s| {
      assert s[..col] == s && s[col..] == "";
      assert Cut(d, c, k, col).lines == e.lines;
    }
  }

  lemma CutPushes(d: Doc, c: int, k: nat, col: int)
    requires WF(d) && c in d.curs && k < |d.lines| && d.curs[c] == Pos(d.lines[k].id, col) && 0 <= col <= |d.lines[k].str|
    ensures PushedDown(d.curs, Pushed(d, c, k, col), c, d.idCnt)
    ensures col == |d.lines[k].str| ==> Pushed(d, c, k, col) == d.curs
    ensures SplitLine(d, c, k, col) == Cut(d, c, k, col).(curs := Pushed(d, c, k, col)[c := Pos(d.idCnt, 0)])
  {
    if col == |d.lines[k].str| {
      forall j | j in d.curs ensures Pushed(d, c, k, col)[j] == d.curs[j] {
        assert OnText(d, d.curs[j]);
      }
    }
  }

  lemma AddedDistinct(d: Doc, k: nat)
    requires WF(d) && k <= |d.lines|
    ensures DistinctIds(Added(d, k).lines)
  {
    CounterFresh(d);
    InsertAtDistinct(d.lines, k, Line(d.idCnt, ""));
  }

  lemma AboveReady(d: Doc, c: int, k: nat)
    requires WF(d) && c in d.curs && k < |d.lines| && k <= LastAt(d) && d.curs[c] == Pos(d.lines[k].id, 0)
    ensures DistinctIds(Added(d, k).lines) && Idx(d.lines, d.curs[c].line) == k
    ensures WF(NewLine(d, c)) && NewLine(d, c) == NewLineAbove(d, k)
  {
    assert Idx(d.lines, d.lines[k].id) == k;
    AddedDistinct(d, k);
    NewLineKeeps(d, c);
  }

  /** What the steps of a split rely on. */
  ghost predicate SplitOk(d: Doc, c: int, k: nat, col: int) {
    && c in d.curs && k < |d.lines| && d.curs[c] == Pos(d.lines[k].id, col) && 0 < col <= |d.lines[k].str|
    && DistinctIds(d.lines) && DistinctIds(Cut(d, c, k, col).lines) && d.idCnt != d.lines[k].id
    && FitsBelow(Cut(d, c, k, col).lines, k, d.curs[c], d.curs)
    && PushedDown(d.curs, Pushed(d, c, k, col), c, d.idCnt)
    && (col == |d.lines[k].str| ==> Pushed(d, c, k, col) == d.curs)
    && SplitLine(d, c, k, col) == Cut(d, c, k, col).(curs := Pushed(d, c, k, col)[c := Pos(d.idCnt, 0)])
  }

  lemma BelowReady(d: Doc, c: int, k: nat, col: int)
    requires WF(d) && c in d.curs && k < |d.lines| && k <= LastAt(d) && d.curs[c] == Pos(d.lines[k].id, col)
    requires 0 < col <= |d.lines[k].str|
    ensures SplitOk(d, c, k, col) && WF(NewLine(d, c)) && NewLine(d, c) == SplitLine(d, c, k, col)
  {
    assert Idx(d.lines, d.lines[k].id) == k && LineOk(d.lines[k], d.idCnt);
    NewLineKeeps(d, c);
    CutPushes(d, c, k, col);
    forall j | j in d.curs && d.curs[j].line == d.lines[k].id
      ensures d.curs[j].col - col <= |d.lines[k].str[col..]|
    {
      assert OnText(d, d.curs[j]);
    }
  }

  lemma AddKeeps(d: Doc, c: int, p: Pos)
    requires WF(d) && OnText(d, p)
    ensures WF(AddCursor(d, c, p))
  {
    assert forall j :: j in d.curs ==> OnText(d, d.curs[j]);
  }

  lemma RemoveKeeps(d: Doc, c: int)
    requires WF(d)
    ensures WF(RemoveCursor(d, c))
  {
    assert forall j :: j in d.curs ==> OnText(d, d.curs[j]);
  }

  lemma {:induction false} CountBelow(s: set<int>, n: nat)
    requires forall c :: c in s ==> 0 <= c < n
    ensures |s| <= n
  {
    if n > 0 {
      CountBelow(s - {n - 1}, n - 1);
    } else {
      assert forall c :: c !in s;
      assert s == {};
    }
  }

  function AtColumnZero(d: Doc, c: int): Doc
    requires c in d.curs
  {
    d.(curs := d.curs[c := d.curs[c].(col := 0)])
  }

  lemma ColumnZeroKeeps(d: Doc, c: int)
    requires WF(d) && c in d.curs
    ensures WF(AtColumnZero(d, c))
  {
    assert forall j :: j in d.curs ==> OnText(d, d.curs[j]);
  }

  class Buffer {
    var first: LineNode
    var last: LineNode
    var numLines: int
    var lineIdCnt: int
    var height: int
    var width: int
    var serverMode: bool
    var ownCurs: Cursor
    const peerCurss: array<Cursor?>

    ghost var chain: seq<LineNode>
    ghost var at: map<LineNode, nat>
    ghost var pens: set<Cursor>
    ghost var curs: map<int, Cursor>
    ghost var slot: map<int, nat>
    ghost var doc: Doc

    // ---------------------------------------------------------------- invariant

    /** The peer array holds each cursor of curs but the own one, each in its own slot. */
    ghost predicate Cursors()
      reads this`ownCurs, this`curs, this`slot, this`pens, peerCurss
    {
      && peerCurss.Length == MAX_CURSOR_NUM
      && 0 in curs && curs[0] == ownCurs
      && (forall c :: c in curs ==> curs[c].id == c && curs[c] in pens)
      && (forall i :: 0 <= i < peerCurss.Length && peerCurss[i] != null ==> Registered(peerCurss[i], i))
      && (forall c :: c in curs && c != 0 ==> Slotted(c))
    }

    ghost predicate Registered(c: Cursor, i: nat)
      reads this`curs, this`slot
    {
      c.id != 0 && c.id in curs && curs[c.id] == c && c.id in slot && slot[c.id] == i
    }

    ghost predicate Slotted(c: int)
      requires c in curs
      reads this`curs, this`slot, peerCurss
    {
      c in slot && slot[c] < peerCurss.Length && peerCurss[slot[c]] == curs[c]
    }

    ghost predicate Chained()
      reads this`chain, this`at, this`first, this`last, at.Keys`prev, at.Keys`next
    {
      Linked(chain, at) && chain != [] && first == chain[0] && last in at
    }

    ghost predicate Carries(ls: seq<Line>)
      reads this`chain, this`at, at.Keys`str
    {
      Shows(chain, at, ls)
    }

    /** Every cursor is on a node of the chain, at the place cs gives. */
    ghost predicate Seats(cs: map<int, Pos>)
      reads this`curs, this`at, this`pens, pens`ownLine, pens`pos
    {
      && curs.Keys == cs.Keys
      && forall c :: c in curs ==> curs[c] in pens && curs[c].ownLine in at && curs[c].At() == cs[c]
    }

    ghost predicate Counts(d: Doc)
      reads this`last, this`numLines, this`lineIdCnt, this`height, this`width, this`serverMode
    {
      && last.id == d.last && numLines == d.numLines && lineIdCnt == d.idCnt
      && height == d.height && width == d.width && serverMode == d.server
    }

    /** The object stands for d. */
    ghost predicate Holds(d: Doc)
      reads this`first, this`last, this`numLines, this`lineIdCnt, this`height, this`width, this`serverMode
      reads this`ownCurs, this`chain, this`at, this`pens, this`curs, this`slot
      reads at.Keys`prev, at.Keys`next, at.Keys`str, pens`ownLine, pens`pos, peerCurss
    {
      Cursors() && Chained() && Carries(d.lines) && Seats(d.curs) && Counts(d)
    }

    ghost predicate Valid()
      reads this, at.Keys, pens, peerCurss
    {
      Holds(doc) && WF(doc)
    }

    /** An empty text of h screen lines, as both the file loader and buffer_new begin. */
    constructor (h: int, w: int)
      requires h >= 1
      ensures Valid() && doc == EmptyDoc(h, w)
      ensures fresh(at.Keys) && fresh(pens) && fresh(peerCurss)
    {
      var l := new LineNode(0);
      first, last := l, l;
      numLines, lineIdCnt, height, width, serverMode := h, 1, h, w, false;
      var c := new Cursor(0, l, 0);
      ownCurs := c;
      peerCurss := new Cursor?[MAX_CURSOR_NUM](_ => null);
      chain, at := [l], map[l := 0];
      pens, curs, slot := {c}, map[0 := c], map[];
      doc := EmptyDoc(h, w);
      new;
      OneNode();
      Pad();
      hide *;
      IsEmpty(h, w);
    }

    lemma OneNode()
      requires chain == [first] && at == map[first := 0] && first.prev == null && first.next == null
      ensures Linked(chain, at)
    {
    }

    lemma IsEmpty(h: nat, w: int)
      requires h >= 1 && doc == EmptyDoc(h, w) && peerCurss.Length == MAX_CURSOR_NUM
      requires Linked(chain, at) && |chain| == h && first == last == chain[0]
      requires forall k :: 0 <= k < h ==> chain[k].id == k && chain[k].str == ""
      requires numLines == lineIdCnt == height == h && width == w && !serverMode
      requires ownCurs.id == 0 && ownCurs.ownLine == first && ownCurs.pos == 0
      requires curs == map[0 := ownCurs] && pens == {ownCurs}
      requires forall i :: 0 <= i < MAX_CURSOR_NUM ==> peerCurss[i] == null
      ensures Valid()
    {
      EmptyWF(h, w);
    }

    /** The height - 1 empty lines below the first. */
    method Pad()
      requires height >= 1 && lineIdCnt == 1 && chain == [first] && at == map[first := 0] && Linked(chain, at)
      requires first.id == 0 && first.str == ""
      modifies this`chain, this`at, this`lineIdCnt, first`next, first`prev
      ensures Linked(chain, at) && |chain| == height == lineIdCnt && chain[0] == first
      ensures forall l :: l in at && l != first ==> fresh(l)
      ensures forall k :: 0 <= k < |chain| ==> chain[k].id == k && chain[k].str == ""
    {
      var pp := first;
      for i := 1 to height
        invariant lineIdCnt == i == |chain| && Linked(chain, at) && chain[0] == first && pp == chain[i-1]
        invariant forall l :: l in at && l != first ==> fresh(l)
        invariant forall k :: 0 <= k < i ==> chain[k].id == k && chain[k].str == ""
      {
        pp := LineNew(lineIdCnt, pp, null, chain, at, |chain|);
        chain, at := InsertNode(chain, |chain|, pp), InsertIndex(at, |chain|, pp);
        lineIdCnt := lineIdCnt + 1;
      }
    }

    // ---------------------------------------------------------------- cursors

    method BcursorFind(id: int) returns (c: Cursor?)
      requires Cursors()
      ensures c == if id in curs then curs[id] else null
    {
      if ownCurs.id == id {
        return ownCurs;
      }
      for i := 0 to MAX_CURSOR_NUM
        invariant forall x :: 0 <= x < i && peerCurss[x] != null ==> peerCurss[x].id != id
      {
        if peerCurss[i] != null && peerCurss[i].id == id {
          return peerCurss[i];
        }
      }
      assert id in curs ==> Slotted(id);
      return null;
    }

    /** To the node above, when the cursor is not on the first line. */
    method StepUp(c: Cursor) returns (moved: bool)
      requires Chained() && c.ownLine in at
      modifies c`ownLine
      ensures var k := at[old(c.ownLine)];
              moved == (k > 0) && c.ownLine == if k > 0 then chain[k-1] else chain[k]
    {
      assert chain[at[c.ownLine]].prev == PrevOf(chain, at[c.ownLine]);
      moved := c.ownLine.prev != null && c.ownLine != first;
      if moved { c.ownLine := c.ownLine.prev; }
    }

    method StepDown(c: Cursor) returns (moved: bool)
      requires Chained() && c.ownLine in at
      modifies c`ownLine
      ensures var k := at[old(c.ownLine)];
              moved == (k + 1 < |chain| && chain[k] != last) && c.ownLine == if moved then chain[k+1] else chain[k]
    {
      assert chain[at[c.ownLine]].next == NextOf(chain, at[c.ownLine]);
      moved := c.ownLine.next != null && c.ownLine != last;
      if moved { c.ownLine := c.ownLine.next; }
    }

    ghost predicate Distinct(ls: seq<Line>)
      reads this`chain, this`at, at.Keys`str
    {
      Carries(ls) && DistinctIds(ls)
    }

    /** c is on a node of the chain that carries ls, at p. */
    ghost predicate On(c: Cursor, ls: seq<Line>, p: Pos)
      reads this`chain, this`at, c`ownLine, c`pos
    {
      c.ownLine in at && c.At() == p && Idx(ls, p.line) == at[c.ownLine] < |ls|
    }

    /** A vertical move clamps the column to the new line. */
    method CursorUp(c: Cursor, ghost ls: seq<Line>) returns (r: CmoveRes)
      requires Chained() && Distinct(ls) && On(c, ls, c.At())
      modifies c`ownLine, c`pos
      ensures c.ownLine in at && c.At() == MovePos(ls, last.id, old(c.At()), Up)
      ensures r == Moved(ls, old(c.At()), c.At())
    {
      var moved := StepUp(c);
      NodeIdx(chain, at, ls, c.ownLine);
      if moved && |c.ownLine.str| < c.pos { c.pos := |c.ownLine.str|; }
      return if moved then aUP else aNONE;
    }

    method CursorDown(c: Cursor, ghost ls: seq<Line>) returns (r: CmoveRes)
      requires Chained() && Distinct(ls) && On(c, ls, c.At())
      modifies c`ownLine, c`pos
      ensures c.ownLine in at && c.At() == MovePos(ls, last.id, old(c.At()), Down)
      ensures r == Moved(ls, old(c.At()), c.At())
    {
      SameNode(chain, at, ls, c.ownLine, last);
      var moved := StepDown(c);
      NodeIdx(chain, at, ls, c.ownLine);
      if moved && |c.ownLine.str| < c.pos { c.pos := |c.ownLine.str|; }
      return if moved then aDOWN else aNONE;
    }

    method CursorLeft(c: Cursor, ghost ls: seq<Line>) returns (r: CmoveRes)
      requires Chained() && Distinct(ls) && On(c, ls, c.At())
      modifies c`ownLine, c`pos
      ensures c.ownLine in at && c.At() == MovePos(ls, last.id, old(c.At()), Left)
      ensures r == Moved(ls, old(c.At()), c.At())
    {
      if c.pos > 0 {
        c.pos := c.pos - 1;
        return aHORIZONTAL;
      }
      var moved := StepUp(c);
      NodeIdx(chain, at, ls, c.ownLine);
      if moved { c.pos := |c.ownLine.str|; }
      return if moved then aUP else aNONE;
    }

    method CursorRight(c: Cursor, ghost ls: seq<Line>) returns (r: CmoveRes)
      requires Chained() && Distinct(ls) && On(c, ls, c.At())
      modifies c`ownLine, c`pos
      ensures c.ownLine in at && c.At() == MovePos(ls, last.id, old(c.At()), Right)
      ensures r == Moved(ls, old(c.At()), c.At())
    {
      if c.pos < |c.ownLine.str| {
        c.pos := c.pos + 1;
        return aHORIZONTAL;
      }
      SameNode(chain, at, ls, c.ownLine, last);
      var moved := StepDown(c);
      NodeIdx(chain, at, ls, c.ownLine);
      if moved { c.pos := 0; }
      return if moved then aDOWN else aNONE;
    }

    method CursorMove(c: Cursor, dir: Dir, ghost ls: seq<Line>) returns (r: CmoveRes)
      requires Chained() && Distinct(ls) && c.ownLine in at
      modifies c`ownLine, c`pos
      ensures c.ownLine in at && Idx(ls, old(c.At()).line) < |ls|
      ensures c.At() == MovePos(ls, last.id, old(c.At()), dir) && r == Moved(ls, old(c.At()), c.At())
    {
      NodeIdx(chain, at, ls, c.ownLine);
      match dir
      case Up => r := CursorUp(c, ls);
      case Down => r := CursorDown(c, ls);
      case Left => r := CursorLeft(c, ls);
      case Right => r := CursorRight(c, ls);
    }

    method BcursorMove(id: int, dir: Dir, ghost ls: seq<Line>, ghost cs: map<int, Pos>)
      requires Chained() && Distinct(ls) && Cursors() && Seats(cs) && id in cs
      modifies pens`ownLine, pens`pos
      ensures Idx(ls, cs[id].line) < |ls| && Seats(cs[id := MovePos(ls, last.id, cs[id], dir)])
    {
      var c := BcursorFind(id);
      var r := CursorMove(c, dir, ls);
    }

    method MoveHeld(id: int, dir: Dir, ghost d: Doc)
      requires Holds(d) && DistinctIds(d.lines) && id in d.curs && Idx(d.lines, d.curs[id].line) < |d.lines|
      modifies pens`ownLine, pens`pos
      ensures Holds(d.(curs := d.curs[id := MovePos(d.lines, d.last, d.curs[id], dir)]))
    {
      BcursorMove(id, dir, d.lines, d.curs);
    }

    ghost method Become(d: Doc)
      requires Holds(d) && WF(d)
      modifies this`doc
      ensures Valid() && doc == d
    {
      doc := d;
    }

    /** Become for a document that need not be well-formed. */
    ghost method Turn(d: Doc)
      requires Holds(d)
      modifies this`doc
      ensures Holds(doc) && doc == d
    {
      doc := d;
    }

    method Move(id: int, dir: Dir)
      requires Valid() && id in doc.curs
      modifies this`doc, pens`ownLine, pens`pos
      ensures Valid() && doc == MoveCursor(old(doc), id, dir)
    {
      ghost var d := MoveCursor(doc, id, dir);
      MoveCursorKeeps(doc, id, dir);
      MoveHeld(id, dir, doc);
      Become(d);
    }

    // ---------------------------------------------------------------- typing

    /** c is the cursor of its id, on node k of the chain at column col. */
    ghost predicate Stands(c: Cursor, k: nat, col: int)
      reads this`curs, this`chain, c`ownLine, c`pos
    {
      c.id in curs && curs[c.id] == c && k < |chain| && c.ownLine == chain[k] && c.pos == col
    }

    lemma Where(c: Cursor, d: Doc) returns (k: nat)
      requires Holds(d) && DistinctIds(d.lines) && c.id in curs && curs[c.id] == c && OnText(d, d.curs[c.id])
      ensures Stands(c, k, d.curs[c.id].col) && k <= LastAt(d) && d.curs[c.id].col <= |d.lines[k].str|
      ensures d.curs[c.id] == Pos(d.lines[k].id, c.pos) && Idx(d.lines, d.curs[c.id].line) == k < |d.lines|
    {
      k := at[c.ownLine];
      NodeIdx(chain, at, d.lines, c.ownLine);
    }

    /** A cursor on the line of c and right of it moves on by one, c having typed a character. */
    method NudgeRight(q: Cursor, c: Cursor, ghost ls: seq<Line>, ghost m: map<int, Pos>)
      requires Cursors() && Distinct(ls) && Seats(m)
      requires c.id in curs && curs[c.id] == c && q.id in curs && curs[q.id] == q
      modifies q`pos
      ensures Seats(m[q.id := if q == c then m[q.id] else AfterInsert(m[c.id].(col := m[c.id].col - 1), m[q.id])])
    {
      SameNode(chain, at, ls, c.ownLine, q.ownLine);
      if c != q && c.ownLine == q.ownLine && c.pos < q.pos {
        q.pos := q.pos + 1;
      }
    }

    /** A cursor on the line of c and right of it moves back by one, c having deleted a character. */
    method NudgeLeft(q: Cursor, c: Cursor, ghost ls: seq<Line>, ghost m: map<int, Pos>)
      requires Cursors() && Distinct(ls) && Seats(m)
      requires c.id in curs && curs[c.id] == c && q.id in curs && curs[q.id] == q
      modifies q`pos
      ensures Seats(m[q.id := if q == c then m[q.id] else AfterDelete(m[c.id], m[q.id])])
    {
      SameNode(chain, at, ls, c.ownLine, q.ownLine);
      if c != q && c.ownLine == q.ownLine && c.pos < q.pos {
        q.pos := q.pos - 1;
      }
    }

    /** The peer of slot i, and the blend it is about to advance. */
    lemma AtSlot(cs: map<int, Pos>, cs': map<int, Pos>, i: nat)
      requires Cursors() && cs.Keys == cs'.Keys == curs.Keys && i < MAX_CURSOR_NUM
      ensures var q := peerCurss[i];
              if q == null then Blend(cs, cs', slot, i + 1) == Blend(cs, cs', slot, i)
              else Registered(q, i) && Blend(cs, cs', slot, i)[q.id] == cs[q.id] &&
                   Blend(cs, cs', slot, i + 1) == Blend(cs, cs', slot, i)[q.id := cs'[q.id]]
    {
      assert forall j :: j in curs && j != 0 ==> Slotted(j);
      if peerCurss[i] == null {
        BlendSkip(cs, cs', slot, i);
      } else {
        BlendStep(cs, cs', slot, i, peerCurss[i].id);
      }
    }

    lemma AllSlots(cs: map<int, Pos>, cs': map<int, Pos>)
      requires Cursors() && cs.Keys == cs'.Keys == curs.Keys
      ensures Blend(cs, cs', slot, 0) == cs[0 := cs'[0]] && Blend(cs, cs', slot, MAX_CURSOR_NUM) == cs'
    {
      assert forall j :: j in curs && j != 0 ==> Slotted(j);
      BlendStart(cs, cs', slot);
      BlendEnd(cs, cs', slot, MAX_CURSOR_NUM);
    }

    method RightAt(i: nat, c: Cursor, ghost ls: seq<Line>, ghost cs: map<int, Pos>, ghost cs': map<int, Pos>)
      requires Cursors() && Distinct(ls) && c.id in curs && curs[c.id] == c && i < MAX_CURSOR_NUM
      requires NudgedRight(cs, cs', c.id) && Seats(Blend(cs, cs', slot, i))
      modifies pens`pos
      ensures Seats(Blend(cs, cs', slot, i + 1))
    {
      ghost var m := Blend(cs, cs', slot, i);
      AtSlot(cs, cs', i);
      if peerCurss[i] != null {
        NudgeRight(peerCurss[i], c, ls, m);
      }
    }

    method PeersRight(c: Cursor, ghost ls: seq<Line>, ghost cs: map<int, Pos>, ghost cs': map<int, Pos>)
      requires Cursors() && Distinct(ls) && c.id in curs && curs[c.id] == c
      requires NudgedRight(cs, cs', c.id) && Seats(Blend(cs, cs', slot, 0))
      modifies pens`pos
      ensures Seats(Blend(cs, cs', slot, MAX_CURSOR_NUM))
    {
      for i := 0 to MAX_CURSOR_NUM
        invariant Seats(Blend(cs, cs', slot, i))
      {
        RightAt(i, c, ls, cs, cs');
      }
    }

    method ShiftRight(c: Cursor, ghost ls: seq<Line>, ghost cs: map<int, Pos>, ghost cs': map<int, Pos>)
      requires Cursors() && Distinct(ls) && Seats(cs) && c.id in curs && curs[c.id] == c && NudgedRight(cs, cs', c.id)
      modifies pens`pos
      ensures Seats(cs')
    {
      AllSlots(cs, cs');
      NudgeRight(ownCurs, c, ls, cs);
      PeersRight(c, ls, cs, cs');
    }

    method LeftAt(i: nat, c: Cursor, ghost ls: seq<Line>, ghost cs: map<int, Pos>, ghost cs': map<int, Pos>)
      requires Cursors() && Distinct(ls) && c.id in curs && curs[c.id] == c && i < MAX_CURSOR_NUM
      requires NudgedLeft(cs, cs', c.id) && Seats(Blend(cs, cs', slot, i))
      modifies pens`pos
      ensures Seats(Blend(cs, cs', slot, i + 1))
    {
      ghost var m := Blend(cs, cs', slot, i);
      AtSlot(cs, cs', i);
      if peerCurss[i] != null {
        NudgeLeft(peerCurss[i], c, ls, m);
      }
    }

    method PeersLeft(c: Cursor, ghost ls: seq<Line>, ghost cs: map<int, Pos>, ghost cs': map<int, Pos>)
      requires Cursors() && Distinct(ls) && c.id in curs && curs[c.id] == c
      requires NudgedLeft(cs, cs', c.id) && Seats(Blend(cs, cs', slot, 0))
      modifies pens`pos
      ensures Seats(Blend(cs, cs', slot, MAX_CURSOR_NUM))
    {
      for i := 0 to MAX_CURSOR_NUM
        invariant Seats(Blend(cs, cs', slot, i))
      {
        LeftAt(i, c, ls, cs, cs');
      }
    }

    method ShiftLeft(c: Cursor, ghost ls: seq<Line>, ghost cs: map<int, Pos>, ghost cs': map<int, Pos>)
      requires Cursors() && Distinct(ls) && Seats(cs) && c.id in curs && curs[c.id] == c && NudgedLeft(cs, cs', c.id)
      modifies pens`pos
      ensures Seats(cs')
    {
      AllSlots(cs, cs');
      NudgeLeft(ownCurs, c, ls, cs);
      PeersLeft(c, ls, cs, cs');
    }


    predicate CursorFull(c: Cursor)
      reads this`width, c`ownLine, c.ownLine`str
    {
      |c.ownLine.str| >= width - 1
    }

    method CursorInsert(c: Cursor, chr: char)
      requires 0 <= c.pos <= |c.ownLine.str|
      modifies c`pos, c.ownLine`str
      ensures c.pos == old(c.pos) + 1
      ensures c.ownLine.str == old(c.ownLine.str)[..old(c.pos)] + RopeBytes(chr) + old(c.ownLine.str)[old(c.pos)..]
    {
      c.ownLine.str := RopeInsert(c.ownLine.str, c.pos, RopeBytes(chr));
      c.pos := c.pos + 1;
    }

    method CursorDel(c: Cursor)
      requires 0 < c.pos <= |c.ownLine.str|
      modifies c`pos, c.ownLine`str
      ensures c.pos == old(c.pos) - 1
      ensures c.ownLine.str == old(c.ownLine.str)[..old(c.pos) - 1] + old(c.ownLine.str)[old(c.pos)..]
    {
      c.ownLine.str := RopeDel(c.ownLine.str, c.pos - 1, 1);
      c.pos := c.pos - 1;
    }

    /** The acting cursor's own part: its line and itself. */
    method TypeOwn(c: Cursor, chr: char, ghost k: nat, ghost d: Doc)
      requires Holds(d) && Stands(c, k, c.pos) && 0 <= c.pos <= |d.lines[k].str|
      modifies at.Keys`str, pens`pos
      ensures Holds(d.(lines := SetStr(d.lines, k, d.lines[k].str[..old(c.pos)] + RopeBytes(chr) + d.lines[k].str[old(c.pos)..]),
                       curs := d.curs[c.id := Pos(d.lines[k].id, old(c.pos) + 1)]))
    {
      hide Chained;
      CursorInsert(c, chr);
    }

    method DelOwn(c: Cursor, ghost k: nat, ghost d: Doc)
      requires Holds(d) && Stands(c, k, c.pos) && 0 < c.pos <= |d.lines[k].str|
      modifies at.Keys`str, pens`pos
      ensures Holds(d.(lines := SetStr(d.lines, k, d.lines[k].str[..old(c.pos) - 1] + d.lines[k].str[old(c.pos)..]),
                       curs := d.curs[c.id := Pos(d.lines[k].id, old(c.pos) - 1)]))
    {
      hide Chained;
      CursorDel(c);
    }

    method RightHeld(c: Cursor, ghost d: Doc, ghost cs': map<int, Pos>)
      requires Holds(d) && DistinctIds(d.lines) && c.id in curs && curs[c.id] == c && NudgedRight(d.curs, cs', c.id)
      modifies pens`pos
      ensures Holds(d.(curs := cs'))
    {
      ShiftRight(c, d.lines, d.curs, cs');
    }

    method LeftHeld(c: Cursor, ghost d: Doc, ghost cs': map<int, Pos>)
      requires Holds(d) && DistinctIds(d.lines) && c.id in curs && curs[c.id] == c && NudgedLeft(d.curs, cs', c.id)
      modifies pens`pos
      ensures Holds(d.(curs := cs'))
    {
      ShiftLeft(c, d.lines, d.curs, cs');
    }

    method TypeHeld(c: Cursor, chr: char, ghost k: nat, ghost d: Doc)
      requires Holds(d) && DistinctIds(d.lines) && Stands(c, k, c.pos) && 0 <= c.pos <= |d.lines[k].str|
      modifies at.Keys`str, pens`pos
      ensures Holds(TypeByte(d, c.id, k, old(c.pos), chr))
    {
      ghost var d' := TypeByte(d, c.id, k, c.pos, chr);
      ghost var own := d'.(curs := d.curs[c.id := Pos(d.lines[k].id, c.pos + 1)]);
      ByteNudges(d, c.id, k, c.pos, chr);
      hide Holds, TypeByte, NudgedRight, DistinctIds, SetStr, RopeBytes;
      TypeOwn(c, chr, k, d);
      RightHeld(c, own, d'.curs);
    }

    method DelHeld(c: Cursor, ghost k: nat, ghost d: Doc)
      requires Holds(d) && DistinctIds(d.lines) && Stands(c, k, c.pos) && 0 < c.pos <= |d.lines[k].str|
      modifies at.Keys`str, pens`pos
      ensures Holds(DeleteChar(d, c.id, k, old(c.pos)))
    {
      ghost var d' := DeleteChar(d, c.id, k, c.pos);
      ghost var own := d'.(curs := d.curs[c.id := Pos(d.lines[k].id, c.pos - 1)]);
      DeleteNudges(d, c.id, k, c.pos);
      DelOwn(c, k, d);
      LeftHeld(c, own, d'.curs);
    }

    method InsertInLine(c: Cursor, chr: char)
      requires Valid() && c.id in curs && curs[c.id] == c && !CursorFull(c)
      modifies this`doc, at.Keys`str, pens`pos
      ensures WF(old(doc)) && Holds(doc) && doc == InsertByte(old(doc), c.id, chr)
    {
      ghost var k := Where(c, doc);
      ghost var d' := TypeByte(doc, c.id, k, c.pos, chr);
      TypeHeld(c, chr, k, doc);
      Turn(d');
    }

    /** Any byte; InsertByteKeeps says after which ones the document is well-formed. */
    method BcursorInsert(id: int, chr: char) returns (r: Bres)
      requires Valid()
      modifies this`doc, at.Keys`str, pens`pos
      ensures WF(old(doc)) && Holds(doc) && doc == InsertByte(old(doc), id, chr)
      ensures Typed(chr) ==> Valid() && doc == InsertChar(old(doc), id, chr)
      ensures r == if id in old(doc).curs then UPDATE else FAILED
    {
      InsertByteKeeps(doc, id, chr);
      var c := BcursorFind(id);
      if c == null {
        return FAILED;
      }
      if !CursorFull(c) {
        InsertInLine(c, chr);
      } else {
        ghost var k := Where(c, doc);
      }
      return UPDATE;
    }

    // ---------------------------------------------------------------- joining two lines

    /** c onto the end of the line above; one line less. */
    method LeaveLine(c: Cursor, ghost k: nat, ghost d: Doc)
      requires Holds(d) && DistinctIds(d.lines) && Stands(c, k, 0) && k > 0
      modifies this`numLines, pens`ownLine, pens`pos
      ensures Holds(d.(numLines := d.numLines - 1, curs := d.curs[c.id := Pos(d.lines[k-1].id, |d.lines[k-1].str|)]))
    {
      hide Cursors, Chained;
      numLines := numLines - 1;
      NodeIdx(chain, at, d.lines, c.ownLine);
      BcursorMove(c.id, Left, d.lines, d.curs);
    }

    /** The node of a cursor that stands for a place on line k. */
    lemma Sits(c: Cursor, k: nat, d: Doc)
      requires Holds(d) && DistinctIds(d.lines) && c.id in curs && curs[c.id] == c && k < |d.lines|
      requires d.curs[c.id].line == d.lines[k].id
      ensures |chain| == |d.lines| && c.ownLine == chain[k]
    {
      SameNode(chain, at, d.lines, c.ownLine, chain[k]);
    }

    /** The text of the line below c's appended to c's; last moves up when that line was the last. */
    method MergeText(c: Cursor, ghost k: nat, ghost d: Doc)
      requires Holds(d) && DistinctIds(d.lines) && 0 < k < |d.lines| && c.ownLine == chain[k-1]
      modifies this`last, at.Keys`str
      ensures Holds(d.(lines := SetStr(d.lines, k - 1, d.lines[k-1].str + d.lines[k].str), last := UpOne(d.lines, k, d.last)))
    {
      hide DistinctIds, Cursors, Idx;
      assert chain[k-1].next == NextOf(chain, k - 1);
      SameNode(chain, at, d.lines, last, chain[k]);
      if c.ownLine.next == last { last := c.ownLine; }
      if |c.ownLine.next.str| > 0 {
        RopeAppend(c.ownLine.str, c.ownLine.next.str);
        c.ownLine.str := RopeInsert(c.ownLine.str, |c.ownLine.str|, c.ownLine.next.str);
      }
    }

    /** A cursor of the line below c's goes up to the end of c's text, where c stands. */
    method OneUp(q: Cursor, c: Cursor, ghost k: nat, ghost ls: seq<Line>, ghost m: map<int, Pos>)
      requires Chained() && Distinct(ls) && Cursors() && Seats(m) && 0 < k < |ls|
      requires c.id in curs && curs[c.id] == c && m[c.id].line == ls[k-1].id
      requires q.id in curs && curs[q.id] == q && (m[q.id].line == ls[k].id ==> m[q.id].col <= |ls[k-1].str|)
      modifies pens`ownLine, pens`pos
      ensures Seats(m[q.id := if q == c then m[q.id] else AfterJoin(m[c.id], ls[k].id, m[q.id])])
    {
      SameNode(chain, at, ls, c.ownLine, chain[k-1]);
      SameNode(chain, at, ls, q.ownLine, chain[k]);
      assert chain[k-1].next == NextOf(chain, k - 1);
      if c != q && c.ownLine.next == q.ownLine {
        NodeIdx(chain, at, ls, q.ownLine);
        BcursorMove(q.id, Up, ls, m);
        q.pos := q.pos + c.pos;
      }
    }

    method UpAt(i: nat, c: Cursor, ghost k: nat, ghost ls: seq<Line>, ghost cs: map<int, Pos>, ghost cs': map<int, Pos>)
      requires Chained() && Distinct(ls) && Cursors() && 0 < k < |ls| && i < MAX_CURSOR_NUM
      requires c.id in curs && curs[c.id] == c && PulledUp(cs, cs', c.id, ls[k].id) && Seats(Blend(cs, cs', slot, i))
      requires cs[c.id].line == ls[k-1].id && FitsAbove(ls, k, cs)
      modifies pens`ownLine, pens`pos
      ensures Seats(Blend(cs, cs', slot, i + 1))
    {
      ghost var m := Blend(cs, cs', slot, i);
      AtSlot(cs, cs', i);
      if peerCurss[i] != null {
        OneUp(peerCurss[i], c, k, ls, m);
      }
    }

    method PeersUp(c: Cursor, ghost k: nat, ghost ls: seq<Line>, ghost cs: map<int, Pos>, ghost cs': map<int, Pos>)
      requires Chained() && Distinct(ls) && Cursors() && 0 < k < |ls|
      requires c.id in curs && curs[c.id] == c && PulledUp(cs, cs', c.id, ls[k].id) && Seats(Blend(cs, cs', slot, 0))
      requires cs[c.id].line == ls[k-1].id && FitsAbove(ls, k, cs)
      modifies pens`ownLine, pens`pos
      ensures Seats(Blend(cs, cs', slot, MAX_CURSOR_NUM))
    {
      for i := 0 to MAX_CURSOR_NUM
        invariant Seats(Blend(cs, cs', slot, i))
      {
        UpAt(i, c, k, ls, cs, cs');
      }
    }

    /** What stands for d, part by part, before the cursors move. */
    ghost predicate Framed(d: Doc)
      reads this`first, this`last, this`numLines, this`lineIdCnt, this`height, this`width, this`serverMode
      reads this`ownCurs, this`chain, this`at, this`pens, this`curs, this`slot
      reads at.Keys`prev, at.Keys`next, at.Keys`str, peerCurss
    {
      Chained() && Distinct(d.lines) && Cursors() && Counts(d)
    }

    lemma HeldFramed(d: Doc)
      requires Holds(d) && DistinctIds(d.lines)
      ensures Framed(d) && Chained() && Distinct(d.lines) && Cursors() && Seats(d.curs)
      ensures curs.Keys == d.curs.Keys && ownCurs.id == 0 && 0 in curs && curs[0] == ownCurs && last.id == d.last
    {
    }

    /** d again, with its cursors at cs. */
    lemma HeldAgain(d: Doc, cs: map<int, Pos>)
      requires Framed(d) && Seats(cs)
      ensures Holds(d.(curs := cs))
    {
    }

    lemma PullReady(c: Cursor, k: nat, d: Doc, cs': map<int, Pos>)
      requires Holds(d) && DistinctIds(d.lines) && 0 < k < |d.lines|
      requires c.id in curs && curs[c.id] == c && PulledUp(d.curs, cs', c.id, d.lines[k].id)
      requires FitsAbove(d.lines, k, d.curs)
      ensures 0 in d.curs && c.id in d.curs && (d.curs[0].line == d.lines[k].id ==> d.curs[0].col <= |d.lines[k-1].str|)
      ensures cs'.Keys == d.curs.Keys && Blend(d.curs, cs', slot, MAX_CURSOR_NUM) == cs'
      ensures Blend(d.curs, cs', slot, 0) ==
              d.curs[0 := if ownCurs == c then d.curs[0] else AfterJoin(d.curs[c.id], d.lines[k].id, d.curs[0])]
    {
      HeldFramed(d);
      hide Holds, Framed, Distinct, Chained, Seats, Blend, Linked, Shows, DistinctIds, Idx;
      AllSlots(d.curs, cs');
    }

    method PullUp(c: Cursor, ghost k: nat, ghost d: Doc, ghost cs': map<int, Pos>)
      requires Holds(d) && DistinctIds(d.lines) && 0 < k < |d.lines|
      requires c.id in curs && curs[c.id] == c && PulledUp(d.curs, cs', c.id, d.lines[k].id)
      requires d.curs[c.id].line == d.lines[k-1].id && FitsAbove(d.lines, k, d.curs)
      modifies pens`ownLine, pens`pos
      ensures Holds(d.(curs := cs'))
    {
      hide *;
      HeldFramed(d);
      PullReady(c, k, d, cs');
      OneUp(ownCurs, c, k, d.lines, d.curs);
      PeersUp(c, k, d.lines, d.curs, cs');
      HeldAgain(d, cs');
    }

    /** A cursor of the line about to be deleted goes up. */
    method HomeUp(q: Cursor, l: LineNode, ghost k: nat, ghost ls: seq<Line>, ghost m: map<int, Pos>)
      requires Chained() && Distinct(ls) && Cursors() && Seats(m) && 0 < k < |ls| && l == chain[k]
      requires q.id in curs && curs[q.id] == q
      modifies pens`ownLine, pens`pos
      ensures Seats(m[q.id := Rehomed(ls, k, m)[q.id]])
    {
      SameNode(chain, at, ls, q.ownLine, l);
      if q.ownLine == l {
        NodeIdx(chain, at, ls, q.ownLine);
        BcursorMove(q.id, Up, ls, m);
      }
    }

    method HomeAt(i: nat, l: LineNode, ghost k: nat, ghost ls: seq<Line>, ghost cs: map<int, Pos>)
      requires Chained() && Distinct(ls) && Cursors() && 0 < k < |ls| && l == chain[k] && i < MAX_CURSOR_NUM
      requires Seats(Blend(cs, Rehomed(ls, k, cs), slot, i))
      modifies pens`ownLine, pens`pos
      ensures Seats(Blend(cs, Rehomed(ls, k, cs), slot, i + 1))
    {
      ghost var m := Blend(cs, Rehomed(ls, k, cs), slot, i);
      AtSlot(cs, Rehomed(ls, k, cs), i);
      if peerCurss[i] != null {
        HomeUp(peerCurss[i], l, k, ls, m);
      }
    }

    method PeersHome(l: LineNode, ghost k: nat, ghost ls: seq<Line>, ghost cs: map<int, Pos>)
      requires Chained() && Distinct(ls) && Cursors() && 0 < k < |ls| && l == chain[k]
      requires Seats(Blend(cs, Rehomed(ls, k, cs), slot, 0))
      modifies pens`ownLine, pens`pos
      ensures Seats(Blend(cs, Rehomed(ls, k, cs), slot, MAX_CURSOR_NUM))
    {
      for i := 0 to MAX_CURSOR_NUM
        invariant Seats(Blend(cs, Rehomed(ls, k, cs), slot, i))
      {
        HomeAt(i, l, k, ls, cs);
      }
    }

    lemma HomeReady(k: nat, d: Doc)
      requires Holds(d) && DistinctIds(d.lines) && 0 < k < |d.lines|
      ensures var cs' := Rehomed(d.lines, k, d.curs);
              && 0 in d.curs && cs'.Keys == d.curs.Keys && Blend(d.curs, cs', slot, MAX_CURSOR_NUM) == cs'
              && Blend(d.curs, cs', slot, 0) == d.curs[0 := cs'[0]]
    {
      HeldFramed(d);
      hide Holds, Framed, Distinct, Chained, Seats, Blend, Linked, Shows, DistinctIds, Idx;
      AllSlots(d.curs, Rehomed(d.lines, k, d.curs));
    }

    method HomeAll(l: LineNode, ghost k: nat, ghost d: Doc)
      requires Holds(d) && DistinctIds(d.lines) && 0 < k < |d.lines| && l == chain[k]
      modifies pens`ownLine, pens`pos
      ensures Holds(d.(curs := Rehomed(d.lines, k, d.curs)))
    {
      hide *;
      HeldFramed(d);
      HomeReady(k, d);
      HomeUp(ownCurs, l, k, d.lines, d.curs);
      PeersHome(l, k, d.lines, d.curs);
      HeldAgain(d, Rehomed(d.lines, k, d.curs));
    }

    method LastUp(l: LineNode, ghost k: nat, ghost d: Doc)
      requires Holds(d) && DistinctIds(d.lines) && 0 < k < |d.lines| && l == chain[k]
      modifies this`last
      ensures Holds(d.(last := UpOne(d.lines, k, d.last)))
    {
      assert l.prev == PrevOf(chain, k);
      SameNode(chain, at, d.lines, l, last);
      if l == last { last := l.prev; }
    }

    ghost method Unchain(k: nat, d: Doc)
      requires 0 < k < |chain| && first == chain[0] && last in at && Linked(RemoveNode(chain, k), RemoveIndex(at, k))
      requires Carries(d.lines) && DistinctIds(d.lines) && Seats(d.curs) && last.id == d.last != d.lines[k].id
      requires forall j :: j in d.curs ==> d.curs[j].line != d.lines[k].id
      modifies this`chain, this`at
      ensures Chained() && Carries(RemoveAt(d.lines, k)) && Seats(d.curs) && at.Keys <= old(at.Keys)
    {
      RemovedShows(chain, at, d.lines, k);
      chain, at := RemoveNode(chain, k), RemoveIndex(at, k);
    }

    method Unlink(l: LineNode, ghost k: nat, ghost d: Doc)
      requires Holds(d) && DistinctIds(d.lines) && 0 < k < |d.lines| && l == chain[k] && d.last != d.lines[k].id
      requires forall j :: j in d.curs ==> d.curs[j].line != d.lines[k].id
      modifies this`chain, this`at, at.Keys`prev, at.Keys`next
      ensures Holds(d.(lines := RemoveAt(d.lines, k))) && at.Keys <= old(at.Keys)
    {
      LineFree(l, chain, at, k);
      Unchain(k, d);
    }

    /** Line k, not the first, goes; its cursors go up, and last does when it was the last. */
    method BufferDeletel(l: LineNode, ghost k: nat, ghost d: Doc)
      requires Holds(d) && DistinctIds(d.lines) && 0 < k < |d.lines| && l == chain[k]
      modifies this`last, this`chain, this`at, at.Keys`prev, at.Keys`next, pens`ownLine, pens`pos
      ensures Holds(d.(lines := RemoveAt(d.lines, k), last := UpOne(d.lines, k, d.last),
                       curs := Rehomed(d.lines, k, d.curs)))
      ensures at.Keys <= old(at.Keys)
    {
      assert Idx(d.lines, d.lines[k-1].id) != Idx(d.lines, d.lines[k].id);
      LastUp(l, k, d);
      HomeAll(l, k, d.(last := UpOne(d.lines, k, d.last)));
      Unlink(l, k, d.(last := UpOne(d.lines, k, d.last), curs := Rehomed(d.lines, k, d.curs)));
    }

    /** c to the end of the line above, and the text of its line there. */
    method MergeUp(c: Cursor, ghost k: nat, ghost d: Doc, ghost cs: map<int, Pos>)
      requires Holds(d) && DistinctIds(d.lines) && Stands(c, k, 0) && 0 < k < |d.lines|
      requires cs == d.curs[c.id := Pos(d.lines[k-1].id, |d.lines[k-1].str|)]
      modifies this`numLines, this`last, at.Keys`str, pens`ownLine, pens`pos
      ensures Holds(Merged(d, c.id, k).(curs := cs))
    {
      hide Holds;
      LeaveLine(c, k, d);
      Sits(c, k - 1, d.(numLines := d.numLines - 1, curs := cs));
      MergeText(c, k, d.(numLines := d.numLines - 1, curs := cs));
    }

    /** All of a join but taking line k away. */
    method Merge(c: Cursor, ghost k: nat, ghost d: Doc)
      requires Holds(d) && DistinctIds(d.lines) && Stands(c, k, 0) && 0 < k < |d.lines|
      requires forall j :: j in d.curs && d.curs[j].line == d.lines[k].id ==> d.curs[j].col <= |d.lines[k].str|
      modifies this`numLines, this`last, at.Keys`str, pens`ownLine, pens`pos
      ensures Holds(Merged(d, c.id, k))
    {
      hide Shows;
      ghost var cs := d.curs[c.id := Pos(d.lines[k-1].id, |d.lines[k-1].str|)];
      ghost var m := Merged(d, c.id, k);
      JoinPulls(d, c.id, k, cs);
      MergeUp(c, k, d, cs);
      PullUp(c, k, m.(curs := cs), m.curs);
    }

    method JoinHeld(c: Cursor, ghost k: nat, ghost d: Doc)
      requires Holds(d) && DistinctIds(d.lines) && Stands(c, k, 0) && 0 < k < |d.lines| && c.id in d.curs
      requires forall j :: j in d.curs && d.curs[j].line == d.lines[k].id ==> d.curs[j].col <= |d.lines[k].str|
      modifies this`numLines, this`last, this`chain, this`at
      modifies at.Keys`prev, at.Keys`next, at.Keys`str, pens`ownLine, pens`pos
      ensures Holds(JoinLine(d, c.id, k)) && at.Keys <= old(at.Keys)
    {
      hide Seats;
      JoinLeaves(d, c.id, k);
      Merge(c, k, d);
      Sits(c, k - 1, Merged(d, c.id, k));
      assert chain[k-1].next == NextOf(chain, k - 1);
      BufferDeletel(c.ownLine.next, k, Merged(d, c.id, k));
    }

    method DelInLine(c: Cursor)
      requires Valid() && c.id in curs && curs[c.id] == c && c.pos > 0
      modifies this`doc, at.Keys`str, pens`pos
      ensures Valid() && doc == Backspace(old(doc), c.id)
    {
      ghost var k := Where(c, doc);
      ghost var d' := DeleteChar(doc, c.id, k, c.pos);
      DeleteCharKeeps(doc, c.id, k, c.pos);
      DelHeld(c, k, doc);
      Become(d');
    }

    method DelLine(c: Cursor)
      requires Valid() && c.id in curs && curs[c.id] == c && c.pos == 0 && c.ownLine != first
      modifies this`doc, this`numLines, this`last, this`chain, this`at
      modifies at.Keys`prev, at.Keys`next, at.Keys`str, pens`ownLine, pens`pos
      ensures Valid() && doc == Backspace(old(doc), c.id) && at.Keys <= old(at.Keys)
    {
      hide Cursors, Shows;
      ghost var k := Where(c, doc);
      ghost var d' := JoinLine(doc, c.id, k);
      JoinReady(doc, c.id, k);
      JoinHeld(c, k, doc);
      Become(d');
    }

    method DelAt(c: Cursor) returns (r: Bres)
      requires Valid() && c.id in curs && curs[c.id] == c
      modifies this`doc, this`numLines, this`last, this`chain, this`at
      modifies at.Keys`prev, at.Keys`next, at.Keys`str, pens`ownLine, pens`pos
      ensures Valid() && doc == Backspace(old(doc), c.id) && at.Keys <= old(at.Keys)
      ensures r == if old(c.pos == 0 && c.ownLine == first) then FAILED else UPDATE
    {
      if c.pos > 0 {
        DelInLine(c);
        return UPDATE;
      }
      if c.ownLine == first {
        ghost var k := Where(c, doc);
        NodeIdx(chain, at, doc.lines, first);
        return FAILED;
      }
      DelLine(c);
      return UPDATE;
    }

    /** Refused at the very start of the text; otherwise the character or line break before the cursor goes. */
    method BcursorDel(id: int) returns (r: Bres)
      requires Valid() && id in doc.curs
      modifies this`doc, this`numLines, this`last, this`chain, this`at
      modifies at.Keys`prev, at.Keys`next, at.Keys`str, pens`ownLine, pens`pos
      ensures Valid() && doc == Backspace(old(doc), id) && at.Keys <= old(at.Keys)
      ensures r == if old(AtVeryStart(id)) then FAILED else UPDATE
    {
      var c := BcursorFind(id);
      r := DelAt(c);
    }

    ghost predicate AtVeryStart(id: int)
      reads this`first, this`curs, this`pens, pens`ownLine, pens`pos
    {
      id in curs && curs[id] in pens && curs[id].pos == 0 && curs[id].ownLine == first
    }

    // ---------------------------------------------------------------- a line break

    ghost method Enchain(ll: LineNode, k: nat, ls: seq<Line>, cs: map<int, Pos>)
      requires k <= |chain| && ll !in at && chain != [] && Linked(InsertNode(chain, k, ll), InsertIndex(at, k, ll))
      requires Carries(ls) && Seats(cs)
      modifies this`chain, this`at
      ensures ll in at && at[ll] == k && at.Keys == old(at.Keys) + {ll}
      ensures chain != [] && chain[0] == (if k == 0 then ll else old(chain[0])) && |chain| == |old(chain)| + 1
      ensures chain[k] == ll && (k > 0 ==> chain[k-1] == old(chain)[k-1])
      ensures Linked(chain, at) && Carries(InsertAt(ls, k, Line(ll.id, ll.str))) && Seats(cs)
    {
      InsertedShows(chain, at, ls, k, ll);
      chain, at := InsertNode(chain, k, ll), InsertIndex(at, k, ll);
    }

    lemma HeldNodes(d: Doc)
      requires Holds(d)
      ensures Linked(chain, at) && chain != [] && Carries(d.lines)
      ensures Seats(d.curs) && |chain| == |d.lines| && lineIdCnt == d.idCnt
    {
    }

    lemma AddedLines(d: Doc, k: nat)
      requires k <= |d.lines|
      ensures Added(d, k).lines == InsertAt(d.lines, k, Line(d.idCnt, ""))
    {
    }

    lemma NodesOf(ls: seq<Line>)
      requires Carries(ls)
      ensures |chain| == |ls|
    {
    }

    /** A new line with the next id at index k. */
    method AddNode(prev: LineNode?, next: LineNode?, ghost k: nat, ghost d: Doc) returns (ll: LineNode)
      requires Holds(d) && k <= |chain|
      requires prev == (if k == 0 then null else chain[k-1]) && next == (if k == |chain| then null else chain[k])
      modifies this`lineIdCnt, this`chain, this`at, at.Keys`prev, at.Keys`next
      ensures fresh(ll) && ll in at && at[ll] == k && at.Keys == old(at.Keys) + {ll}
      ensures chain != [] && chain[0] == if k == 0 then ll else old(chain[0])
      ensures |chain| == |d.lines| + 1 && k < |chain| && chain[k] == ll && (k > 0 ==> chain[k-1] == prev)
      ensures Linked(chain, at) && Carries(Added(d, k).lines) && Seats(d.curs)
      ensures lineIdCnt == d.idCnt + 1 && ll.id == d.idCnt
    {
      hide *;
      HeldNodes(d);
      AddedLines(d, k);
      ll := LineNew(lineIdCnt, prev, next, chain, at, k);
      Enchain(ll, k, d.lines, d.curs);
      lineIdCnt := lineIdCnt + 1;
    }

    /** d but for first and last, which may still point beside the chain's ends. */
    ghost predicate Unended(d: Doc)
      reads this`first, this`last, this`numLines, this`lineIdCnt, this`height, this`width, this`serverMode
      reads this`ownCurs, this`chain, this`at, this`pens, this`curs, this`slot
      reads at.Keys`prev, at.Keys`next, at.Keys`str, pens`ownLine, pens`pos, peerCurss
    {
      && Cursors() && Linked(chain, at) && chain != [] && last in at
      && Carries(d.lines) && Seats(d.curs) && Counts(d)
    }

    method AddUnended(prev: LineNode?, next: LineNode?, ghost k: nat, ghost d: Doc) returns (ll: LineNode)
      requires Holds(d) && k <= |chain|
      requires prev == (if k == 0 then null else chain[k-1]) && next == (if k == |chain| then null else chain[k])
      modifies this`lineIdCnt, this`chain, this`at, at.Keys`prev, at.Keys`next
      ensures ll in at && at[ll] == k && ll.id == d.idCnt && at.Keys == old(at.Keys) + {ll} && fresh(ll)
      ensures |chain| == |d.lines| + 1 && k < |chain| && chain[k] == ll && (k > 0 ==> chain[k-1] == prev)
      ensures Unended(Added(d, k).(numLines := d.numLines)) && chain[0] == if k == 0 then ll else first
    {
      hide Carries;
      ll := AddNode(prev, next, k, d);
    }

    method FirstAbove(c: Cursor, ll: LineNode, ghost k: nat, ghost d: Doc)
      requires Unended(d) && chain[0] == (if k == 0 then ll else first) && (c.ownLine == first <==> k == 0)
      modifies this`first
      ensures Holds(d)
    {
      if c.ownLine == first { first := ll; }
    }

    method LastBelow(c: Cursor, ll: LineNode, ghost d: Doc)
      requires Unended(d) && chain[0] == first && ll in at
      modifies this`last
      ensures Holds(d.(last := if c.ownLine == old(last) then ll.id else d.last))
    {
      if c.ownLine == last { last := ll; }
    }

    /** A new line above that of c; first follows when c's line was the first. */
    method NodeAbove(c: Cursor, ghost k: nat, ghost d: Doc) returns (ll: LineNode)
      requires Holds(d) && k < |d.lines| && c.ownLine == chain[k]
      modifies this`first, this`lineIdCnt, this`chain, this`at, at.Keys`prev, at.Keys`next
      ensures Holds(Added(d, k).(numLines := d.numLines)) && fresh(ll) && at.Keys == old(at.Keys) + {ll}
    {
      assert chain[k].prev == PrevOf(chain, k) && (c.ownLine == first <==> k == 0);
      ll := AddUnended(c.ownLine.prev, c.ownLine, k, d);
      FirstAbove(c, ll, k, Added(d, k).(numLines := d.numLines));
    }

    /** The node of line k, its successor, and whether it is the last. */
    lemma AtLine(k: nat, d: Doc)
      requires Holds(d) && DistinctIds(d.lines) && k < |d.lines|
      ensures |chain| == |d.lines| && chain[k].next == if k + 1 == |chain| then null else chain[k+1]
      ensures chain[k] == last <==> d.lines[k].id == d.last
    {
      assert chain[k].next == NextOf(chain, k);
      SameNode(chain, at, d.lines, chain[k], last);
    }

    lemma AddedLast(d: Doc, k: nat)
      requires k <= |d.lines|
      ensures Added(d, k).last == d.last
    {
    }

    /** A new line below that of c; last follows when c's line was the last. */
    method NodeBelow(c: Cursor, ghost k: nat, ghost d: Doc) returns (ll: LineNode)
      requires Holds(d) && DistinctIds(d.lines) && k < |d.lines| && c.ownLine == chain[k]
      modifies this`last, this`lineIdCnt, this`chain, this`at, at.Keys`prev, at.Keys`next
      ensures Holds(Added(d, k + 1).(numLines := d.numLines, last := if d.lines[k].id == d.last then d.idCnt else d.last))
      ensures fresh(ll) && at.Keys == old(at.Keys) + {ll}
      ensures |chain| == |d.lines| + 1 && c.ownLine == chain[k] && ll == chain[k+1]
    {
      hide *;
      AtLine(k, d);
      AddedLast(d, k + 1);
      ll := AddUnended(c.ownLine, c.ownLine.next, k + 1, d);
      LastBelow(c, ll, Added(d, k + 1).(numLines := d.numLines));
    }

    /** A server keeps its own cursor on the first line. */
    method OwnUp(ghost d: Doc)
      requires Holds(d) && DistinctIds(d.lines)
      modifies pens`ownLine, pens`pos
      ensures Holds(if d.server && d.curs[0].line != d.lines[0].id && Idx(d.lines, d.curs[0].line) < |d.lines|
                    then d.(curs := d.curs[0 := MovePos(d.lines, d.last, d.curs[0], Up)]) else d)
    {
      hide Shows;
      NodeIdx(chain, at, d.lines, ownCurs.ownLine);
      SameNode(chain, at, d.lines, ownCurs.ownLine, first);
      if serverMode && ownCurs.ownLine != first {
        BcursorMove(ownCurs.id, Up, d.lines, d.curs);
      }
    }

    method AboveHeld(c: Cursor, ghost k: nat, ghost d: Doc) returns (ll: LineNode)
      requires Holds(d.(numLines := d.numLines + 1)) && k < |d.lines| && c.ownLine == chain[k]
      requires DistinctIds(Added(d, k).lines)
      modifies this`first, this`lineIdCnt, this`chain, this`at, at.Keys`prev, at.Keys`next, pens`ownLine, pens`pos
      ensures Holds(NewLineAbove(d, k)) && fresh(ll) && at.Keys == old(at.Keys) + {ll}
    {
      hide Carries;
      ll := NodeAbove(c, k, d.(numLines := d.numLines + 1));
      OwnUp(Added(d, k));
    }

    /** The text of line k from column c.pos on goes to the new line ll below. */
    method CutText(c: Cursor, ll: LineNode, ghost k: nat, ghost d: Doc)
      requires Holds(d) && k + 1 < |d.lines| && c.ownLine == chain[k] && ll == chain[k+1]
      requires 0 <= c.pos <= |d.lines[k].str|
      modifies at.Keys`str
      ensures Holds(d.(lines := SetStr(SetStr(d.lines, k, d.lines[k].str[..c.pos]), k + 1, d.lines[k].str[c.pos..])))
    {
      hide Registered;
      assert ll.prev == PrevOf(chain, k + 1);
      ll.str := ll.prev.str;
      ll.prev.str := RopeDel(ll.prev.str, c.pos, |ll.str| - c.pos);
      ll.str := RopeDel(ll.str, 0, c.pos);
    }

    method SetPos(q: Cursor, pos: int, ghost m: map<int, Pos>)
      requires Cursors() && Seats(m) && q.id in curs && curs[q.id] == q
      modifies q`pos
      ensures Seats(m[q.id := m[q.id].(col := pos)])
    {
      q.pos := pos;
    }

    /** q, at column col of a line that is not the last, goes down to the same column. */
    method StepBelow(q: Cursor, ghost k: nat, ghost ls: seq<Line>, ghost m: map<int, Pos>)
      requires Chained() && Distinct(ls) && Cursors() && Seats(m) && k + 1 < |ls| && last.id != ls[k].id
      requires q.id in curs && curs[q.id] == q && m[q.id].line == ls[k].id && m[q.id].col <= |ls[k+1].str|
      modifies pens`ownLine, pens`pos
      ensures Seats(m[q.id := m[q.id].(line := ls[k+1].id)])
    {
      assert Idx(ls, ls[k].id) == k;
      BcursorMove(q.id, Down, ls, m);
    }

    /** A cursor right of c on its line goes to the line below. */
    method OneDown(q: Cursor, c: Cursor, ghost k: nat, ghost ls: seq<Line>, ghost m: map<int, Pos>)
      requires Chained() && Distinct(ls) && Cursors() && Seats(m) && k + 1 < |ls| && last.id != ls[k].id
      requires c.id in curs && curs[c.id] == c && m[c.id].line == ls[k].id
      requires q.id in curs && curs[q.id] == q
      requires m[q.id].line == ls[k].id ==> m[q.id].col - m[c.id].col <= |ls[k+1].str|
      modifies pens`ownLine, pens`pos
      ensures Seats(m[q.id := if q == c then m[q.id] else AfterSplit(m[c.id], ls[k+1].id, m[q.id])])
    {
      hide Idx, Cursors;
      SameNode(chain, at, ls, c.ownLine, q.ownLine);
      if c != q && c.ownLine == q.ownLine && c.pos < q.pos {
        ghost var m' := m[q.id := Pos(ls[k].id, m[q.id].col - m[c.id].col)];
        SetPos(q, q.pos - c.pos, m);
        StepBelow(q, k, ls, m');
        assert m'[q.id := m'[q.id].(line := ls[k+1].id)] == m[q.id := AfterSplit(m[c.id], ls[k+1].id, m[q.id])];
      }
    }

    method DownAt(i: nat, c: Cursor, ghost k: nat, ghost ls: seq<Line>, ghost cs: map<int, Pos>, ghost cs': map<int, Pos>)
      requires Chained() && Distinct(ls) && Cursors() && k + 1 < |ls| && i < MAX_CURSOR_NUM && last.id != ls[k].id
      requires c.id in curs && curs[c.id] == c && PushedDown(cs, cs', c.id, ls[k+1].id) && Seats(Blend(cs, cs', slot, i))
      requires cs[c.id].line == ls[k].id && FitsBelow(ls, k, cs[c.id], cs)
      modifies pens`ownLine, pens`pos
      ensures Seats(Blend(cs, cs', slot, i + 1))
    {
      ghost var m := Blend(cs, cs', slot, i);
      AtSlot(cs, cs', i);
      if peerCurss[i] != null {
        OneDown(peerCurss[i], c, k, ls, m);
      }
    }

    method PeersDown(c: Cursor, ghost k: nat, ghost ls: seq<Line>, ghost cs: map<int, Pos>, ghost cs': map<int, Pos>)
      requires Chained() && Distinct(ls) && Cursors() && k + 1 < |ls| && last.id != ls[k].id
      requires c.id in curs && curs[c.id] == c && PushedDown(cs, cs', c.id, ls[k+1].id) && Seats(Blend(cs, cs', slot, 0))
      requires cs[c.id].line == ls[k].id && FitsBelow(ls, k, cs[c.id], cs)
      modifies pens`ownLine, pens`pos
      ensures Seats(Blend(cs, cs', slot, MAX_CURSOR_NUM))
    {
      for i := 0 to MAX_CURSOR_NUM
        invariant Seats(Blend(cs, cs', slot, i))
      {
        DownAt(i, c, k, ls, cs, cs');
      }
    }

    lemma PushReady(c: Cursor, k: nat, d: Doc, cs': map<int, Pos>)
      requires Holds(d) && DistinctIds(d.lines) && k + 1 < |d.lines|
      requires c.id in curs && curs[c.id] == c && PushedDown(d.curs, cs', c.id, d.lines[k+1].id)
      requires c.id in d.curs && FitsBelow(d.lines, k, d.curs[c.id], d.curs)
      ensures 0 in d.curs && (d.curs[0].line == d.lines[k].id ==> d.curs[0].col - d.curs[c.id].col <= |d.lines[k+1].str|)
      ensures cs'.Keys == d.curs.Keys && Blend(d.curs, cs', slot, MAX_CURSOR_NUM) == cs'
      ensures Blend(d.curs, cs', slot, 0) ==
              d.curs[0 := if ownCurs == c then d.curs[0] else AfterSplit(d.curs[c.id], d.lines[k+1].id, d.curs[0])]
    {
      HeldFramed(d);
      hide Holds, Framed, Distinct, Chained, Seats, Blend, Linked, Shows, DistinctIds, Idx;
      AllSlots(d.curs, cs');
    }

    method PushDown(c: Cursor, ghost k: nat, ghost d: Doc, ghost cs': map<int, Pos>)
      requires Holds(d) && DistinctIds(d.lines) && k + 1 < |d.lines| && d.last != d.lines[k].id
      requires c.id in curs && curs[c.id] == c && PushedDown(d.curs, cs', c.id, d.lines[k+1].id)
      requires d.curs[c.id].line == d.lines[k].id && FitsBelow(d.lines, k, d.curs[c.id], d.curs)
      modifies pens`ownLine, pens`pos
      ensures Holds(d.(curs := cs'))
    {
      hide *;
      HeldFramed(d);
      PushReady(c, k, d, cs');
      OneDown(ownCurs, c, k, d.lines, d.curs);
      PeersDown(c, k, d.lines, d.curs, cs');
      HeldAgain(d, cs');
    }

    /** c to the start of the line below. */
    method ToLineBelow(c: Cursor, ghost k: nat, ghost d: Doc)
      requires Holds(d) && DistinctIds(d.lines) && k + 1 < |d.lines| && d.last != d.lines[k].id
      requires c.id in curs && curs[c.id] == c && d.curs[c.id].line == d.lines[k].id
      modifies pens`ownLine, pens`pos
      ensures Holds(d.(curs := d.curs[c.id := Pos(d.lines[k+1].id, 0)]))
    {
      hide Cursors;
      ghost var m := d.curs[c.id := Pos(d.lines[k].id, 0)];
      SetPos(c, 0, d.curs);
      StepBelow(c, k, d.lines, m);
      assert m[c.id := m[c.id].(line := d.lines[k+1].id)] == d.curs[c.id := Pos(d.lines[k+1].id, 0)];
    }

    method CutBelow(c: Cursor, ll: LineNode, ghost k: nat, ghost d: Doc)
      requires k < |d.lines| && 0 <= c.pos <= |d.lines[k].str|
      requires Holds(AddedBelow(d, k)) && |chain| == |d.lines| + 1 && c.ownLine == chain[k] && ll == chain[k+1]
      modifies at.Keys`str
      ensures Holds(Cut(d, c.id, k, c.pos))
    {
      CutLines(d, c.id, k, c.pos);
      CutText(c, ll, k, AddedBelow(d, k));
    }

    /** The part of a split that has text to move. */
    method CutAndPush(c: Cursor, ll: LineNode, ghost k: nat, ghost d: Doc)
      requires SplitOk(d, c.id, k, c.pos) && c.id in curs && curs[c.id] == c
      requires Holds(AddedBelow(d, k)) && |chain| == |d.lines| + 1 && c.ownLine == chain[k] && ll == chain[k+1]
      modifies at.Keys`str, pens`ownLine, pens`pos
      ensures Holds(Cut(d, c.id, k, old(c.pos)).(curs := Pushed(d, c.id, k, old(c.pos))))
    {
      ghost var col := c.pos;
      CutBelow(c, ll, k, d);
      PushDown(c, k, Cut(d, c.id, k, col), Pushed(d, c.id, k, col));
    }

    /** Where a split starts; at the end of the line nothing needs to be cut. */
    lemma SplitStarts(c: Cursor, k: nat, d: Doc)
      requires SplitOk(d, c.id, k, c.pos) && Stands(c, k, c.pos) && Holds(d.(numLines := d.numLines + 1))
      ensures k < |d.lines| && DistinctIds(d.lines) && c.ownLine == chain[k] && c.id in curs && curs[c.id] == c
      ensures 0 <= c.pos <= |d.lines[k].str| == |c.ownLine.str|
      ensures Added(d.(numLines := d.numLines + 1), k + 1).(numLines := d.numLines + 1,
                last := if d.lines[k].id == d.last then d.idCnt else d.last) == AddedBelow(d, k)
      ensures c.pos == |d.lines[k].str| ==> AddedBelow(d, k) == Cut(d, c.id, k, c.pos).(curs := Pushed(d, c.id, k, c.pos))
    {
      CutLines(d, c.id, k, c.pos);
      hide Linked, Cursors, Seats, InsertAt, DistinctIds, Cut, Pushed, SplitLine;
    }

    /** All of a split but c's own step down. */
    method SplitText(c: Cursor, ghost k: nat, ghost d: Doc) returns (ll: LineNode)
      requires SplitOk(d, c.id, k, c.pos) && Stands(c, k, c.pos)
      requires Holds(d.(numLines := d.numLines + 1))
      modifies this`last, this`lineIdCnt, this`chain, this`at
      modifies at.Keys`prev, at.Keys`next, at.Keys`str, pens`ownLine, pens`pos
      ensures Holds(Cut(d, c.id, k, old(c.pos)).(curs := Pushed(d, c.id, k, old(c.pos))))
      ensures fresh(ll) && at.Keys == old(at.Keys) + {ll}
    {
      hide *;
      SplitStarts(c, k, d);
      ll := NodeBelow(c, k, d.(numLines := d.numLines + 1));
      if c.pos != |c.ownLine.str| {
        CutAndPush(c, ll, k, d);
      }
    }

    method BelowHeld(c: Cursor, ghost k: nat, ghost d: Doc) returns (ll: LineNode)
      requires SplitOk(d, c.id, k, c.pos) && Stands(c, k, c.pos)
      requires Holds(d.(numLines := d.numLines + 1))
      modifies this`last, this`lineIdCnt, this`chain, this`at
      modifies at.Keys`prev, at.Keys`next, at.Keys`str, pens`ownLine, pens`pos
      ensures Holds(SplitLine(d, c.id, k, old(c.pos))) && fresh(ll) && at.Keys == old(at.Keys) + {ll}
    {
      hide Holds;
      ghost var col := c.pos;
      ll := SplitText(c, k, d);
      ToLineBelow(c, k, Cut(d, c.id, k, col).(curs := Pushed(d, c.id, k, col)));
    }

    lemma AboveAt(c: Cursor) returns (k: nat, d': Doc)
      requires Holds(doc.(numLines := doc.numLines + 1)) && WF(doc) && c.id in curs && curs[c.id] == c && c.pos == 0
      ensures k < |doc.lines| && c.ownLine == chain[k] && DistinctIds(Added(doc, k).lines) && c.id in doc.curs
      ensures d' == NewLineAbove(doc, k) == NewLine(doc, c.id) && WF(d')
    {
      k := Where(c, doc.(numLines := doc.numLines + 1));
      d' := NewLineAbove(doc, k);
      AboveReady(doc, c.id, k);
    }

    lemma BelowAt(c: Cursor) returns (k: nat, d': Doc)
      requires Holds(doc.(numLines := doc.numLines + 1)) && WF(doc) && c.id in curs && curs[c.id] == c && c.pos != 0
      ensures SplitOk(doc, c.id, k, c.pos) && Stands(c, k, c.pos)
      ensures d' == SplitLine(doc, c.id, k, c.pos) == NewLine(doc, c.id) && WF(d')
    {
      k := Where(c, doc.(numLines := doc.numLines + 1));
      d' := SplitLine(doc, c.id, k, c.pos);
      BelowReady(doc, c.id, k, c.pos);
    }

    method BecomeAbove(c: Cursor, ghost k: nat, ghost d': Doc) returns (ll: LineNode)
      requires Holds(doc.(numLines := doc.numLines + 1)) && k < |doc.lines| && c.ownLine == chain[k]
      requires DistinctIds(Added(doc, k).lines) && d' == NewLineAbove(doc, k) && WF(d')
      modifies this`doc, this`first, this`lineIdCnt, this`chain, this`at
      modifies at.Keys`prev, at.Keys`next, pens`ownLine, pens`pos
      ensures Valid() && doc == d' && fresh(ll) && at.Keys == old(at.Keys) + {ll}
    {
      ll := AboveHeld(c, k, doc);
      Become(d');
    }

    method BecomeBelow(c: Cursor, ghost k: nat, ghost d': Doc) returns (ll: LineNode)
      requires Holds(doc.(numLines := doc.numLines + 1)) && SplitOk(doc, c.id, k, c.pos) && Stands(c, k, c.pos)
      requires d' == SplitLine(doc, c.id, k, c.pos) && WF(d')
      modifies this`doc, this`last, this`lineIdCnt, this`chain, this`at
      modifies at.Keys`prev, at.Keys`next, at.Keys`str, pens`ownLine, pens`pos
      ensures Valid() && doc == d' && fresh(ll) && at.Keys == old(at.Keys) + {ll}
    {
      hide Holds;
      ll := BelowHeld(c, k, doc);
      Become(d');
    }

    method InsertAbove(c: Cursor) returns (ll: LineNode)
      requires Holds(doc.(numLines := doc.numLines + 1)) && WF(doc) && c.id in curs && curs[c.id] == c && c.pos == 0
      modifies this`doc, this`first, this`lineIdCnt, this`chain, this`at
      modifies at.Keys`prev, at.Keys`next, pens`ownLine, pens`pos
      ensures Valid() && doc == NewLine(old(doc), c.id) && fresh(ll) && at.Keys == old(at.Keys) + {ll}
    {
      ghost var k, d' := AboveAt(c);
      ll := BecomeAbove(c, k, d');
    }

    method InsertBelow(c: Cursor) returns (ll: LineNode)
      requires Holds(doc.(numLines := doc.numLines + 1)) && WF(doc) && c.id in curs && curs[c.id] == c && c.pos != 0
      modifies this`doc, this`last, this`lineIdCnt, this`chain, this`at
      modifies at.Keys`prev, at.Keys`next, at.Keys`str, pens`ownLine, pens`pos
      ensures Valid() && doc == NewLine(old(doc), c.id) && fresh(ll) && at.Keys == old(at.Keys) + {ll}
    {
      ghost var k, d' := BelowAt(c);
      ll := BecomeBelow(c, k, d');
    }

    method CountLine()
      requires Valid()
      modifies this`numLines
      ensures Holds(doc.(numLines := doc.numLines + 1))
    {
      numLines := numLines + 1;
    }

    method InsertLineAt(c: Cursor) returns (ll: LineNode)
      requires Holds(doc.(numLines := doc.numLines + 1)) && WF(doc) && c.id in curs && curs[c.id] == c
      modifies this`doc, this`first, this`last, this`lineIdCnt, this`chain, this`at
      modifies at.Keys`prev, at.Keys`next, at.Keys`str, pens`ownLine, pens`pos
      ensures Valid() && doc == NewLine(old(doc), c.id) && fresh(ll) && at.Keys == old(at.Keys) + {ll}
    {
      if c.pos == 0 {
        ll := InsertAbove(c);
      } else {
        ll := InsertBelow(c);
      }
    }

    /** A line break at the cursor: an empty line above at column 0, else the line split there. */
    method BcursorInsertLine(id: int) returns (r: Bres, ghost ll: LineNode)
      requires Valid() && id in doc.curs
      modifies this`doc, this`numLines, this`first, this`last, this`lineIdCnt, this`chain, this`at
      modifies at.Keys`prev, at.Keys`next, at.Keys`str, pens`ownLine, pens`pos
      ensures Valid() && doc == NewLine(old(doc), id) && fresh(ll) && at.Keys == old(at.Keys) + {ll}
      ensures r == UPDATE
    {
      hide Indexed, WF, Linked;
      CountLine();
      var c := BcursorFind(id);
      ll := InsertLineAt(c);
      r := UPDATE;
    }

    // ---------------------------------------------------------------- cursors come and go

    /** The line with the given id, sought from last upwards. */
    method BlineFrom(id: int, ghost ls: seq<Line>) returns (l: LineNode?)
      requires Chained() && Distinct(ls)
      ensures |chain| == |ls| && last in at
      ensures l == if Idx(ls, id) <= at[last] then chain[Idx(ls, id)] else null
    {
      var lit: LineNode? := last;
      while lit != null
        invariant lit != null && lit in at && at[lit] <= at[last]
        invariant forall x :: at[lit] < x <= at[last] ==> ls[x].id != id
        decreases at[lit]
      {
        if lit.id == id {
          NodeIdx(chain, at, ls, lit);
          return lit;
        }
        if lit == first {
          break;
        }
        assert chain[at[lit]].prev == PrevOf(chain, at[lit]);
        lit := lit.prev;
      }
      assert forall x :: 0 <= x <= at[last] ==> ls[x].id != id;
      return null;
    }

    /** The line of the text with the given id. */
    method BlineFind(id: int) returns (l: LineNode?)
      requires Valid()
      ensures if Idx(doc.lines, id) <= LastAt(doc) then |chain| == |doc.lines| && l == chain[Idx(doc.lines, id)] else l == null
    {
      NodeIdx(chain, at, doc.lines, last);
      l := BlineFrom(id, doc.lines);
    }

    ghost predicate Full()
      reads peerCurss
    {
      forall i :: 0 <= i < peerCurss.Length ==> peerCurss[i] != null
    }

    /** c in the first free slot, or nowhere. */
    method Seat(c: Cursor) returns (r: Bres)
      requires Cursors() && c.id != 0 && c.id !in curs
      modifies this`curs, this`slot, this`pens, peerCurss
      ensures Cursors() && r == if old(Full()) then FAILED else UPDATE
      ensures r == FAILED ==> curs == old(curs) && pens == old(pens)
      ensures r == UPDATE ==> curs == old(curs)[c.id := c] && pens == old(pens) + {c}
    {
      for i := 0 to MAX_CURSOR_NUM
        invariant i < MAX_CURSOR_NUM && Cursors() && c.id !in curs && peerCurss[..] == old(peerCurss[..])
        invariant curs == old(curs) && pens == old(pens)
        invariant forall x :: 0 <= x < i ==> peerCurss[x] != null
      {
        if peerCurss[i] == null {
          peerCurss[i] := c;
          curs, slot, pens := curs[c.id := c], slot[c.id := i], pens + {c};
          break;
        }
        if i == MAX_CURSOR_NUM - 1 {
          return FAILED;
        }
      }
      return UPDATE;
    }

    /** The peers of the first n slots. */
    ghost function Peers(n: nat): set<int>
      requires Cursors()
      reads this`ownCurs, this`curs, this`slot, this`pens, peerCurss
    {
      set c | c in curs && c != 0 && Slotted(c) && slot[c] < n
    }

    lemma PeersNext(n: nat)
      requires Cursors() && 0 < n <= MAX_CURSOR_NUM
      ensures var q := peerCurss[n-1];
              if q == null then Peers(n) == Peers(n - 1) else q.id !in Peers(n - 1) && Peers(n) == Peers(n - 1) + {q.id}
    {
      var q := peerCurss[n-1];
      assert q != null ==> Registered(q, n - 1);
      assert q == null ==> forall c :: c in Peers(n) ==> slot[c] != n - 1;
    }

    lemma {:induction false} PeersCount(n: nat)
      requires Cursors() && n <= MAX_CURSOR_NUM
      ensures |Peers(n)| <= n
      ensures |Peers(n)| == n <==> forall i :: 0 <= i < n ==> peerCurss[i] != null
    {
      if n > 0 {
        PeersCount(n - 1);
        PeersNext(n);
        hide Peers;
      } else {
        assert Peers(0) == {};
      }
    }

    /** The peer array is full exactly when it holds 20 cursors. */
    lemma FullCount()
      requires Cursors()
      ensures Full() <==> |curs| == MAX_CURSOR_NUM + 1
    {
      PeersCount(MAX_CURSOR_NUM);
      assert curs.Keys == Peers(MAX_CURSOR_NUM) + {0};
    }

    /** There is a slot for every user while ids are in 1, ..., 19. */
    lemma UsersFit()
      requires Valid()
      requires forall c :: c in doc.curs ==> 0 <= c < MAX_CURSOR_NUM
      ensures !Full()
    {
      FullCount();
      CountBelow(curs.Keys, MAX_CURSOR_NUM);
    }

    method SeatHeld(c: Cursor, ghost d: Doc) returns (r: Bres)
      requires Holds(d) && c.id != 0 && c.id !in d.curs && c.ownLine in at
      modifies this`curs, this`slot, this`pens, peerCurss
      ensures r == if old(Full()) then FAILED else UPDATE
      ensures Holds(if r == FAILED then d else AddCursor(d, c.id, c.At()))
    {
      r := Seat(c);
    }

    method OwnHeld(c: Cursor, ghost d: Doc)
      requires Holds(d) && c.id == 0 && c.ownLine in at
      modifies this`ownCurs, this`curs, this`pens
      ensures Holds(AddCursor(d, 0, c.At()))
    {
      hide Carries, Chained;
      ownCurs := c;
      curs, pens := curs[0 := c], pens + {c};
    }

    method PlaceHeld(c: Cursor, ghost d: Doc) returns (r: Bres)
      requires Holds(d) && (c.id != 0 ==> c.id !in d.curs) && c.ownLine in at
      modifies this`ownCurs, this`curs, this`slot, this`pens, peerCurss
      ensures r == if c.id != 0 && old(Full()) then FAILED else UPDATE
      ensures Holds(if r == FAILED then d else AddCursor(d, c.id, c.At()))
    {
      if c.id == 0 {
        OwnHeld(c, d);
        r := UPDATE;
      } else {
        r := SeatHeld(c, d);
      }
    }

    /** A cursor on line lid; refused when all peer slots are taken. */
    method BcursorNew(id: int, lid: int, pos: int) returns (r: Bres)
      requires Valid() && (id != 0 ==> id !in doc.curs) && OnText(doc, Pos(lid, pos))
      modifies this`doc, this`ownCurs, this`curs, this`slot, this`pens, peerCurss
      ensures Valid() && doc == if r == FAILED then old(doc) else AddCursor(old(doc), id, Pos(lid, pos))
      ensures r == if id != 0 && old(Full()) then FAILED else UPDATE
    {
      hide Cursors;
      AddKeeps(doc, id, Pos(lid, pos));
      var l := BlineFind(lid);
      var c := new Cursor(id, l, pos);
      ghost var d := doc;
      r := PlaceHeld(c, d);
      Become(if r == FAILED then d else AddCursor(d, id, Pos(lid, pos)));
    }

    method BcursorCopyOwn(id: int) returns (r: Bres)
      requires Valid() && id !in doc.curs
      modifies this`doc, this`ownCurs, this`curs, this`slot, this`pens, peerCurss
      ensures Valid() && doc == if r == FAILED then old(doc) else AddCursor(old(doc), id, old(doc).curs[0])
      ensures r == if old(Full()) then FAILED else UPDATE
    {
      assert OnText(doc, doc.curs[0]);
      r := BcursorNew(id, ownCurs.ownLine.id, ownCurs.pos);
    }

    method Unseat(c: Cursor, ghost d: Doc)
      requires Holds(d) && c.id in curs && curs[c.id] == c && c.id != 0
      modifies this`curs, peerCurss
      ensures Holds(d.(curs := d.curs - {c.id}))
    {
      hide Shows;
      assert Slotted(c.id);
      for i := 0 to MAX_CURSOR_NUM
        invariant Holds(d) && curs == old(curs) && i <= slot[c.id] && peerCurss[..] == old(peerCurss[..])
      {
        if c == peerCurss[i] {
          peerCurss[i] := null;
          curs := curs - {c.id};
          break;
        }
      }
    }

    /** A peer's cursor goes; the own one is kept. */
    method BcursorFree(id: int) returns (r: Bres)
      requires Valid() && id in doc.curs
      modifies this`doc, this`curs, peerCurss
      ensures Valid() && doc == RemoveCursor(old(doc), id)
      ensures r == if id == 0 then FAILED else UPDATE
    {
      var c := BcursorFind(id);
      if c == ownCurs {
        return FAILED;
      }
      RemoveKeeps(doc, id);
      Unseat(c, doc);
      Become(RemoveCursor(doc, id));
      return UPDATE;
    }

    // ---------------------------------------------------------------- for the file loader

    method ToColumnZero(id: int)
      requires Valid() && id in doc.curs
      modifies this`doc, pens`pos
      ensures Valid() && doc == AtColumnZero(old(doc), id)
    {
      hide WF, Shows;
      ColumnZeroKeeps(doc, id);
      var c := BcursorFind(id);
      SetPos(c, 0, doc.curs);
      Become(AtColumnZero(doc, id));
    }

    method SetServerMode(on: bool)
      requires Valid()
      modifies this`doc, this`serverMode
      ensures Valid() && doc == old(doc).(server := on)
    {
      serverMode := on;
      Become(doc.(server := on));
    }

    // ---------------------------------------------------------------- for reading a snapshot

    /** A buffer of one line, to be completed from a snapshot; its cursor holds a place. */
    constructor OneLine(id: int, str: string, numLines: int, lineIdCnt: int, height: int, width: int)
      ensures Holds(OneLineDoc(Line(id, str), numLines, lineIdCnt, height, width))
      ensures |chain| == 1 && fresh(at.Keys) && fresh(pens) && fresh(peerCurss)
    {
      var l := new LineNode(id);
      first, last := l, l;
      this.numLines, this.lineIdCnt, this.height, this.width, serverMode := numLines, lineIdCnt, height, width, false;
      var c := new Cursor(0, l, 0);
      ownCurs := c;
      peerCurss := new Cursor?[MAX_CURSOR_NUM](_ => null);
      chain, at := [l], map[l := 0];
      pens, curs, slot := {c}, map[0 := c], map[];
      new;
      first.str := RopeInsert(first.str, 0, str);
      hide *;
      IsOneLine(id, str, numLines, lineIdCnt, height, width);
    }

    lemma IsOneLine(id: int, str: string, nl: int, cnt: int, h: int, w: int)
      requires peerCurss.Length == MAX_CURSOR_NUM && forall i :: 0 <= i < MAX_CURSOR_NUM ==> peerCurss[i] == null
      requires chain == [first] && at == map[first := 0] && last == first && first.prev == null && first.next == null
      requires first.id == id && first.str == str
      requires numLines == nl && lineIdCnt == cnt && height == h && width == w && !serverMode
      requires ownCurs.id == 0 && ownCurs.ownLine == first && ownCurs.pos == 0
      requires curs == map[0 := ownCurs] && pens == {ownCurs}
      ensures Holds(OneLineDoc(Line(id, str), nl, cnt, h, w))
    {
    }

    /** A node with its text after lit, the end of the chain. */
    method AppendNode(lit: LineNode, id: int, str: string, ghost ls: seq<Line>, ghost cs: map<int, Pos>) returns (l: LineNode)
      requires Linked(chain, at) && Carries(ls) && Seats(cs) && chain != [] && lit == chain[|chain| - 1]
      modifies this`chain, this`at, at.Keys`prev, at.Keys`next
      ensures fresh(l) && at.Keys == old(at.Keys) + {l} && |chain| == |ls| + 1 && l == chain[|ls|]
      ensures chain[0] == old(chain[0]) && Linked(chain, at) && Carries(InsertAt(ls, |ls|, Line(id, str))) && Seats(cs)
    {
      hide *;
      NodesOf(ls);
      RopeStart(str);
      l := LineNew(id, lit, null, chain, at, |chain|);
      l.str := RopeInsert(l.str, 0, str);
      Enchain(l, |chain|, ls, cs);
    }

    method AppendLine(lit: LineNode, id: int, str: string, ghost d: Doc) returns (l: LineNode)
      requires Holds(d) && lit == chain[|chain| - 1]
      modifies this`chain, this`at, at.Keys`prev, at.Keys`next
      ensures Holds(d.(lines := InsertAt(d.lines, |d.lines|, Line(id, str)))) && l == chain[|chain| - 1]
      ensures fresh(l) && at.Keys == old(at.Keys) + {l}
    {
      hide Carries;
      l := AppendNode(lit, id, str, d.lines, d.curs);
    }

    /** last by its id, sought from the end of the chain. */
    method SetLast(lit: LineNode, id: int, ghost d: Doc)
      requires Holds(d) && DistinctIds(d.lines) && lit == chain[|chain| - 1] && Idx(d.lines, id) < |d.lines|
      modifies this`last
      ensures Holds(d.(last := id))
    {
      hide Idx;
      last := lit;
      last := BlineFrom(id, d.lines);
    }
  }
}
