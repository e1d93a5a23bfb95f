/**
 The nodes a buffer is built of: lines doubly linked into a chain, and cursors that point
 into it.  A chain is described by the sequence of its nodes and the place of each node.
 */
module Chains {
  import opened Document

  class LineNode {
    const id: int
    var str: string
    var prev: LineNode?
    var next: LineNode?

    constructor (id: int)
      ensures this.id == id && str == "" && prev == null && next == null
    {
      this.id, this.str, this.prev, this.next := id, "", null, null;
    }
  }

  class Cursor {
    const id: int
    var ownLine: LineNode
    var pos: int

    constructor (id: int, l: LineNode, pos: int)
      ensures this.id == id && ownLine == l && this.pos == pos
    {
      this.id, ownLine, this.pos := id, l, pos;
    }

    function At(): Pos
      reads this`ownLine, this`pos
    {
      Pos(ownLine.id, pos)
    }
  }

  // ---------------------------------------------------------------- the rope contract

  /** Deleting num characters at pos; past the end it has no further effect. */
  function RopeDel(s: string, pos: nat, num: nat): string {
    if pos >= |s| then s
    else if pos + num >= |s| then s[..pos]
    else s[..pos] + s[pos + num..]
  }

  function RopeInsert(s: string, pos: nat, t: string): string
    requires pos <= |s|
  {
    s[..pos] + t + s[pos..]
  }

  lemma RopeStart(t: string)
    ensures RopeInsert("", 0, t) == t
  {
  }

  lemma RopeAppend(s: string, t: string)
    ensures RopeInsert(s, |s|, t) == s + t
  {
  }

  // ---------------------------------------------------------------- chains of nodes

  ghost function PrevOf(ch: seq<LineNode>, i: nat): LineNode?
    requires i < |ch|
  {
    if i == 0 then null else ch[i-1]
  }

  ghost function NextOf(ch: seq<LineNode>, i: nat): LineNode?
    requires i < |ch|
  {
    if i == |ch| - 1 then null else ch[i+1]
  }

  /** at gives the place of every node of the chain; so no node occurs twice. */
  ghost predicate Indexed(ch: seq<LineNode>, at: map<LineNode, nat>) {
    && (forall i :: 0 <= i < |ch| ==> ch[i] in at && at[ch[i]] == i)
    && (forall l :: l in at ==> at[l] < |ch| && ch[at[l]] == l)
  }

  /** prev and next are inverse along the chain and end at both sides. */
  ghost predicate Linked(ch: seq<LineNode>, at: map<LineNode, nat>)
    reads at.Keys`prev, at.Keys`next
  {
    && Indexed(ch, at)
    && (forall i {:trigger ch[i].prev} :: 0 <= i < |ch| ==> ch[i].prev == PrevOf(ch, i))
    && (forall i {:trigger ch[i].next} :: 0 <= i < |ch| ==> ch[i].next == NextOf(ch, i))
  }

  /** The chain carries the lines ls. */
  ghost predicate Shows(ch: seq<LineNode>, at: map<LineNode, nat>, ls: seq<Line>)
    reads at.Keys`str
  {
    && Indexed(ch, at)
    && |ch| == |ls|
    && forall i :: 0 <= i < |ls| ==> ls[i] == Line(ch[i].id, ch[i].str)
  }

  /** A node of the chain, found again by its id. */
  lemma NodeIdx(ch: seq<LineNode>, at: map<LineNode, nat>, ls: seq<Line>, l: LineNode)
    requires Shows(ch, at, ls) && DistinctIds(ls) && l in at
    ensures Idx(ls, l.id) == at[l]
  {
    assert ls[at[l]].id == l.id;
  }

  /** Nodes of a chain with distinct ids are told apart by their ids. */
  lemma SameNode(ch: seq<LineNode>, at: map<LineNode, nat>, ls: seq<Line>, a: LineNode, b: LineNode)
    requires Shows(ch, at, ls) && DistinctIds(ls) && a in at && b in at
    ensures a == b <==> a.id == b.id
  {
    NodeIdx(ch, at, ls, a);
    NodeIdx(ch, at, ls, b);
  }

  function InsertNode(ch: seq<LineNode>, k: nat, l: LineNode): seq<LineNode>
    requires k <= |ch|
  {
    ch[..k] + [l] + ch[k..]
  }

  ghost function InsertIndex(at: map<LineNode, nat>, k: nat, l: LineNode): map<LineNode, nat> {
    map x | x in at.Keys + {l} :: if x == l then k else if at[x] < k then at[x] else at[x] + 1
  }

  function RemoveNode(ch: seq<LineNode>, k: nat): seq<LineNode>
    requires k < |ch|
  {
    ch[..k] + ch[k+1..]
  }

  ghost function RemoveIndex(at: map<LineNode, nat>, k: nat): map<LineNode, nat> {
    map x | x in at && at[x] != k :: if at[x] < k then at[x] else at[x] - 1
  }

  lemma InsertIndexed(ch: seq<LineNode>, at: map<LineNode, nat>, k: nat, l: LineNode)
    requires Indexed(ch, at) && k <= |ch| && l !in at
    ensures Indexed(InsertNode(ch, k, l), InsertIndex(at, k, l))
  {
    var m, bt := InsertNode(ch, k, l), InsertIndex(at, k, l);
    forall i | 0 <= i < |m| ensures m[i] in bt && bt[m[i]] == i {
      assert m[i] == if i < k then ch[i] else if i == k then l else ch[i-1];
    }
    forall x | x in bt ensures bt[x] < |m| && m[bt[x]] == x {
      if x != l { assert ch[at[x]] == x; }
    }
  }

  lemma RemoveIndexed(ch: seq<LineNode>, at: map<LineNode, nat>, k: nat)
    requires Indexed(ch, at) && k < |ch|
    ensures Indexed(RemoveNode(ch, k), RemoveIndex(at, k))
  {
    var m, bt := RemoveNode(ch, k), RemoveIndex(at, k);
    forall i | 0 <= i < |m| ensures m[i] in bt && bt[m[i]] == i {
      assert m[i] == if i < k then ch[i] else ch[i+1];
    }
    forall x | x in bt ensures bt[x] < |m| && m[bt[x]] == x {
      assert ch[at[x]] == x;
    }
  }

  lemma InsertedShows(ch: seq<LineNode>, at: map<LineNode, nat>, ls: seq<Line>, k: nat, l: LineNode)
    requires Shows(ch, at, ls) && k <= |ch| && l !in at
    ensures Shows(InsertNode(ch, k, l), InsertIndex(at, k, l), InsertAt(ls, k, Line(l.id, l.str)))
  {
    InsertIndexed(ch, at, k, l);
    var m := InsertNode(ch, k, l);
    var ms := InsertAt(ls, k, Line(l.id, l.str));
    forall i | 0 <= i < |ms| ensures ms[i] == Line(m[i].id, m[i].str) {
      assert m[i] == if i < k then ch[i] else if i == k then l else ch[i-1];
    }
  }

  lemma RemovedShows(ch: seq<LineNode>, at: map<LineNode, nat>, ls: seq<Line>, k: nat)
    requires Shows(ch, at, ls) && k < |ch|
    ensures Shows(RemoveNode(ch, k), RemoveIndex(at, k), RemoveAt(ls, k))
  {
    RemoveIndexed(ch, at, k);
  }

  /** The chain is linked again once l and its neighbours point to each other. */
  lemma LinkIn(ch: seq<LineNode>, at: map<LineNode, nat>, k: nat, l: LineNode)
    requires Indexed(ch, at) && k <= |ch| && l !in at
    requires l.prev == (if k == 0 then null else ch[k-1]) && l.next == (if k == |ch| then null else ch[k])
    requires forall i {:trigger ch[i].prev} :: 0 <= i < |ch| ==> ch[i].prev == if i == k then l else PrevOf(ch, i)
    requires forall i {:trigger ch[i].next} :: 0 <= i < |ch| ==> ch[i].next == if i == k - 1 then l else NextOf(ch, i)
    ensures Linked(InsertNode(ch, k, l), InsertIndex(at, k, l))
  {
    InsertIndexed(ch, at, k, l);
    var m := InsertNode(ch, k, l);
    forall i | 0 <= i < |m| ensures m[i].prev == PrevOf(m, i) && m[i].next == NextOf(m, i) {
      if i < k {
        assert m[i] == ch[i] && ch[i].prev == PrevOf(ch, i);
      } else if i > k {
        assert m[i] == ch[i-1] && ch[i-1].next == NextOf(ch, i - 1);
      }
    }
  }

  lemma LinkOut(ch: seq<LineNode>, at: map<LineNode, nat>, k: nat)
    requires Indexed(ch, at) && k < |ch|
    requires forall i {:trigger ch[i].prev} :: 0 <= i < |ch| && i != k ==>
               ch[i].prev == if i == k + 1 then PrevOf(ch, k) else PrevOf(ch, i)
    requires forall i {:trigger ch[i].next} :: 0 <= i < |ch| && i != k ==>
               ch[i].next == if i == k - 1 then NextOf(ch, k) else NextOf(ch, i)
    ensures Linked(RemoveNode(ch, k), RemoveIndex(at, k))
  {
    RemoveIndexed(ch, at, k);
    var m := RemoveNode(ch, k);
    forall i | 0 <= i < |m| ensures m[i].prev == PrevOf(m, i) && m[i].next == NextOf(m, i) {
      if i < k {
        assert m[i] == ch[i] && ch[i].prev == PrevOf(ch, i);
      } else {
        assert m[i] == ch[i+1] && ch[i+1].next == NextOf(ch, i + 1);
      }
    }
  }

  /** A new node linked in between prev and next, at index k of the chain. */
  method LineNew(id: int, prev: LineNode?, next: LineNode?,
                 ghost ch: seq<LineNode>, ghost at: map<LineNode, nat>, ghost k: nat)
    returns (l: LineNode)
    requires Linked(ch, at) && k <= |ch|
    requires prev == (if k == 0 then null else ch[k-1]) && next == (if k == |ch| then null else ch[k])
    modifies at.Keys`prev, at.Keys`next
    ensures fresh(l) && l.id == id && l.str == ""
    ensures Linked(InsertNode(ch, k, l), InsertIndex(at, k, l))
  {
    l := new LineNode(id);
    l.prev := prev;
    if prev != null { l.prev.next := l; }
    l.next := next;
    if next != null { l.next.prev := l; }
    LinkIn(ch, at, k, l);
  }

  /** Unlinking node k. */
  method LineFree(l: LineNode, ghost ch: seq<LineNode>, ghost at: map<LineNode, nat>, ghost k: nat)
    requires Linked(ch, at) && k < |ch| && l == ch[k]
    modifies at.Keys`prev, at.Keys`next
    ensures Linked(RemoveNode(ch, k), RemoveIndex(at, k))
  {
    assert ch[k].prev == PrevOf(ch, k) && ch[k].next == NextOf(ch, k);
    if l.prev != null { l.prev.next := l.next; }
    if l.next != null { l.next.prev := l.prev; }
    LinkOut(ch, at, k);
  }
}
