/** Writing a buffer as JSON text, and building a buffer from such a text. */
module BufferSnapshots {
  import opened Wrappers
  import opened CStrings
  import opened Document
  import opened Chains
  import opened Buffers
  import opened JsonValue
  import opened JsonPaths
  import opened JsonParse
  import opened JsonParser
  import opened JsonPrint
  import opened JsonSerializer
  import opened Entries
  import opened Snapshots
  import opened AsciiTexts
  import opened SnapshotTexts

  /** User ids are below the number of peer slots. */
  ghost predicate UserIds(d: Doc) {
    forall c :: c in d.curs ==> 0 <= c < MAX_CURSOR_NUM
  }

  /** The ids of the peers in the order of their slots. */
  function SlotIds(cs: seq<Cursor?>): seq<int> {
    if cs == [] then []
    else
      var c := cs[|cs|-1];
      SlotIds(cs[..|cs|-1]) + if c == null then [] else [c.id]
  }

  lemma {:induction false} SlotIdsAre(cs: seq<Cursor?>, id: int)
    ensures id in SlotIds(cs) <==> exists i :: 0 <= i < |cs| && cs[i] != null && cs[i].id == id
  {
    if cs != [] {
      SlotIdsAre(cs[..|cs|-1], id);
      assert forall i :: 0 <= i < |cs| - 1 ==> cs[..|cs|-1][i] == cs[i];
    }
  }

  /** The slots of a valid buffer list exactly its peers. */
  lemma SlotsAre(b: Buffer)
    requires b.Valid() && UserIds(b.doc)
    ensures SlotsOf(b.doc, SlotIds(b.peerCurss[..]))
  {
    var ids := SlotIds(b.peerCurss[..]);
    forall c | c in ids ensures c in b.doc.curs && 1 <= c < 20 {
      SlotIdsAre(b.peerCurss[..], c);
      var i :| 0 <= i < b.peerCurss.Length && b.peerCurss[i] != null && b.peerCurss[i].id == c;
      assert b.Registered(b.peerCurss[i], i);
    }
    forall c | c in b.doc.curs && c != 0 ensures c in ids {
      assert b.Slotted(c);
      SlotIdsAre(b.peerCurss[..], c);
      assert b.peerCurss[..][b.slot[c]] == b.curs[c];
    }
  }

  // ---------------------------------------------------------------- entries set one by one

  lemma SetAllNext(es: seq<Entry>, e: Entry)
    ensures SetAll(es + [e]) == DotSet(SetAll(es), Path(e.key), e.value, false).members
  {
    assert (es + [e])[..|es + [e]| - 1] == es;
  }

  method Set(root: seq<Member>, k: Key, v: JSON, ghost es: seq<Entry>) returns (r: seq<Member>)
    requires root == SetAll(es)
    ensures r == SetAll(es + [Entry(k, v)])
  {
    SetAllNext(es, Entry(k, v));
    r := DotSet(root, Path(k), v, false).members;
  }

  method SetNumber(root: seq<Member>, name: string, n: int, ghost hs: seq<Entry>, ghost i: nat) returns (r: seq<Member>)
    requires i < |hs| && hs[i] == Entry(Top(name), JNum(n)) && root == SetAll(hs[..i])
    ensures r == SetAll(hs[..i+1])
  {
    hide *;
    assert hs[..i+1] == hs[..i] + [hs[i]];
    r := Set(root, Top(name), JNum(n), hs[..i]);
  }

  /** The counters of a valid buffer are those of its document. */
  lemma CountsAre(b: Buffer, x: Extra)
    requires b.Valid()
    ensures var d, hs: seq<Entry> := b.doc, HeadEntries(b.doc, x);
            && |hs| == 10
            && hs[0] == Entry(Top("id"), JNum(x.id)) && hs[1] == Entry(Top("ver"), JNum(x.ver))
            && hs[2] == Entry(Top("num_lines"), JNum(b.numLines)) && hs[3] == Entry(Top("line_id_cnt"), JNum(b.lineIdCnt))
            && hs[4] == Entry(Top("height"), JNum(b.height)) && hs[5] == Entry(Top("width"), JNum(b.width))
            && hs[6] == Entry(Top("first"), JNum(b.first.id)) && hs[7] == Entry(Top("last"), JNum(b.last.id))
            && hs[8] == Entry(Top("top"), JNum(x.top)) && hs[9] == Entry(Top("bottom"), JNum(x.bottom))
  {
  }

  lemma HeadNonempty(b: Buffer)
    requires b.Valid()
    ensures b.doc.lines != []
  {
  }

  method SetHead(b: Buffer, x: Extra) returns (root: seq<Member>)
    requires b.Valid()
    ensures root == SetAll(HeadEntries(b.doc, x))
  {
    HeadNonempty(b);
    CountsAre(b, x);
    hide *;
    ghost var hs: seq<Entry> := HeadEntries(b.doc, x);
    NoEntries(hs);
    root := SetNumber([], "id", x.id, hs, 0);
    root := SetNumber(root, "ver", x.ver, hs, 1);
    root := SetNumber(root, "num_lines", b.numLines, hs, 2);
    root := SetNumber(root, "line_id_cnt", b.lineIdCnt, hs, 3);
    root := SetNumber(root, "height", b.height, hs, 4);
    root := SetNumber(root, "width", b.width, hs, 5);
    root := SetNumber(root, "first", b.first.id, hs, 6);
    root := SetNumber(root, "last", b.last.id, hs, 7);
    root := SetNumber(root, "top", x.top, hs, 8);
    root := SetNumber(root, "bottom", x.bottom, hs, 9);
    NoEntries(hs);
  }

  lemma NoEntries(es: seq<Entry>)
    ensures SetAll(es[..0]) == [] && es[..|es|] == es
  {
  }

  lemma Regroup(es: seq<Entry>, a: seq<Entry>, b: seq<Entry>, c: seq<Entry>)
    ensures es + (a + b + c) == es + a + b + c
  {
  }

  lemma NoneMore(es: seq<Entry>)
    ensures es + [] == es
  {
  }

  /** Line i of the chain. */
  method SetLine(lit: LineNode, root: seq<Member>, ghost ls: seq<Line>, ghost i: nat, ghost es: seq<Entry>)
    returns (r: seq<Member>)
    requires i < |ls| && ls[i] == Line(lit.id, lit.str) && root == SetAll(es)
    requires if i + 1 < |ls| then lit.next != null && lit.next.id == ls[i+1].id else lit.next == null
    requires if i > 0 then lit.prev != null && lit.prev.id == ls[i-1].id else lit.prev == null
    ensures r == SetAll(es + LineEntries(ls, i))
  {
    hide SetAll, KeyOk, Path;
    ghost var a: seq<Entry>, p: seq<Entry> := [], [];
    NoneMore(es);
    r := root;
    if lit.next != null {
      a := [Entry(LineKey(lit.id, "next"), JNum(lit.next.id))];
      r := Set(r, LineKey(lit.id, "next"), JNum(lit.next.id), es);
    }
    NoneMore(es + a);
    if lit.prev != null {
      p := [Entry(LineKey(lit.id, "prev"), JNum(lit.prev.id))];
      r := Set(r, LineKey(lit.id, "prev"), JNum(lit.prev.id), es + a);
    }
    r := Set(r, LineKey(lit.id, "str"), JStr(lit.str), es + a + p);
    Regroup(es, a, p, [Entry(LineKey(lit.id, "str"), JStr(lit.str))]);
  }

  lemma OneMoreLine(es: seq<Entry>, ls: seq<Line>, n: nat)
    requires n < |ls|
    ensures es + AllLines(ls, n + 1) == es + AllLines(ls, n) + LineEntries(ls, n)
  {
  }

  /** The node at index n and its neighbours. */
  lemma NodeAt(b: Buffer, n: nat)
    requires b.Valid() && n < |b.chain|
    ensures var ls, lit := b.doc.lines, b.chain[n];
            && |b.chain| == |ls| && ls[n] == Line(lit.id, lit.str)
            && lit.next == (if n + 1 < |ls| then b.chain[n+1] else null)
            && lit.prev == (if n > 0 then b.chain[n-1] else null)
            && (n + 1 < |ls| ==> b.chain[n+1].id == ls[n+1].id) && (n > 0 ==> b.chain[n-1].id == ls[n-1].id)
  {
    assert b.chain[n].next == NextOf(b.chain, n) && b.chain[n].prev == PrevOf(b.chain, n);
  }

  /** Line n, and the node that follows it. */
  method SetNode(b: Buffer, lit: LineNode, root: seq<Member>, ghost n: nat, ghost es: seq<Entry>)
    returns (r: seq<Member>, next: LineNode?)
    requires b.Valid() && |b.chain| == |b.doc.lines| && n < |b.chain| && lit == b.chain[n]
    requires root == SetAll(es + AllLines(b.doc.lines, n))
    ensures r == SetAll(es + AllLines(b.doc.lines, n + 1)) && next == if n + 1 < |b.chain| then b.chain[n+1] else null
  {
    hide *;
    NodeAt(b, n);
    r := SetLine(lit, root, b.doc.lines, n, es + AllLines(b.doc.lines, n));
    OneMoreLine(es, b.doc.lines, n);
    next := lit.next;
  }

  method SetLines(b: Buffer, root: seq<Member>, ghost es: seq<Entry>) returns (r: seq<Member>)
    requires b.Valid() && root == SetAll(es)
    ensures r == SetAll(es + AllLines(b.doc.lines, |b.doc.lines|))
  {
    hide *;
    StartOfChain(b, es);
    var lit: LineNode? := b.first;
    ghost var n := 0;
    r := root;
    while lit != null
      invariant |b.chain| == |b.doc.lines| && n <= |b.chain| && lit == if n < |b.chain| then b.chain[n] else null
      invariant r == SetAll(es + AllLines(b.doc.lines, n))
      decreases |b.chain| - n
    {
      r, lit := SetNode(b, lit, r, n, es);
      n := n + 1;
    }
  }

  lemma StartOfChain(b: Buffer, es: seq<Entry>)
    requires b.Valid()
    ensures |b.chain| == |b.doc.lines| > 0 && b.first == b.chain[0] && es + AllLines(b.doc.lines, 0) == es
  {
  }

  lemma PairUp(es: seq<Entry>, a: Entry, b: Entry)
    ensures es + [a, b] == es + [a] + [b]
  {
  }

  method SetPeer(c: Cursor, root: seq<Member>, ghost curs: map<int, Pos>, ghost es: seq<Entry>) returns (r: seq<Member>)
    requires c.id in curs && c.At() == curs[c.id] && root == SetAll(es)
    ensures r == SetAll(es + PeerPair(curs, c.id))
  {
    hide SetAll, Path;
    r := Set(root, PeerKey(c.id, "own_line"), JNum(c.ownLine.id), es);
    r := Set(r, PeerKey(c.id, "pos"), JNum(c.pos), es + [Entry(PeerKey(c.id, "own_line"), JNum(c.ownLine.id))]);
    PairUp(es, Entry(PeerKey(c.id, "own_line"), JNum(c.ownLine.id)), Entry(PeerKey(c.id, "pos"), JNum(c.pos)));
  }

  lemma NextSlot(cs: seq<Cursor?>, n: nat)
    requires n < |cs|
    ensures SlotIds(cs[..n+1]) == SlotIds(cs[..n]) + if cs[n] == null then [] else [cs[n].id]
  {
    assert cs[..n+1][..n] == cs[..n];
  }

  lemma NextPeer(es: seq<Entry>, curs: map<int, Pos>, slots: seq<int>, c: int)
    requires (forall i :: 0 <= i < |slots| ==> slots[i] in curs) && c in curs
    ensures es + PeerEntries(curs, slots + [c]) == es + PeerEntries(curs, slots) + PeerPair(curs, c)
  {
    assert (slots + [c])[..|slots + [c]| - 1] == slots;
  }

  lemma PeerAt(b: Buffer, i: nat)
    requires b.Valid() && i < b.peerCurss.Length && b.peerCurss[i] != null
    ensures var c := b.peerCurss[i];
            c.id in b.doc.curs && c.At() == b.doc.curs[c.id]
  {
    assert b.Registered(b.peerCurss[i], i);
  }

  ghost predicate SlotsIn(curs: map<int, Pos>, slots: seq<int>) {
    forall i :: 0 <= i < |slots| ==> slots[i] in curs
  }

  /** The peer of slot i, if there is one. */
  method SetSlot(b: Buffer, i: nat, root: seq<Member>, ghost ids: seq<int>, ghost es: seq<Entry>) returns (r: seq<Member>)
    requires b.Valid() && i < b.peerCurss.Length && SlotsIn(b.doc.curs, ids)
    requires root == SetAll(es + PeerEntries(b.doc.curs, ids))
    ensures var next := ids + if b.peerCurss[i] == null then [] else [b.peerCurss[i].id];
            SlotsIn(b.doc.curs, next) && r == SetAll(es + PeerEntries(b.doc.curs, next))
  {
    hide PeerEntries;
    var c := b.peerCurss[i];
    if c != null {
      PeerAt(b, i);
      hide PeerEntries, SetAll;
      r := SetPeer(c, root, b.doc.curs, es + PeerEntries(b.doc.curs, ids));
      NextPeer(es, b.doc.curs, ids, c.id);
    } else {
      assert ids + [] == ids;
      r := root;
    }
  }

  method SetPeers(b: Buffer, root: seq<Member>, ghost es: seq<Entry>) returns (r: seq<Member>)
    requires b.Valid() && root == SetAll(es) && SlotsOf(b.doc, SlotIds(b.peerCurss[..]))
    ensures r == SetAll(es + PeerEntries(b.doc.curs, SlotIds(b.peerCurss[..])))
  {
    r := root;
    NoneMore(es);
    ghost var ids := [];
    assert SlotIds(b.peerCurss[..0]) == [] && b.peerCurss.Length == MAX_CURSOR_NUM;
    hide *;
    for i := 0 to MAX_CURSOR_NUM
      invariant ids == SlotIds(b.peerCurss[..i]) && SlotsIn(b.doc.curs, ids)
      invariant r == SetAll(es + PeerEntries(b.doc.curs, ids))
    {
      SliceOne(b.peerCurss, i);
      NextSlot(b.peerCurss[..], i);
      r := SetSlot(b, i, r, ids, es);
      ids := SlotIds(b.peerCurss[..i+1]);
    }
    assert b.peerCurss[..MAX_CURSOR_NUM] == b.peerCurss[..];
  }

  lemma SliceOne(a: array<Cursor?>, i: nat)
    requires i < a.Length
    ensures a[..][..i] == a[..i] && a[..][..i+1] == a[..i+1] && a[..][i] == a[i]
  {
  }

  method SetOwn(c: Cursor, root: seq<Member>, ghost p: Pos, ghost es: seq<Entry>) returns (r: seq<Member>)
    requires c.id == 0 && c.At() == p && root == SetAll(es)
    ensures r == SetAll(es + OwnEntries(p))
  {
    hide SetAll, Path;
    ghost var a, l, q := Entry(OwnKey("id"), JNum(0)), Entry(OwnKey("own_line"), JNum(p.line)), Entry(OwnKey("pos"), JNum(p.col));
    r := Set(root, OwnKey("id"), JNum(c.id), es);
    r := Set(r, OwnKey("own_line"), JNum(c.ownLine.id), es + [a]);
    r := Set(r, OwnKey("pos"), JNum(c.pos), es + [a] + [l]);
    assert es + [a, l, q] == es + [a] + [l] + [q];
  }

  lemma OwnIs(b: Buffer)
    requires b.Valid()
    ensures 0 in b.doc.curs && b.ownCurs.id == 0 && b.ownCurs.At() == b.doc.curs[0]
  {
  }

  /** What the last step of serializing needs to know. */
  lemma SnapshotWritten(b: Buffer, x: Extra)
    requires b.Valid() && UserIds(b.doc) && Ints(b.doc, x)
    ensures var d, slots := b.doc, SlotIds(b.peerCurss[..]);
            && d.lines != [] && 0 in d.curs && SlotsOf(d, slots) && SlotsIn(d.curs, slots)
            && var root := SetAll(HeadEntries(d, x) + AllLines(d.lines, |d.lines|) +
                                  OwnEntries(d.curs[0]) + PeerEntries(d.curs, slots));
               Good(JObj(root)) && SnapText(d, x, slots) == Text(JObj(root), 0, false)
  {
    HeadNonempty(b);
    SlotsAre(b);
    SnapFine(b.doc, x, SlotIds(b.peerCurss[..]));
    hide Good, Text, SetAll, AllLines, PeerEntries, SlotIds;
  }

  /** buffer_serialize: the terminated text of the buffer. */
  method BufferSerialize(b: Buffer, x: Extra) returns (buf: array<char>)
    requires b.Valid() && UserIds(b.doc) && Ints(b.doc, x)
    ensures SlotsOf(b.doc, SlotIds(b.peerCurss[..]))
    ensures buf[..] == SnapText(b.doc, x, SlotIds(b.peerCurss[..])) + [NUL]
  {
    hide *;
    SnapshotWritten(b, x);
    OwnIs(b);
    ghost var d := b.doc;
    var root := SetHead(b, x);
    root := SetLines(b, root, HeadEntries(d, x));
    root := SetOwn(b.ownCurs, root, d.curs[0], HeadEntries(d, x) + AllLines(d.lines, |d.lines|));
    root := SetPeers(b, root, HeadEntries(d, x) + AllLines(d.lines, |d.lines|) + OwnEntries(d.curs[0]));
    buf := SerializeToString(JObj(root), false);
  }

  // ---------------------------------------------------------------- a buffer built from a text

  /** The first n lines read, nothing known of last and the cursors. */
  function Begun(d: Doc, n: nat): Doc
    requires 0 < n <= |d.lines|
  {
    d.(lines := d.lines[..n], last := d.lines[0].id, server := false, curs := map[0 := Pos(d.lines[0].id, 0)])
  }

  function Str(ms: seq<Member>, k: Key): string {
    match DotGet(ms, Path(k))
    case Some(JStr(s)) => s
    case _ => ""
  }

  lemma FirstFound(ms: seq<Member>, d: Doc, x: Extra)
    requires Describes(ms, d, x)
    ensures d.lines != [] && Num(ms, Top("first")) == d.lines[0].id
    ensures Str(ms, LineKey(d.lines[0].id, "str")) == d.lines[0].str
  {
    hide Path, DotGet;
    assert DescribesLine(ms, d.lines, 0);
  }

  lemma BegunOne(ms: seq<Member>, d: Doc, x: Extra)
    requires Describes(ms, d, x)
    ensures d.lines != []
    ensures Begun(d, 1) == OneLineDoc(Line(Num(ms, Top("first")), Str(ms, LineKey(Num(ms, Top("first")), "str"))),
                                      Num(ms, Top("num_lines")), Num(ms, Top("line_id_cnt")),
                                      Num(ms, Top("height")), Num(ms, Top("width")))
  {
    FirstFound(ms, d, x);
    hide Path, DotGet, Num, Str;
    assert d.lines[..1] == [Line(d.lines[0].id, d.lines[0].str)];
  }

  lemma LineFound(ms: seq<Member>, d: Doc, x: Extra, n: nat)
    requires Describes(ms, d, x) && 0 < n < |d.lines|
    ensures Num(ms, LineKey(d.lines[n-1].id, "next")) == d.lines[n].id
    ensures Str(ms, LineKey(d.lines[n].id, "str")) == d.lines[n].str
  {
    assert DescribesLine(ms, d.lines, n - 1) && DescribesLine(ms, d.lines, n);
    hide Path, DotGet, DescribesHead;
  }

  lemma BegunNext(d: Doc, n: nat)
    requires 0 < n < |d.lines|
    ensures Begun(d, n + 1) == Begun(d, n).(lines := InsertAt(d.lines[..n], n, d.lines[n]))
  {
    assert d.lines[..n+1] == InsertAt(d.lines[..n], n, d.lines[n]);
  }

  /** One line more, found under the id that follows lit. */
  method ReadLine(b: Buffer, lit: LineNode, ms: seq<Member>, ghost d: Doc, ghost x: Extra, ghost n: nat) returns (l: LineNode)
    requires Describes(ms, d, x) && 0 < n < |d.lines|
    requires b.Holds(Begun(d, n)) && b.chain != [] && lit == b.chain[|b.chain| - 1] && lit.id == d.lines[n-1].id
    modifies b`chain, b`at, b.at.Keys`prev, b.at.Keys`next
    ensures b.Holds(Begun(d, n + 1)) && b.chain != [] && l == b.chain[|b.chain| - 1] && l.id == d.lines[n].id
    ensures fresh(l) && b.at.Keys == old(b.at.Keys) + {l}
  {
    LineFound(ms, d, x, n);
    BegunNext(d, n);
    BegunLines(d, n);
    hide *;
    var id := Num(ms, LineKey(lit.id, "next"));
    l := b.AppendLine(lit, id, Str(ms, LineKey(id, "str")), Begun(d, n));
    EndIs(b, d, n + 1);
  }

  lemma BegunLines(d: Doc, n: nat)
    requires 0 < n < |d.lines|
    ensures Begun(d, n).lines == d.lines[..n] && |d.lines[..n]| == n
    ensures forall l: Line :: l.id == d.lines[n].id && l.str == d.lines[n].str ==> l == d.lines[n]
  {
  }

  /** The last node so far carries line n - 1. */
  lemma EndIs(b: Buffer, d: Doc, n: nat)
    requires 0 < n <= |d.lines| && b.Holds(Begun(d, n))
    ensures |b.chain| == n && b.chain[n-1].id == d.lines[n-1].id
  {
    assert d.lines[..n][n-1] == d.lines[n-1];
  }

  lemma FirstIsEnd(b: Buffer, d: Doc)
    requires d.lines != [] && b.Holds(Begun(d, 1))
    ensures b.chain != [] && b.first == b.chain[|b.chain| - 1]
  {
  }

  lemma HasNext(ms: seq<Member>, d: Doc, x: Extra, n: nat)
    requires Describes(ms, d, x) && 0 < n <= |d.lines|
    ensures DotGet(ms, Path(LineKey(d.lines[n-1].id, "next"))).Some? <==> n < |d.lines|
  {
    assert DescribesLine(ms, d.lines, n - 1);
  }

  method ReadFirst(ms: seq<Member>, ghost d: Doc, ghost x: Extra) returns (b: Buffer)
    requires Describes(ms, d, x)
    ensures fresh(b) && fresh(b.at.Keys) && fresh(b.pens) && fresh(b.peerCurss)
    ensures d.lines != [] && b.Holds(Begun(d, 1)) && b.chain != []
    ensures b.first == b.chain[|b.chain| - 1] && b.first.id == d.lines[0].id
  {
    BegunOne(ms, d, x);
    hide *;
    var first := Num(ms, Top("first"));
    b := new Buffer.OneLine(first, Str(ms, LineKey(first, "str")), Num(ms, Top("num_lines")), Num(ms, Top("line_id_cnt")),
                            Num(ms, Top("height")), Num(ms, Top("width")));
    EndIs(b, d, 1);
    FirstIsEnd(b, d);
  }

  /** The lines after the second, read along the "next" ids until there is none. */
  method ReadRest(b: Buffer, second: LineNode, ms: seq<Member>, ghost d: Doc, ghost x: Extra) returns (lit: LineNode)
    requires Describes(ms, d, x) && |d.lines| >= 2
    requires b.Holds(Begun(d, 2)) && b.chain != [] && second == b.chain[|b.chain| - 1] && second.id == d.lines[1].id
    modifies b`chain, b`at, b.at.Keys`prev, b.at.Keys`next
    ensures b.Holds(Begun(d, |d.lines|)) && b.chain != [] && lit == b.chain[|b.chain| - 1]
    ensures fresh(b.at.Keys - old(b.at.Keys))
  {
    hide *;
    lit := second;
    ghost var n := 2;
    HasNext(ms, d, x, n);
    while DotGet(ms, Path(LineKey(lit.id, "next"))).Some?
      invariant 2 <= n <= |d.lines| && b.Holds(Begun(d, n)) && b.chain != [] && lit == b.chain[|b.chain| - 1]
      invariant lit.id == d.lines[n-1].id
      invariant DotGet(ms, Path(LineKey(lit.id, "next"))).Some? <==> n < |d.lines|
      invariant fresh(b.at.Keys - old(b.at.Keys))
      decreases |d.lines| - n
    {
      lit := ReadLine(b, lit, ms, d, x, n);
      n := n + 1;
      HasNext(ms, d, x, n);
    }
  }

  /** The chain; each line is visited once. */
  method ReadChain(ms: seq<Member>, ghost d: Doc, ghost x: Extra) returns (b: Buffer, lit: LineNode)
    requires Describes(ms, d, x) && |d.lines| >= 2
    ensures fresh(b) && fresh(b.at.Keys) && fresh(b.pens) && fresh(b.peerCurss)
    ensures b.Holds(Begun(d, |d.lines|)) && b.chain != [] && lit == b.chain[|b.chain| - 1]
  {
    hide *;
    b := ReadFirst(ms, d, x);
    lit := ReadLine(b, b.first, ms, d, x, 1);
    lit := ReadRest(b, lit, ms, d, x);
  }

  /** d but for its cursors: the own one at the start, no peers. */
  function Uncursed(d: Doc): Doc
    requires d.lines != []
  {
    d.(server := false, curs := map[0 := StartPos(d)])
  }

  lemma UncursedWF(d: Doc)
    requires WF(d)
    ensures WF(Uncursed(d)) && Begun(d, |d.lines|).(last := d.last) == Uncursed(d)
    ensures Idx(d.lines, d.last) < |d.lines| && DistinctIds(Begun(d, |d.lines|).lines)
  {
    assert d.lines[..|d.lines|] == d.lines;
    assert Idx(d.lines, d.lines[0].id) == 0;
  }

  method ReadText(ms: seq<Member>, ghost d: Doc, ghost x: Extra) returns (b: Buffer)
    requires Describes(ms, d, x) && WF(d) && |d.lines| >= 2
    ensures fresh(b) && fresh(b.at.Keys) && fresh(b.pens) && fresh(b.peerCurss)
    ensures b.Valid() && b.doc == Uncursed(d)
  {
    hide Num, DotGet, Path, DescribesLine, DescribesPeer;
    UncursedWF(d);
    var lit;
    b, lit := ReadChain(ms, d, x);
    hide WF;
    b.SetLast(lit, Num(ms, Top("last")), Begun(d, |d.lines|));
    b.Become(Uncursed(d));
  }

  // ---------------------------------------------------------------- its cursors

  /** The own cursor and the peers with ids below n. */
  function LowIds(curs: map<int, Pos>, n: int): map<int, Pos> {
    map c | c in curs && (c == 0 || c < n) :: curs[c]
  }

  function Until(d: Doc, n: int): Doc {
    d.(server := false, curs := LowIds(d.curs, n))
  }

  lemma UntilNext(d: Doc, n: int)
    requires UserIds(d) && n >= 0
    ensures n != 0 && n in d.curs ==> n !in Until(d, n).curs && Until(d, n + 1) == AddCursor(Until(d, n), n, d.curs[n])
    ensures n == 0 || n !in d.curs ==> Until(d, n + 1) == Until(d, n)
    ensures UserIds(Until(d, n))
  {
    if n != 0 && n in d.curs {
      assert LowIds(d.curs, n + 1) == LowIds(d.curs, n)[n := d.curs[n]];
    } else {
      assert LowIds(d.curs, n + 1) == LowIds(d.curs, n);
    }
  }

  lemma UntilAll(d: Doc)
    requires UserIds(d) && 0 in d.curs && d.lines != []
    ensures Until(d, MAX_CURSOR_NUM) == d.(server := false)
    ensures Until(d, 0) == AddCursor(Uncursed(d), 0, d.curs[0])
  {
    assert LowIds(d.curs, MAX_CURSOR_NUM) == d.curs;
    assert LowIds(d.curs, 0) == map[0 := d.curs[0]];
  }

  /** The cursor of id i, if there is one. */
  method ReadPeer(b: Buffer, ms: seq<Member>, i: int, ghost d: Doc)
    requires b.Valid() && b.doc == Until(d, i) && UserIds(d) && WF(d)
    requires 0 <= i < MAX_CURSOR_NUM && DescribesPeer(ms, d.curs, i)
    modifies b`doc, b`ownCurs, b`curs, b`slot, b`pens, b.peerCurss
    ensures b.Valid() && b.doc == Until(d, i + 1)
  {
    UntilNext(d, i);
    if DotGet(ms, PeerPath(i)).Some? {
      b.UsersFit();
      assert OnText(d, d.curs[i]);
      hide WF, UserIds, DotGet, Path;
      var r := b.BcursorNew(i, Num(ms, PeerKey(i, "own_line")), Num(ms, PeerKey(i, "pos")));
    }
  }

  method ReadPeers(b: Buffer, ms: seq<Member>, ghost d: Doc)
    requires b.Valid() && b.doc == Until(d, 0) && UserIds(d) && WF(d)
    requires forall c :: 0 <= c < 20 ==> DescribesPeer(ms, d.curs, c)
    modifies b`doc, b`ownCurs, b`curs, b`slot, b`pens, b.peerCurss
    ensures b.Valid() && b.doc == Until(d, MAX_CURSOR_NUM)
  {
    hide UserIds, WF, DescribesPeer;
    for i := 0 to MAX_CURSOR_NUM
      invariant b.Valid() && b.doc == Until(d, i)
    {
      ReadPeer(b, ms, i, d);
    }
  }

  lemma OwnOn(d: Doc)
    requires WF(d) && 0 in d.curs
    ensures OnText(Uncursed(d), d.curs[0])
  {
    assert OnText(d, d.curs[0]);
  }

  method ReadCursors(b: Buffer, ms: seq<Member>, ghost d: Doc, ghost x: Extra)
    requires Describes(ms, d, x) && d.lines != [] && UserIds(d) && WF(d) && b.Valid() && b.doc == Uncursed(d)
    modifies b`doc, b`ownCurs, b`curs, b`slot, b`pens, b.peerCurss
    ensures b.Valid() && b.doc == d.(server := false)
  {
    UntilAll(d);
    OwnOn(d);
    hide WF, UserIds, DescribesPeer, DescribesLine, Num;
    var r := b.BcursorNew(Num(ms, OwnKey("id")), Num(ms, OwnKey("own_line")), Num(ms, OwnKey("pos")));
    ReadPeers(b, ms, d);
  }

  /**
   buffer_deserialize: the text of any document of at least two lines, which a height of two
   or more provides, becomes a buffer that stands for that document.
   */
  method BufferDeserialize(s: string, ui: bool, ghost d: Doc, ghost x: Extra) returns (b: Buffer, y: Extra)
    requires Terminated(s) && Reads(From(s, 0), d, x)
    requires WF(d) && |d.lines| >= 2 && UserIds(d)
    ensures fresh(b) && b.Valid() && b.doc == d.(server := !ui) && y == x
  {
    hide JsonParseString, WF, Terminated, From;
    var root := ParseStringAt(s);
    var ms := root.value.members;
    y := Extra(Num(ms, Top("id")), Num(ms, Top("ver")), Num(ms, Top("top")), Num(ms, Top("bottom")));
    b := ReadText(ms, d, x);
    ReadCursors(b, ms, d, x);
    if !ui {
      b.SetServerMode(true);
    }
  }

  lemma EndsText(t: string)
    requires IsText(t)
    ensures Terminated(t + [NUL]) && From(t + [NUL], 0) == t
  {
    assert (t + [NUL])[..|t|] == t;
  }

  /** The snapshot of a buffer as a string, for whoever reads it. */
  method TakeSnapshot(b: Buffer, x: Extra) returns (t: string)
    requires b.Valid() && UserIds(b.doc) && Ints(b.doc, x)
    ensures Ascii(t) && IsText(t) && Reads(t, b.doc, x)
  {
    SnapshotIs(b, x);
    hide *;
    var buf := BufferSerialize(b, x);
    t := buf[..buf.Length - 1];
    assert t == SnapText(b.doc, x, SlotIds(b.peerCurss[..]));
  }

  lemma SnapshotIs(b: Buffer, x: Extra)
    requires b.Valid() && UserIds(b.doc) && Ints(b.doc, x)
    ensures b.doc.lines != [] && SlotsOf(b.doc, SlotIds(b.peerCurss[..]))
    ensures var t := SnapText(b.doc, x, SlotIds(b.peerCurss[..]));
            Ascii(t) && IsText(t) && Reads(t, b.doc, x)
  {
    SlotsAre(b);
    HeadNonempty(b);
    hide SnapText, Reads, Ascii;
    SnapAscii(b.doc, x, SlotIds(b.peerCurss[..]));
    SnapReads(b.doc, x, SlotIds(b.peerCurss[..]));
  }

  /** A buffer written and read again, on a client, stands for the same document, and so do its counters. */
  method Reopen(b: Buffer, x: Extra) returns (c: Buffer, y: Extra)
    requires b.Valid() && UserIds(b.doc) && Ints(b.doc, x) && |b.doc.lines| >= 2
    ensures fresh(c) && c.Valid() && c.doc == b.doc.(server := false) && y == x
  {
    ghost var d := b.doc;
    assert WF(d);
    hide *;
    var t := TakeSnapshot(b, x);
    EndsText(t);
    c, y := BufferDeserialize(t + [NUL], true, d, x);
  }
}
