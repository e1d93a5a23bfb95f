/**
 A buffer as JSON: its counters, every line of the chain under "lines.ID", the own cursor and
 each peer under "peer_curss.ID".  The walk along the "next" ids finds the lines again.
 */
module Snapshots {
  import opened Wrappers
  import opened Numbers
  import opened Document
  import opened JsonValue
  import opened JsonPaths
  import opened Entries

  /** The parts of a buffer that are no part of its document. */
  datatype Extra = Extra(id: int, ver: int, top: int, bottom: int)

  function HeadEntries(d: Doc, x: Extra): seq<Entry>
    requires d.lines != []
  {
    [Entry(Top("id"), JNum(x.id)), Entry(Top("ver"), JNum(x.ver)),
     Entry(Top("num_lines"), JNum(d.numLines)), Entry(Top("line_id_cnt"), JNum(d.idCnt)),
     Entry(Top("height"), JNum(d.height)), Entry(Top("width"), JNum(d.width)),
     Entry(Top("first"), JNum(d.lines[0].id)), Entry(Top("last"), JNum(d.last)),
     Entry(Top("top"), JNum(x.top)), Entry(Top("bottom"), JNum(x.bottom))]
  }

  function LineEntries(ls: seq<Line>, i: nat): seq<Entry>
    requires i < |ls|
  {
    (if i + 1 < |ls| then [Entry(LineKey(ls[i].id, "next"), JNum(ls[i+1].id))] else [])
    + (if i > 0 then [Entry(LineKey(ls[i].id, "prev"), JNum(ls[i-1].id))] else [])
    + [Entry(LineKey(ls[i].id, "str"), JStr(ls[i].str))]
  }

  function AllLines(ls: seq<Line>, n: nat): seq<Entry>
    requires n <= |ls|
  {
    if n == 0 then [] else AllLines(ls, n - 1) + LineEntries(ls, n - 1)
  }

  function OwnEntries(p: Pos): seq<Entry> {
    [Entry(OwnKey("id"), JNum(0)), Entry(OwnKey("own_line"), JNum(p.line)), Entry(OwnKey("pos"), JNum(p.col))]
  }

  /** The peers in the order of their slots. */
  function PeerEntries(curs: map<int, Pos>, slots: seq<int>): seq<Entry>
    requires forall i :: 0 <= i < |slots| ==> slots[i] in curs
  {
    if slots == [] then []
    else
      var c := slots[|slots|-1];
      PeerEntries(curs, slots[..|slots|-1]) + PeerPair(curs, c)
  }

  /** slots lists the peers of d. */
  ghost predicate SlotsOf(d: Doc, slots: seq<int>) {
    && 0 in d.curs
    && (forall i :: 0 <= i < |slots| ==> slots[i] in d.curs && 1 <= slots[i] < 20)
    && (forall c :: c in d.curs && c != 0 ==> c in slots)
  }

  ghost function SnapEntries(d: Doc, x: Extra, slots: seq<int>): seq<Entry>
    requires d.lines != [] && SlotsOf(d, slots)
  {
    HeadEntries(d, x) + AllLines(d.lines, |d.lines|) + OwnEntries(d.curs[0]) + PeerEntries(d.curs, slots)
  }

  // ---------------------------------------------------------------- what reading finds

  /** A number that is missing, or something else, reads as 0. */
  function Num(ms: seq<Member>, k: Key): (n: int)
    ensures var v := DotGet(ms, Path(k)); if v.Some? && v.value.JNum? then v.value == JNum(n) else n == 0
  {
    match DotGet(ms, Path(k))
    case Some(JNum(n)) => n
    case _ => 0
  }

  function PeerPath(c: int): string {
    "peer_curss" + "." + IntText(c)
  }

  /** Reading ms by its paths gives the lines of ls, linked by their next ids. */
  ghost predicate DescribesLine(ms: seq<Member>, ls: seq<Line>, i: nat)
    requires i < |ls|
  {
    && DotGet(ms, Path(LineKey(ls[i].id, "next"))) == (if i + 1 < |ls| then Some(JNum(ls[i+1].id)) else None)
    && DotGet(ms, Path(LineKey(ls[i].id, "str"))) == Some(JStr(ls[i].str))
  }

  /** The link back, which is written but not read. */
  ghost predicate LinkedBack(ms: seq<Member>, ls: seq<Line>, i: nat)
    requires i < |ls|
  {
    DotGet(ms, Path(LineKey(ls[i].id, "prev"))) == if i > 0 then Some(JNum(ls[i-1].id)) else None
  }

  ghost predicate DescribesPeer(ms: seq<Member>, curs: map<int, Pos>, c: int) {
    && (DotGet(ms, PeerPath(c)).Some? <==> c in curs && c != 0)
    && (c in curs && c != 0 ==> Num(ms, PeerKey(c, "own_line")) == curs[c].line && Num(ms, PeerKey(c, "pos")) == curs[c].col)
  }

  ghost predicate DescribesHead(ms: seq<Member>, d: Doc, x: Extra) {
    && d.lines != [] && 0 in d.curs
    && Num(ms, Top("id")) == x.id && Num(ms, Top("ver")) == x.ver
    && Num(ms, Top("num_lines")) == d.numLines && Num(ms, Top("line_id_cnt")) == d.idCnt
    && Num(ms, Top("height")) == d.height && Num(ms, Top("width")) == d.width
    && Num(ms, Top("first")) == d.lines[0].id && Num(ms, Top("last")) == d.last
    && Num(ms, Top("top")) == x.top && Num(ms, Top("bottom")) == x.bottom
    && Num(ms, OwnKey("id")) == 0
    && Num(ms, OwnKey("own_line")) == d.curs[0].line && Num(ms, OwnKey("pos")) == d.curs[0].col
  }

  ghost predicate Describes(ms: seq<Member>, d: Doc, x: Extra) {
    && DescribesHead(ms, d, x)
    && (forall i :: 0 <= i < |d.lines| ==> DescribesLine(ms, d.lines, i))
    && (forall c :: 0 <= c < 20 ==> DescribesPeer(ms, d.curs, c))
  }

  // ---------------------------------------------------------------- entries looked up

  lemma {:induction false} LookupAt(es: seq<Entry>, k: Key, i: nat)
    requires i < |es| && es[i].key == k && forall j :: i < j < |es| ==> es[j].key != k
    ensures Lookup(es, k) == Some(es[i].value)
  {
    if i + 1 < |es| {
      LookupAt(es[..|es|-1], k, i);
    }
  }

  lemma HeadNames()
    ensures "id" != "ver" && "ver" != "top" && "height" != "bottom" && "width" != "first"
    ensures |"id"| == 2 && |"ver"| == 3 && |"num_lines"| == 9 && |"line_id_cnt"| == 11 && |"height"| == 6
    ensures |"width"| == 5 && |"first"| == 5 && |"last"| == 4 && |"top"| == 3 && |"bottom"| == 6
  {
    assert "ver"[0] == 'v' && "top"[0] == 't' && "height"[0] == 'h' && "bottom"[0] == 'b';
    assert "width"[0] == 'w' && "first"[0] == 'f';
  }

  lemma HeadLookup(d: Doc, x: Extra, i: nat)
    requires d.lines != [] && i < 10
    ensures var es: seq<Entry> := HeadEntries(d, x);
            Lookup(es, es[i].key) == Some(es[i].value)
  {
    HeadNames();
    var es: seq<Entry> := HeadEntries(d, x);
    LookupAt(es, es[i].key, i);
  }

  lemma {:induction false} LinesAbsent(ls: seq<Line>, n: nat, k: Key)
    requires n <= |ls| && (k.LineKey? ==> forall i :: 0 <= i < n ==> ls[i].id != k.id)
    ensures Lookup(AllLines(ls, n), k) == None
  {
    if n > 0 {
      LinesAbsent(ls, n - 1, k);
      LookupAbsent(LineEntries(ls, n - 1), k);
      LookupConcat(AllLines(ls, n - 1), LineEntries(ls, n - 1), k);
    }
  }

  lemma OwnLine(ls: seq<Line>, i: nat)
    requires i < |ls|
    ensures Lookup(LineEntries(ls, i), LineKey(ls[i].id, "next")) ==
            if i + 1 < |ls| then Some(JNum(ls[i+1].id)) else None
    ensures Lookup(LineEntries(ls, i), LineKey(ls[i].id, "prev")) == if i > 0 then Some(JNum(ls[i-1].id)) else None
    ensures Lookup(LineEntries(ls, i), LineKey(ls[i].id, "str")) == Some(JStr(ls[i].str))
  {
    var es: seq<Entry> := LineEntries(ls, i);
    assert "next"[0] == 'n' && "prev"[0] == 'p' && "str"[0] == 's';
    LookupAt(es, LineKey(ls[i].id, "str"), |es| - 1);
    if i + 1 < |ls| {
      LookupAt(es, LineKey(ls[i].id, "next"), 0);
    } else {
      LookupAbsent(es, LineKey(ls[i].id, "next"));
    }
    if i > 0 {
      LookupAt(es, LineKey(ls[i].id, "prev"), |es| - 2);
    } else {
      LookupAbsent(es, LineKey(ls[i].id, "prev"));
    }
  }

  /** What is found for a field of a line is what the entries of that line say. */
  lemma {:induction false} LinesLookup(ls: seq<Line>, n: nat, i: nat, field: string)
    requires DistinctIds(ls) && i < n <= |ls|
    ensures var k := LineKey(ls[i].id, field);
            Lookup(AllLines(ls, n), k) == Lookup(LineEntries(ls, i), k)
  {
    var a, b, k := AllLines(ls, n - 1), LineEntries(ls, n - 1), LineKey(ls[i].id, field);
    LookupConcat(a, b, k);
    DistinctIdsMeans(ls);
    if i == n - 1 {
      LinesAbsent(ls, n - 1, k);
    } else {
      LinesLookup(ls, n - 1, i, field);
      LookupAbsent(b, k);
    }
  }

  function PeerPair(curs: map<int, Pos>, c: int): seq<Entry>
    requires c in curs
  {
    [Entry(PeerKey(c, "own_line"), JNum(curs[c].line)), Entry(PeerKey(c, "pos"), JNum(curs[c].col))]
  }

  lemma {:induction false} PeersAbsent(curs: map<int, Pos>, slots: seq<int>, k: Key)
    requires (forall i :: 0 <= i < |slots| ==> slots[i] in curs) && (k.PeerKey? ==> k.id !in slots)
    ensures Lookup(PeerEntries(curs, slots), k) == None
  {
    if slots != [] {
      var c := slots[|slots|-1];
      PeersAbsent(curs, slots[..|slots|-1], k);
      LookupAbsent(PeerPair(curs, c), k);
      LookupConcat(PeerEntries(curs, slots[..|slots|-1]), PeerPair(curs, c), k);
    }
  }

  lemma {:induction false} PeersLookup(curs: map<int, Pos>, slots: seq<int>, c: int)
    requires (forall i :: 0 <= i < |slots| ==> slots[i] in curs) && c in slots
    ensures Lookup(PeerEntries(curs, slots), PeerKey(c, "own_line")) == Some(JNum(curs[c].line))
    ensures Lookup(PeerEntries(curs, slots), PeerKey(c, "pos")) == Some(JNum(curs[c].col))
  {
    var last := slots[|slots|-1];
    var a, b := PeerEntries(curs, slots[..|slots|-1]), PeerPair(curs, last);
    var k, p := PeerKey(c, "own_line"), PeerKey(c, "pos");
    assert |"own_line"| == 8 && |"pos"| == 3;
    LookupConcat(a, b, k);
    LookupConcat(a, b, p);
    if c == last {
      LookupAt(b, k, 0);
      LookupAt(b, p, 1);
    } else {
      LookupAbsent(b, k);
      LookupAbsent(b, p);
      assert c in slots[..|slots|-1];
      PeersLookup(curs, slots[..|slots|-1], c);
    }
  }

  // ---------------------------------------------------------------- the snapshot read back

  /** The part of the entries a key belongs to decides what is found for it. */
  lemma SnapLookup(d: Doc, x: Extra, slots: seq<int>, k: Key)
    requires d.lines != [] && SlotsOf(d, slots)
    ensures Lookup(SnapEntries(d, x, slots), k) ==
            match k
            case Top(_) => Lookup(HeadEntries(d, x), k)
            case LineKey(_, _) => Lookup(AllLines(d.lines, |d.lines|), k)
            case OwnKey(_) => Lookup(OwnEntries(d.curs[0]), k)
            case PeerKey(_, _) => Lookup(PeerEntries(d.curs, slots), k)
  {
    var a, b, c, e := HeadEntries(d, x), AllLines(d.lines, |d.lines|), OwnEntries(d.curs[0]), PeerEntries(d.curs, slots);
    LookupConcat(a, b, k);
    LookupConcat(a + b, c, k);
    LookupConcat(a + b + c, e, k);
    hide AllLines, PeerEntries;
    if !k.Top? {
      LookupAbsent(a, k);
    }
    if !k.LineKey? {
      LinesAbsent(d.lines, |d.lines|, k);
    }
    if !k.OwnKey? {
      LookupAbsent(c, k);
    }
    if !k.PeerKey? {
      PeersAbsent(d.curs, slots, k);
    }
  }

  lemma {:induction false} LinesKeysOk(ls: seq<Line>, n: nat)
    requires n <= |ls| && forall i :: 0 <= i < |ls| ==> ls[i].id >= 0
    ensures KeysOk(AllLines(ls, n))
  {
    if n > 0 {
      LinesKeysOk(ls, n - 1);
      FieldsPlain();
      assert KeysOk(LineEntries(ls, n - 1));
    }
  }

  lemma FieldsPlain()
    ensures Plain("next") && Plain("prev") && Plain("str") && Plain("own_line") && Plain("pos") && Plain("id")
  {
  }

  lemma {:induction false} PeersKeysOk(curs: map<int, Pos>, slots: seq<int>)
    requires forall i :: 0 <= i < |slots| ==> slots[i] in curs && slots[i] >= 0
    ensures KeysOk(PeerEntries(curs, slots))
  {
    if slots != [] {
      PeersKeysOk(curs, slots[..|slots|-1]);
      FieldsPlain();
      assert KeysOk(PeerPair(curs, slots[|slots|-1]));
    }
  }

  lemma HeadKeysOk(d: Doc, x: Extra)
    requires d.lines != []
    ensures KeysOk(HeadEntries(d, x))
  {
    HeadNames();
    assert |"lines"| == 5 && "lines"[0] == 'l' && |"own_cursor"| == 10 && |"peer_curss"| == 10;
    assert "width"[0] == 'w' && "first"[0] == 'f';
  }

  lemma SnapKeysOk(d: Doc, x: Extra, slots: seq<int>)
    requires d.lines != [] && SlotsOf(d, slots) && forall i :: 0 <= i < |d.lines| ==> d.lines[i].id >= 0
    ensures KeysOk(SnapEntries(d, x, slots))
  {
    hide AllLines, PeerEntries, HeadEntries, KeyOk;
    HeadKeysOk(d, x);
    LinesKeysOk(d.lines, |d.lines|);
    OwnKeysOk(d.curs[0]);
    PeersKeysOk(d.curs, slots);
  }

  lemma OwnKeysOk(p: Pos)
    ensures KeysOk(OwnEntries(p))
  {
    FieldsPlain();
  }

  /** What the entries of a snapshot say is what reading it by its paths finds. */
  lemma SnapGets(d: Doc, x: Extra, slots: seq<int>, k: Key)
    requires d.lines != [] && SlotsOf(d, slots) && KeysOk(SnapEntries(d, x, slots)) && KeyOk(k)
    ensures DotGet(SetAll(SnapEntries(d, x, slots)), Path(k)) ==
            match k
            case Top(_) => Lookup(HeadEntries(d, x), k)
            case LineKey(_, _) => Lookup(AllLines(d.lines, |d.lines|), k)
            case OwnKey(_) => Lookup(OwnEntries(d.curs[0]), k)
            case PeerKey(_, _) => Lookup(PeerEntries(d.curs, slots), k)
  {
    hide *;
    SetAllGets(SnapEntries(d, x, slots), k);
    SnapLookup(d, x, slots, k);
  }

  lemma SnapTops(d: Doc, x: Extra, slots: seq<int>, i: nat)
    requires d.lines != [] && SlotsOf(d, slots) && KeysOk(SnapEntries(d, x, slots)) && i < 10
    ensures var hs: seq<Entry> := HeadEntries(d, x);
            DotGet(SetAll(SnapEntries(d, x, slots)), Path(hs[i].key)) == Some(hs[i].value)
  {
    var hs: seq<Entry> := HeadEntries(d, x);
    assert hs[i].key.Top? && |hs| == 10;
    HeadKeysOk(d, x);
    HeadLookup(d, x, i);
    hide SetAll, SnapEntries, DotGet, Path, KeyOk, Lookup, HeadEntries;
    SnapGets(d, x, slots, hs[i].key);
  }

  lemma SnapOwn(d: Doc, x: Extra, slots: seq<int>, i: nat)
    requires d.lines != [] && SlotsOf(d, slots) && KeysOk(SnapEntries(d, x, slots)) && i < 3
    ensures var os: seq<Entry> := OwnEntries(d.curs[0]);
            DotGet(SetAll(SnapEntries(d, x, slots)), Path(os[i].key)) == Some(os[i].value)
  {
    var os: seq<Entry> := OwnEntries(d.curs[0]);
    OwnFields();
    OwnKeysOk(d.curs[0]);
    hide SetAll, SnapEntries, DotGet, Path, KeyOk;
    LookupAt(os, os[i].key, i);
    SnapGets(d, x, slots, os[i].key);
  }

  lemma SnapHead(d: Doc, x: Extra, slots: seq<int>)
    requires d.lines != [] && SlotsOf(d, slots) && KeysOk(SnapEntries(d, x, slots))
    ensures DescribesHead(SetAll(SnapEntries(d, x, slots)), d, x)
  {
    var es := SnapEntries(d, x, slots);
    hide SetAll, SnapEntries, DotGet, Path, KeyOk, Lookup, HeadEntries, OwnEntries;
    forall i | 0 <= i < 10
      ensures var hs: seq<Entry> := HeadEntries(d, x);
              DotGet(SetAll(es), Path(hs[i].key)) == Some(hs[i].value)
    {
      SnapTops(d, x, slots, i);
    }
    HeadPaths(SetAll(es), d, x);
    SnapOwn(d, x, slots, 0);
    SnapOwn(d, x, slots, 1);
    SnapOwn(d, x, slots, 2);
    OwnPaths(SetAll(es), d.curs[0]);
  }

  lemma OwnPaths(ms: seq<Member>, p: Pos)
    requires var os: seq<Entry> := OwnEntries(p);
             DotGet(ms, Path(os[0].key)) == Some(os[0].value) && DotGet(ms, Path(os[1].key)) == Some(os[1].value)
             && DotGet(ms, Path(os[2].key)) == Some(os[2].value)
    ensures Num(ms, OwnKey("id")) == 0 && Num(ms, OwnKey("own_line")) == p.line && Num(ms, OwnKey("pos")) == p.col
  {
    hide DotGet, Path;
  }

  lemma OwnFields()
    ensures "id" != "own_line" && "id" != "pos" && "own_line" != "pos"
  {
    assert |"id"| == 2 && |"own_line"| == 8 && |"pos"| == 3;
  }

  lemma HeadPaths(ms: seq<Member>, d: Doc, x: Extra)
    requires d.lines != []
    requires var hs: seq<Entry> := HeadEntries(d, x);
             forall i :: 0 <= i < 10 ==> DotGet(ms, Path(hs[i].key)) == Some(hs[i].value)
    ensures Num(ms, Top("id")) == x.id && Num(ms, Top("ver")) == x.ver
    ensures Num(ms, Top("num_lines")) == d.numLines && Num(ms, Top("line_id_cnt")) == d.idCnt
    ensures Num(ms, Top("height")) == d.height && Num(ms, Top("width")) == d.width
    ensures Num(ms, Top("first")) == d.lines[0].id && Num(ms, Top("last")) == d.last
    ensures Num(ms, Top("top")) == x.top && Num(ms, Top("bottom")) == x.bottom
  {
    hide DotGet, Path;
    var hs: seq<Entry> := HeadEntries(d, x);
    assert hs[0].key == Top("id") && hs[1].key == Top("ver") && hs[2].key == Top("num_lines");
    assert hs[3].key == Top("line_id_cnt") && hs[4].key == Top("height") && hs[5].key == Top("width");
    assert hs[6].key == Top("first") && hs[7].key == Top("last") && hs[8].key == Top("top") && hs[9].key == Top("bottom");
  }

  lemma SnapLine(d: Doc, x: Extra, slots: seq<int>, i: nat)
    requires i < |d.lines| && DistinctIds(d.lines) && d.lines[i].id >= 0
    requires SlotsOf(d, slots) && KeysOk(SnapEntries(d, x, slots))
    ensures DescribesLine(SetAll(SnapEntries(d, x, slots)), d.lines, i)
    ensures LinkedBack(SetAll(SnapEntries(d, x, slots)), d.lines, i)
  {
    var k, p, s := LineKey(d.lines[i].id, "next"), LineKey(d.lines[i].id, "prev"), LineKey(d.lines[i].id, "str");
    FieldsPlain();
    hide SetAll, SnapEntries, DotGet, Path, LineEntries, AllLines, Lookup;
    SnapGets(d, x, slots, k);
    SnapGets(d, x, slots, p);
    SnapGets(d, x, slots, s);
    LinesLookup(d.lines, |d.lines|, i, "next");
    LinesLookup(d.lines, |d.lines|, i, "prev");
    LinesLookup(d.lines, |d.lines|, i, "str");
    OwnLine(d.lines, i);
  }

  // ---------------------------------------------------------------- peers present and absent

  lemma {:induction false} SetAllElsewhere(es: seq<Entry>, q: string)
    requires forall i :: 0 <= i < |es| ==> Apart(Path(es[i].key), q)
    ensures DotGet(SetAll(es), q) == None
  {
    hide DotSet, Path, DotGet, Apart;
    if es == [] {
      EmptyGet(q);
    } else {
      SetAllElsewhere(es[..|es|-1], q);
      var e := es[|es|-1];
      DotGetElsewhere(SetAll(es[..|es|-1]), Path(e.key), e.value, false, q);
    }
  }

  lemma PeerPathSegments(c: nat)
    ensures Segments(PeerPath(c)) == ["peer_curss", IntText(c)]
  {
    hide Segments, IntText;
    WordsPlain();
    NatPlain(c);
    DotAfter("peer_curss", IntText(c));
    PlainPath(IntText(c));
  }

  lemma PrefixStarts(a: seq<string>, b: seq<string>)
    requires a != []
    ensures a <= b ==> b != [] && a[0] == b[0]
    ensures a <= b && |a| > 1 ==> |b| > 1 && a[1] == b[1]
  {
  }

  lemma PeerPartsApart(k: Key, c: nat)
    requires KeyOk(k) && (k.PeerKey? ==> k.id != c)
    ensures var a, b := Parts(k), ["peer_curss", IntText(c)];
            !(a <= b) && !(b <= a)
  {
    hide IntText;
    WordsPlain();
    var a, b := Parts(k), ["peer_curss", IntText(c)];
    PrefixStarts(a, b);
    PrefixStarts(b, a);
    if k.PeerKey? {
      IdsApart(k.id, c);
    }
  }

  lemma PeerPathApart(k: Key, c: nat)
    requires KeyOk(k) && (k.PeerKey? ==> k.id != c)
    ensures Apart(Path(k), PeerPath(c))
  {
    hide Segments, Path, IntText, PeerPath, Parts;
    KeySegments(k);
    PeerPathSegments(c);
    PeerPartsApart(k, c);
  }

  /** A path that leads somewhere passes through an object. */
  lemma PrefixLeads(ms: seq<Member>, a: string, b: string, c: string)
    requires Plain(a) && Plain(b) && Plain(c) && DotGet(ms, a + "." + (b + "." + c)).Some?
    ensures DotGet(ms, a + "." + b).Some?
  {
    DotAfter(a, b + "." + c);
    DotAfter(a, b);
    var sub := AsMembers(Get(ms, a)).value;
    assert DotGet(sub, b + "." + c).Some?;
    DotAfter(b, c);
    PlainPath(b);
  }

  lemma PeerPathLeads(ms: seq<Member>, c: nat, field: string)
    requires Plain(field) && DotGet(ms, Path(PeerKey(c, field))).Some?
    ensures DotGet(ms, PeerPath(c)).Some?
  {
    hide IntText, DotGet, Plain;
    WordsPlain();
    NatPlain(c);
    PrefixLeads(ms, "peer_curss", IntText(c), field);
  }

  /** No entry is one of peer c. */
  ghost predicate WithoutPeer(es: seq<Entry>, c: int) {
    forall j :: 0 <= j < |es| ==> es[j].key.PeerKey? ==> es[j].key.id != c
  }

  lemma WithoutPeerJoin(a: seq<Entry>, b: seq<Entry>, c: int)
    requires WithoutPeer(a, c) && WithoutPeer(b, c)
    ensures WithoutPeer(a + b, c)
  {
  }

  lemma {:induction false} PeersWithout(curs: map<int, Pos>, slots: seq<int>, c: int)
    requires (forall i :: 0 <= i < |slots| ==> slots[i] in curs) && c !in slots
    ensures WithoutPeer(PeerEntries(curs, slots), c)
  {
    if slots != [] {
      PeersWithout(curs, slots[..|slots|-1], c);
      WithoutPeerJoin(PeerEntries(curs, slots[..|slots|-1]), PeerPair(curs, slots[|slots|-1]), c);
    }
  }

  lemma {:induction false} LinesWithout(ls: seq<Line>, n: nat, c: int)
    requires n <= |ls|
    ensures WithoutPeer(AllLines(ls, n), c)
  {
    if n > 0 {
      LinesWithout(ls, n - 1, c);
      WithoutPeerJoin(AllLines(ls, n - 1), LineEntries(ls, n - 1), c);
    }
  }

  lemma SnapWithout(d: Doc, x: Extra, slots: seq<int>, c: int)
    requires d.lines != [] && SlotsOf(d, slots) && c !in slots
    ensures WithoutPeer(SnapEntries(d, x, slots), c)
  {
    var a, b, o, e := HeadEntries(d, x), AllLines(d.lines, |d.lines|), OwnEntries(d.curs[0]), PeerEntries(d.curs, slots);
    assert WithoutPeer(a, c) && WithoutPeer(o, c);
    hide WithoutPeer, AllLines, HeadEntries, OwnEntries, PeerEntries;
    PeersWithout(d.curs, slots, c);
    LinesWithout(d.lines, |d.lines|, c);
    WithoutPeerJoin(a, b, c);
    WithoutPeerJoin(a + b, o, c);
    WithoutPeerJoin(a + b + o, e, c);
  }

  lemma PeerFound(d: Doc, x: Extra, slots: seq<int>, c: int)
    requires d.lines != [] && SlotsOf(d, slots) && KeysOk(SnapEntries(d, x, slots)) && c in slots
    ensures var ms := SetAll(SnapEntries(d, x, slots));
            && c in d.curs && c >= 1
            && DotGet(ms, Path(PeerKey(c, "own_line"))) == Some(JNum(d.curs[c].line))
            && DotGet(ms, Path(PeerKey(c, "pos"))) == Some(JNum(d.curs[c].col))
  {
    FieldsPlain();
    assert c in d.curs && c >= 1 && KeyOk(PeerKey(c, "own_line")) && KeyOk(PeerKey(c, "pos"));
    SlotsInCurs(d, slots);
    hide *;
    PeersLookup(d.curs, slots, c);
    SnapGets(d, x, slots, PeerKey(c, "own_line"));
    SnapGets(d, x, slots, PeerKey(c, "pos"));
  }

  lemma SlotsInCurs(d: Doc, slots: seq<int>)
    requires SlotsOf(d, slots)
    ensures forall i :: 0 <= i < |slots| ==> slots[i] in d.curs
  {
  }

  lemma PeerDescribed(ms: seq<Member>, curs: map<int, Pos>, c: int)
    requires c in curs && c >= 1
    requires DotGet(ms, Path(PeerKey(c, "own_line"))) == Some(JNum(curs[c].line))
    requires DotGet(ms, Path(PeerKey(c, "pos"))) == Some(JNum(curs[c].col))
    ensures DescribesPeer(ms, curs, c)
  {
    FieldsPlain();
    hide DotGet, Path, PeerPath;
    PeerPathLeads(ms, c, "own_line");
  }

  lemma NoPeerFound(d: Doc, x: Extra, slots: seq<int>, c: nat)
    requires d.lines != [] && SlotsOf(d, slots) && KeysOk(SnapEntries(d, x, slots)) && c !in slots
    ensures DotGet(SetAll(SnapEntries(d, x, slots)), PeerPath(c)) == None
  {
    var es: seq<Entry> := SnapEntries(d, x, slots);
    SnapWithout(d, x, slots, c);
    hide SetAll, SnapEntries, DotGet, Path, PeerPath, Apart, KeyOk, SlotsOf;
    forall i | 0 <= i < |es| ensures Apart(Path(es[i].key), PeerPath(c)) {
      PeerPathApart(es[i].key, c);
    }
    SetAllElsewhere(es, PeerPath(c));
  }

  lemma SnapPeer(d: Doc, x: Extra, slots: seq<int>, c: nat)
    requires d.lines != [] && SlotsOf(d, slots) && KeysOk(SnapEntries(d, x, slots)) && c < 20
    ensures DescribesPeer(SetAll(SnapEntries(d, x, slots)), d.curs, c)
  {
    assert c in slots <==> c in d.curs && c != 0;
    hide SetAll, SnapEntries, DotGet, Path, PeerPath, SlotsOf, KeysOk;
    if c in slots {
      PeerFound(d, x, slots, c);
      PeerDescribed(SetAll(SnapEntries(d, x, slots)), d.curs, c);
    } else {
      NoPeerFound(d, x, slots, c);
    }
  }

  /** The snapshot describes the document it was taken of. */
  lemma SnapDescribes(d: Doc, x: Extra, slots: seq<int>)
    requires WF(d) && SlotsOf(d, slots)
    ensures Describes(SetAll(SnapEntries(d, x, slots)), d, x)
    ensures forall i :: 0 <= i < |d.lines| ==> LinkedBack(SetAll(SnapEntries(d, x, slots)), d.lines, i)
  {
    var ls := d.lines;
    assert forall i :: 0 <= i < |ls| ==> LineOk(ls[i], d.idCnt);
    SnapKeysOk(d, x, slots);
    hide SetAll, SnapEntries, DescribesHead, DescribesLine, DescribesPeer, LinkedBack, LineOk, KeysOk;
    SnapHead(d, x, slots);
    forall i | 0 <= i < |ls|
      ensures DescribesLine(SetAll(SnapEntries(d, x, slots)), ls, i) && LinkedBack(SetAll(SnapEntries(d, x, slots)), ls, i)
    {
      SnapLine(d, x, slots, i);
    }
    forall c | 0 <= c < 20 ensures DescribesPeer(SetAll(SnapEntries(d, x, slots)), d.curs, c) {
      SnapPeer(d, x, slots, c);
    }
  }
}
