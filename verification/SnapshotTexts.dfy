/** The text of a snapshot: it is ASCII, it reads back, and it survives as a message payload. */
module SnapshotTexts {
  import opened Wrappers
  import opened CStrings
  import opened Numbers
  import opened Document
  import opened JsonValue
  import opened JsonObjects
  import opened JsonPaths
  import opened JsonPrint
  import opened JsonParse
  import opened RoundTrip
  import opened Entries
  import opened AsciiTexts
  import opened Snapshots
  import opened Messages

  // ---------------------------------------------------------------- values that print and read back

  ghost predicate Fine(v: JSON, n: nat) {
    Good(v) && FitsAt(v, n) && AsciiJson(v)
  }

  ghost predicate Atom(v: JSON) {
    !v.JArr? && !v.JObj? && Good(v) && AsciiJson(v)
  }

  lemma AsciiIsText(s: string)
    requires Ascii(s)
    ensures IsText(s)
  {
  }

  lemma FineMembers(ms: seq<Member>, n: nat)
    ensures Fine(JObj(ms), n) <==>
            n <= MAX_NESTING && DistinctNames(ms) &&
            forall i :: 0 <= i < |ms| ==> Ascii(ms[i].name) && Fine(ms[i].value, n + 1)
  {
    hide DistinctNames;
    if n <= MAX_NESTING && DistinctNames(ms) && forall i :: 0 <= i < |ms| ==> Ascii(ms[i].name) && Fine(ms[i].value, n + 1) {
      forall i | 0 <= i < |ms| ensures GoodMember(ms[i]) {
        AsciiIsText(ms[i].name);
        assert Fine(ms[i].value, n + 1);
      }
      assert forall i :: 0 <= i < |ms| ==> Fine(ms[i].value, n + 1);
    } else if Fine(JObj(ms), n) {
      forall i | 0 <= i < |ms| ensures Fine(ms[i].value, n + 1) {
        assert GoodMember(ms[i]);
      }
    }
  }

  lemma PutFine(ms: seq<Member>, name: string, v: JSON, n: nat)
    requires Fine(JObj(ms), n) && Ascii(name) && Fine(v, n + 1)
    ensures Fine(JObj(Put(ms, name, v)), n)
  {
    hide Fine, DistinctNames;
    FineMembers(ms, n);
    PutDistinct(ms, name, v);
    FineMembers(Put(ms, name, v), n);
  }

  lemma SubFine(ms: seq<Member>, name: string, n: nat)
    requires Fine(JObj(ms), n) && AsMembers(Get(ms, name)).Some?
    ensures Fine(JObj(AsMembers(Get(ms, name)).value), n + 1)
  {
    hide Fine, DistinctNames;
    FineMembers(ms, n);
  }

  lemma AsciiParts(path: string)
    requires Ascii(path)
    ensures Ascii(Head(path)) && (HasDot(path) ==> Ascii(Rest(path)))
  {
  }

  lemma NothingFine(n: nat)
    requires n <= MAX_NESTING
    ensures Fine(JObj([]), n)
  {
    DistinctNamesMeans([]);
  }

  lemma AtomFine(v: JSON, n: nat)
    requires Atom(v) && n <= MAX_NESTING
    ensures Fine(v, n)
  {
  }

  lemma {:induction false} DotSetFine(ms: seq<Member>, path: string, v: JSON, n: nat)
    requires Fine(JObj(ms), n) && Ascii(path) && Atom(v) && n + |Segments(path)| <= MAX_NESTING
    ensures Fine(JObj(DotSet(ms, path, v, false).members), n)
    decreases |path|
  {
    hide Fine, Atom, Ascii, Put, Get, Head, Rest;
    AsciiParts(path);
    if !HasDot(path) {
      AtomFine(v, n + 1);
      PutFine(ms, path, v, n);
    } else {
      var h := Head(path);
      var sub := AsMembers(Get(ms, h));
      if sub.Some? {
        SubFine(ms, h, n);
        DotSetFine(sub.value, Rest(path), v, n + 1);
        PutFine(ms, h, JObj(DotSet(sub.value, Rest(path), v, false).members), n);
      } else if !Has(ms, h) {
        NothingFine(n + 1);
        DotSetFine([], Rest(path), v, n + 1);
        PutFine(ms, h, JObj(DotSet([], Rest(path), v, false).members), n);
        PutAbsent(ms, h, JObj(DotSet([], Rest(path), v, false).members));
      }
    }
  }

  lemma PutAbsent(ms: seq<Member>, name: string, v: JSON)
    requires !Has(ms, name)
    ensures Put(ms, name, v) == ms + [Member(name, v)]
  {
  }

  // ---------------------------------------------------------------- the entries of a snapshot

  ghost predicate EntryFine(e: Entry) {
    KeyOk(e.key) && Ascii(Path(e.key)) && Atom(e.value)
  }

  ghost predicate EntriesFine(es: seq<Entry>) {
    forall i :: 0 <= i < |es| ==> EntryFine(es[i])
  }

  lemma {:induction false} SetAllFine(es: seq<Entry>)
    requires EntriesFine(es)
    ensures Fine(JObj(SetAll(es)), 0)
  {
    hide Fine, DotSet, Path, KeyOk, Atom, Ascii, Segments;
    if es == [] {
      NothingFine(0);
    } else {
      var e := es[|es|-1];
      assert EntryFine(e);
      SetAllFine(es[..|es|-1]);
      KeySegments(e.key);
      DotSetFine(SetAll(es[..|es|-1]), Path(e.key), e.value, 0);
    }
  }

  /** The numbers of a snapshot are C ints. */
  ghost predicate Ints(d: Doc, x: Extra) {
    && IsInt(x.id) && IsInt(x.ver) && IsInt(x.top) && IsInt(x.bottom)
    && IsInt(d.numLines) && IsInt(d.idCnt) && IsInt(d.height) && IsInt(d.width) && IsInt(d.last)
    && (forall i :: 0 <= i < |d.lines| ==> IsInt(d.lines[i].id))
    && (forall c :: c in d.curs ==> IsInt(d.curs[c].line) && IsInt(d.curs[c].col))
  }

  lemma IdPath(a: string, id: int, field: string)
    requires Ascii(a) && Ascii(field)
    ensures Ascii(a + "." + (IntText(id) + "." + field))
  {
    UptoInt(id, 128);
    UptoJoin3(IntText(id), ".", field, 128);
    UptoJoin3(a, ".", IntText(id) + "." + field, 128);
  }

  lemma FieldFine(k: Key, v: JSON)
    requires KeyOk(k) && Atom(v)
    requires match k
             case Top(name) => Ascii(name)
             case LineKey(_, f) => Ascii(f)
             case OwnKey(f) => Ascii(f)
             case PeerKey(_, f) => Ascii(f)
    ensures EntryFine(Entry(k, v))
  {
    hide IntText, Atom, KeyOk;
    match k
    case Top(name) =>
    case LineKey(id, field) => IdPath("lines", id, field);
    case OwnKey(field) => UptoJoin3("own_cursor", ".", field, 128);
    case PeerKey(id, field) => IdPath("peer_curss", id, field);
  }

  lemma StrAtom(s: string)
    requires TypedString(s)
    ensures Atom(JStr(s))
  {
  }

  lemma HeadFine(d: Doc, x: Extra)
    requires d.lines != [] && Ints(d, x)
    ensures EntriesFine(HeadEntries(d, x))
  {
    HeadKeysOk(d, x);
    var es: seq<Entry> := HeadEntries(d, x);
    forall i | 0 <= i < |es| ensures EntryFine(es[i]) {
      assert es[i] == Entry(es[i].key, es[i].value);
      FieldFine(es[i].key, es[i].value);
    }
  }

  lemma FinesJoin(a: seq<Entry>, b: seq<Entry>)
    requires EntriesFine(a) && EntriesFine(b)
    ensures EntriesFine(a + b)
  {
  }

  lemma OneFine(e: Entry)
    requires EntryFine(e)
    ensures EntriesFine([e])
  {
  }

  lemma NoneFine()
    ensures EntriesFine([])
  {
  }

  lemma LineFine(ls: seq<Line>, i: nat)
    requires i < |ls| && TypedString(ls[i].str) && forall j :: 0 <= j < |ls| ==> ls[j].id >= 0 && IsInt(ls[j].id)
    ensures EntriesFine(LineEntries(ls, i))
  {
    hide EntryFine, EntriesFine, TypedString;
    var k, p, s := LineKey(ls[i].id, "next"), LineKey(ls[i].id, "prev"), LineKey(ls[i].id, "str");
    FieldsPlain();
    NoneFine();
    if i + 1 < |ls| {
      FieldFine(k, JNum(ls[i+1].id));
      OneFine(Entry(k, JNum(ls[i+1].id)));
    }
    if i > 0 {
      FieldFine(p, JNum(ls[i-1].id));
      OneFine(Entry(p, JNum(ls[i-1].id)));
    }
    StrAtom(ls[i].str);
    FieldFine(s, JStr(ls[i].str));
    OneFine(Entry(s, JStr(ls[i].str)));
    var a := if i + 1 < |ls| then [Entry(k, JNum(ls[i+1].id))] else [];
    var b := if i > 0 then [Entry(p, JNum(ls[i-1].id))] else [];
    FinesJoin(a, b);
    FinesJoin(a + b, [Entry(s, JStr(ls[i].str))]);
  }

  lemma {:induction false} LinesFine(ls: seq<Line>, n: nat)
    requires n <= |ls|
    requires forall j :: 0 <= j < |ls| ==> ls[j].id >= 0 && IsInt(ls[j].id) && TypedString(ls[j].str)
    ensures EntriesFine(AllLines(ls, n))
  {
    hide TypedString, EntryFine;
    if n > 0 {
      LinesFine(ls, n - 1);
      LineFine(ls, n - 1);
      FinesJoin(AllLines(ls, n - 1), LineEntries(ls, n - 1));
    }
  }

  lemma OwnFine(p: Pos)
    requires IsInt(p.line) && IsInt(p.col)
    ensures EntriesFine(OwnEntries(p))
  {
    FieldsPlain();
    FieldFine(OwnKey("id"), JNum(0));
    FieldFine(OwnKey("own_line"), JNum(p.line));
    FieldFine(OwnKey("pos"), JNum(p.col));
  }

  lemma PeerFine(curs: map<int, Pos>, c: int)
    requires c in curs && c >= 0 && IsInt(curs[c].line) && IsInt(curs[c].col)
    ensures EntriesFine(PeerPair(curs, c))
  {
    FieldsPlain();
    FieldFine(PeerKey(c, "own_line"), JNum(curs[c].line));
    FieldFine(PeerKey(c, "pos"), JNum(curs[c].col));
  }

  lemma {:induction false} PeersFine(curs: map<int, Pos>, slots: seq<int>)
    requires forall i :: 0 <= i < |slots| ==> slots[i] in curs && slots[i] >= 0
    requires forall c :: c in curs ==> IsInt(curs[c].line) && IsInt(curs[c].col)
    ensures EntriesFine(PeerEntries(curs, slots))
  {
    hide EntryFine;
    if slots != [] {
      PeersFine(curs, slots[..|slots|-1]);
      PeerFine(curs, slots[|slots|-1]);
      FinesJoin(PeerEntries(curs, slots[..|slots|-1]), PeerPair(curs, slots[|slots|-1]));
    }
  }

  lemma SnapFine(d: Doc, x: Extra, slots: seq<int>)
    requires WF(d) && SlotsOf(d, slots) && Ints(d, x)
    ensures Fine(JObj(SetAll(SnapEntries(d, x, slots))), 0)
  {
    assert forall i :: 0 <= i < |d.lines| ==> LineOk(d.lines[i], d.idCnt);
    var a, b, o, e := HeadEntries(d, x), AllLines(d.lines, |d.lines|), OwnEntries(d.curs[0]), PeerEntries(d.curs, slots);
    hide HeadEntries, AllLines, OwnEntries, PeerEntries, EntriesFine, Fine;
    HeadFine(d, x);
    LinesFine(d.lines, |d.lines|);
    OwnFine(d.curs[0]);
    PeersFine(d.curs, slots);
    FinesJoin(a, b);
    FinesJoin(a + b, o);
    FinesJoin(a + b + o, e);
    SetAllFine(SnapEntries(d, x, slots));
  }

  // ---------------------------------------------------------------- the text

  /** buffer_serialize: the text of a document, its peers in the order of their slots. */
  ghost function SnapText(d: Doc, x: Extra, slots: seq<int>): string
    requires d.lines != [] && SlotsOf(d, slots)
  {
    Text(JObj(SetAll(SnapEntries(d, x, slots))), 0, false)
  }

  /** t reads as an object that describes d. */
  ghost predicate Reads(t: string, d: Doc, x: Extra) {
    var r := JsonParseString(t);
    r.Read? && r.value.JObj? && Describes(r.value.members, d, x)
  }

  /** The text of a snapshot reads as the document it was taken of. */
  lemma SnapReads(d: Doc, x: Extra, slots: seq<int>)
    requires WF(d) && SlotsOf(d, slots) && Ints(d, x)
    ensures Reads(SnapText(d, x, slots), d, x)
  {
    hide Text, JsonParseString, Good, FitsAt, AsciiJson, SetAll, SnapEntries, Describes;
    SnapFine(d, x, slots);
    SnapDescribes(d, x, slots);
    PrintThenParse(JObj(SetAll(SnapEntries(d, x, slots))), false);
  }

  lemma SnapAscii(d: Doc, x: Extra, slots: seq<int>)
    requires WF(d) && SlotsOf(d, slots) && Ints(d, x)
    ensures Ascii(SnapText(d, x, slots)) && IsText(SnapText(d, x, slots))
  {
    hide Text, AsciiJson, Good, FitsAt, SetAll, SnapEntries;
    SnapFine(d, x, slots);
    AsciiText(JObj(SetAll(SnapEntries(d, x, slots))), 0, false);
    AsciiIsText(SnapText(d, x, slots));
  }

  /** Carried in a message it arrives unchanged, and still reads as that document. */
  lemma SnapTravels(d: Doc, x: Extra, slots: seq<int>, m: WireMsg)
    requires WF(d) && SlotsOf(d, slots) && Ints(d, x)
    requires m.payload == Some(SnapText(d, x, slots)) && Sendable(m.(payload := None))
    ensures ReadMsg(MsgText(m)) == Arrived(m) && Reads(m.payload.value, d, x)
  {
    hide Text, JsonParseString, ReadMsg, MsgText, Good, FitsAt, AsciiJson, SetAll, SnapEntries, Describes, Reads;
    SnapFine(d, x, slots);
    NestedArrives(JObj(SetAll(SnapEntries(d, x, slots))), m);
    SnapReads(d, x, slots);
  }

  // ---------------------------------------------------------------- a description is unique

  /** What is described by one object is one document, but for the server flag. */
  lemma DescribesOne(ms: seq<Member>, d: Doc, x: Extra, e: Doc, y: Extra)
    requires Describes(ms, d, x) && Describes(ms, e, y)
    requires forall c :: c in d.curs ==> 0 <= c < 20
    requires forall c :: c in e.curs ==> 0 <= c < 20
    ensures d.(server := false) == e.(server := false) && x == y
  {
    hide Path, DotGet, Num;
    LinesOne(ms, d.lines, e.lines, 0);
    assert d.lines == e.lines;
    forall c | c in d.curs || c in e.curs ensures c in d.curs && c in e.curs && d.curs[c] == e.curs[c] {
      if c != 0 {
        assert DescribesPeer(ms, d.curs, c) && DescribesPeer(ms, e.curs, c);
      }
    }
    assert d.curs == e.curs;
  }

  lemma {:induction false} LinesOne(ms: seq<Member>, a: seq<Line>, b: seq<Line>, i: nat)
    requires i < |a| && i < |b| && a[i].id == b[i].id
    requires forall j :: 0 <= j < |a| ==> DescribesLine(ms, a, j)
    requires forall j :: 0 <= j < |b| ==> DescribesLine(ms, b, j)
    ensures a[i..] == b[i..]
    decreases |a| - i
  {
    hide Path, DotGet;
    assert DescribesLine(ms, a, i) && DescribesLine(ms, b, i);
    assert a[i] == b[i];
    if i + 1 < |a| {
      LinesOne(ms, a, b, i + 1);
      assert a[i..] == [a[i]] + a[i+1..] && b[i..] == [b[i]] + b[i+1..];
    }
  }
}
