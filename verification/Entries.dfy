/**
 A JSON object filled path by path, as the snapshot is: what was last set at a path is what
 the path leads to.  The paths of a snapshot are named by keys; two keys never get into each
 other's way.
 */
module Entries {
  import opened Wrappers
  import opened Numbers
  import opened JsonValue
  import opened JsonObjects
  import opened JsonPaths

  datatype Key =
    | Top(name: string)
    | LineKey(id: int, field: string)
    | OwnKey(field: string)
    | PeerKey(id: int, field: string)

  datatype Entry = Entry(key: Key, value: JSON)

  predicate Plain(s: string) {
    forall i :: 0 <= i < |s| ==> s[i] != '.'
  }

  predicate KeyOk(k: Key) {
    match k
    case Top(name) => Plain(name) && name != "lines" && name != "own_cursor" && name != "peer_curss"
    case LineKey(id, field) => id >= 0 && Plain(field)
    case OwnKey(field) => Plain(field)
    case PeerKey(id, field) => id >= 0 && Plain(field)
  }

  function Path(k: Key): string {
    match k
    case Top(name) => name
    case LineKey(id, field) => "lines" + "." + (IntText(id) + "." + field)
    case OwnKey(field) => "own_cursor" + "." + field
    case PeerKey(id, field) => "peer_curss" + "." + (IntText(id) + "." + field)
  }

  function Parts(k: Key): seq<string> {
    match k
    case Top(name) => [name]
    case LineKey(id, field) => ["lines", IntText(id), field]
    case OwnKey(field) => ["own_cursor", field]
    case PeerKey(id, field) => ["peer_curss", IntText(id), field]
  }

  // ---------------------------------------------------------------- paths and their segments

  lemma DotAfter(a: string, b: string)
    requires Plain(a)
    ensures var p := a + "." + b;
            HasDot(p) && Head(p) == a && Rest(p) == b && Segments(p) == [a] + Segments(b)
  {
    var p := a + "." + b;
    DotIs(p, |a|);
    assert p[..|a|] == a && p[|a| + 1..] == b;
  }

  lemma PlainPath(a: string)
    requires Plain(a)
    ensures !HasDot(a) && Segments(a) == [a]
  {
    HeadOnly(a);
  }

  lemma NatPlain(n: nat)
    ensures Plain(IntText(n))
  {
    var s := NatText(n);
    assert forall i :: 0 <= i < |s| ==> IsDigit(s[i]);
  }

  lemma WordsPlain()
    ensures Plain("lines") && Plain("own_cursor") && Plain("peer_curss")
    ensures "lines" != "own_cursor" && "lines" != "peer_curss" && "own_cursor" != "peer_curss"
  {
    assert |"lines"| == 5 && |"own_cursor"| == 10 && |"peer_curss"| == 10 && "own_cursor"[0] != "peer_curss"[0];
  }

  lemma KeySegments(k: Key)
    requires KeyOk(k)
    ensures Segments(Path(k)) == Parts(k)
  {
    hide Segments, IntText;
    WordsPlain();
    match k
    case Top(name) => PlainPath(name);
    case LineKey(id, field) =>
      NatPlain(id);
      DotAfter("lines", IntText(id) + "." + field);
      DotAfter(IntText(id), field);
      PlainPath(field);
    case OwnKey(field) =>
      DotAfter("own_cursor", field);
      PlainPath(field);
    case PeerKey(id, field) =>
      NatPlain(id);
      DotAfter("peer_curss", IntText(id) + "." + field);
      DotAfter(IntText(id), field);
      PlainPath(field);
  }

  lemma PartsApart(k: Key, l: Key)
    requires KeyOk(k) && KeyOk(l) && k != l
    ensures !(Parts(k) <= Parts(l))
  {
    hide IntText;
    WordsPlain();
    var a, b := Parts(k), Parts(l);
    if a <= b {
      assert a[0] == b[0] && (|a| > 1 ==> a[1] == b[1]) && (|a| > 2 ==> a[2] == b[2]);
      if k.LineKey? && l.LineKey? {
        IdsApart(k.id, l.id);
      } else if k.PeerKey? && l.PeerKey? {
        IdsApart(k.id, l.id);
      }
    }
  }

  lemma IdsApart(a: nat, b: nat)
    ensures IntText(a) == IntText(b) ==> a == b
  {
    if IntText(a) == IntText(b) {
      NatTextInjective(a, b);
    }
  }

  /** The paths of different keys are apart. */
  lemma KeysApart(k: Key, l: Key)
    requires KeyOk(k) && KeyOk(l) && k != l
    ensures Apart(Path(k), Path(l))
  {
    hide Segments, Path, Parts;
    KeySegments(k);
    KeySegments(l);
    PartsApart(k, l);
    PartsApart(l, k);
  }

  // ---------------------------------------------------------------- setting one after the other

  function SetAll(es: seq<Entry>): seq<Member> {
    if es == [] then []
    else
      var e := es[|es|-1];
      DotSet(SetAll(es[..|es|-1]), Path(e.key), e.value, false).members
  }

  /** What was last set for k. */
  function Lookup(es: seq<Entry>, k: Key): Option<JSON> {
    if es == [] then None
    else if es[|es|-1].key == k then Some(es[|es|-1].value)
    else Lookup(es[..|es|-1], k)
  }

  predicate KeysOk(es: seq<Entry>) {
    forall i :: 0 <= i < |es| ==> KeyOk(es[i].key)
  }

  lemma {:induction false} BlockedElsewhere(ms: seq<Member>, p: string, v: JSON, q: string)
    requires Apart(p, q) && !Blocked(ms, q)
    ensures !Blocked(DotSet(ms, p, v, false).members, q)
    decreases |p|
  {
    SegmentsFirst(p);
    SegmentsFirst(q);
    if HasDot(q) {
      if !HasDot(p) {
        GetPut(ms, p, v, Head(q));
        HasGet(ms, Head(q));
        HasGet(DotSet(ms, p, v, false).members, Head(q));
      } else {
        SetAt(ms, p, v, false, Head(q));
        HasGet(ms, Head(q));
        HasGet(DotSet(ms, p, v, false).members, Head(q));
        if Head(q) == Head(p) {
          ApartBelow(p, q);
          var sub := AsMembers(Get(ms, Head(q)));
          NothingBlocked(Rest(q));
          BlockedElsewhere(if sub.Some? then sub.value else [], Rest(p), v, Rest(q));
        }
      }
    }
  }

  lemma HasGet(ms: seq<Member>, name: string)
    ensures Has(ms, name) <==> Get(ms, name).Some?
  {
  }

  lemma NothingBlocked(q: string)
    ensures !Blocked([], q)
  {
  }

  /** A path that leads somewhere is not blocked. */
  lemma {:induction false} LeadsNotBlocked(ms: seq<Member>, q: string)
    requires DotGet(ms, q).Some?
    ensures !Blocked(ms, q)
    decreases |q|
  {
    if HasDot(q) {
      LeadsNotBlocked(AsMembers(Get(ms, Head(q))).value, Rest(q));
    }
  }

  lemma {:induction false} NeverBlocked(es: seq<Entry>, k: Key)
    requires KeysOk(es) && KeyOk(k)
    ensures !Blocked(SetAll(es), Path(k))
  {
    hide Blocked, DotSet, Path, KeyOk, DotGet;
    if es == [] {
      NothingBlocked(Path(k));
    } else {
      var e, rest := es[|es|-1], es[..|es|-1];
      NeverBlocked(rest, k);
      if e.key == k {
        DotSetRefused(SetAll(rest), Path(k), e.value);
        DotGetAfterSet(SetAll(rest), Path(k), e.value, false);
        LeadsNotBlocked(SetAll(es), Path(k));
      } else {
        KeysApart(e.key, k);
        BlockedElsewhere(SetAll(rest), Path(e.key), e.value, Path(k));
      }
    }
  }

  /** The path of a key leads to what was last set for it, and nowhere if nothing was. */
  lemma {:induction false} SetAllGets(es: seq<Entry>, k: Key)
    requires KeysOk(es) && KeyOk(k)
    ensures DotGet(SetAll(es), Path(k)) == Lookup(es, k)
  {
    hide Blocked, DotSet, Path, KeyOk, DotGet;
    if es == [] {
      EmptyGet(Path(k));
    } else {
      var e, rest := es[|es|-1], es[..|es|-1];
      SetAllGets(rest, k);
      if e.key == k {
        NeverBlocked(rest, k);
        DotSetRefused(SetAll(rest), Path(k), e.value);
        DotGetAfterSet(SetAll(rest), Path(k), e.value, false);
      } else {
        KeysApart(e.key, k);
        DotGetElsewhere(SetAll(rest), Path(e.key), e.value, false, Path(k));
      }
    }
  }

  lemma {:induction false} LookupConcat(a: seq<Entry>, b: seq<Entry>, k: Key)
    ensures Lookup(a + b, k) == if Lookup(b, k).Some? then Lookup(b, k) else Lookup(a, k)
  {
    if b == [] {
      assert a + b == a;
    } else {
      assert (a + b)[..|a + b| - 1] == a + b[..|b|-1];
      LookupConcat(a, b[..|b|-1], k);
    }
  }

  lemma {:induction false} LookupAbsent(es: seq<Entry>, k: Key)
    requires forall i :: 0 <= i < |es| ==> es[i].key != k
    ensures Lookup(es, k) == None
  {
    if es != [] {
      LookupAbsent(es[..|es|-1], k);
    }
  }
}
