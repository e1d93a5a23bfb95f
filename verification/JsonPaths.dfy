/**
 Dotted paths into nested objects: each segment names a member, all but the last an object.
 Setting creates the objects that are missing on the way.
 */
module JsonPaths {
  import opened Wrappers
  import opened CStrings
  import opened JsonValue
  import opened JsonObjects

  /** The place of the first dot, or |path|. */
  function Dot(path: string): (k: nat)
    ensures k <= |path| && (k < |path| ==> path[k] == '.')
    ensures forall i :: 0 <= i < k ==> path[i] != '.'
  {
    if path == "" || path[0] == '.' then 0 else 1 + Dot(path[1..])
  }

  predicate HasDot(path: string) {
    Dot(path) < |path|
  }

  function Head(path: string): string {
    path[..Dot(path)]
  }

  function Rest(path: string): (r: string)
    requires HasDot(path)
    ensures |r| < |path|
  {
    path[Dot(path) + 1..]
  }

  function Segments(path: string): (ss: seq<string>)
    ensures ss != []
    decreases |path|
  {
    if HasDot(path) then [Head(path)] + Segments(Rest(path)) else [path]
  }

  /** The members of an object; a missing value or another kind of value has none. */
  function AsMembers(v: Option<JSON>): Option<seq<Member>> {
    if v.Some? && v.value.JObj? then Some(v.value.members) else None
  }

  /** json_object_dotget_value. */
  function DotGet(ms: seq<Member>, path: string): Option<JSON>
    decreases |path|
  {
    if !HasDot(path) then Get(ms, path)
    else
      match AsMembers(Get(ms, Head(path)))
      case None => None
      case Some(sub) => DotGet(sub, Rest(path))
  }

  datatype SetResult = SetResult(ok: bool, members: seq<Member>)

  /** json_object_dotset_value; a value that already has a parent is refused at the end of the path. */
  function DotSet(ms: seq<Member>, path: string, v: JSON, parented: bool): SetResult
    decreases |path|
  {
    if !HasDot(path) then
      if parented then SetResult(false, ms) else SetResult(true, Put(ms, path, v))
    else
      var name := Head(path);
      match AsMembers(Get(ms, name))
      case Some(sub) =>
        var r := DotSet(sub, Rest(path), v, parented);
        SetResult(r.ok, Put(ms, name, JObj(r.members)))
      case None =>
        if Has(ms, name) then SetResult(false, ms)
        else
          var r := DotSet([], Rest(path), v, parented);
          SetResult(r.ok, ms + [Member(name, JObj(r.members))])
  }

  /** The path runs into a value that is no object. */
  predicate Blocked(ms: seq<Member>, path: string)
    decreases |path|
  {
    HasDot(path) && Has(ms, Head(path)) &&
    match AsMembers(Get(ms, Head(path)))
    case None => true
    case Some(sub) => Blocked(sub, Rest(path))
  }

  /** In other words, some proper part of the path leads to a value that is no object. */
  lemma {:induction false} BlockedMeans(ms: seq<Member>, path: string)
    ensures Blocked(ms, path) <==>
            exists k :: 0 <= k < |path| && path[k] == '.' && Stops(ms, path[..k])
    decreases |path|
  {
    hide Dot;
    if HasDot(path) {
      var d := Dot(path);
      HeadOnly(path[..d]);
      var v := Get(ms, Head(path));
      if AsMembers(v).Some? {
        BlockedMeans(v.value.members, Rest(path));
        forall k | d < k < |path| && path[k] == '.'
          ensures Stops(ms, path[..k]) <==> Stops(v.value.members, Rest(path)[..k-d-1]) && Rest(path)[k-d-1] == '.'
        {
          Longer(path, k);
        }
        if Blocked(ms, path) {
          var j :| 0 <= j < |Rest(path)| && Rest(path)[j] == '.' && Stops(v.value.members, Rest(path)[..j]);
          assert path[j + d + 1] == '.' && Stops(ms, path[..j + d + 1]);
        }
      } else {
        if v.Some? {
          assert Stops(ms, path[..d]);
        }
        forall k | 0 <= k < |path| && path[k] == '.' && Stops(ms, path[..k]) ensures v.Some? {
          if k > d { Longer(path, k); }
        }
      }
    }
  }

  predicate Stops(ms: seq<Member>, path: string) {
    var v := DotGet(ms, path);
    v.Some? && !v.value.JObj?
  }

  lemma {:induction false} DotIs(path: string, d: nat)
    requires d <= |path| && (forall i :: 0 <= i < d ==> path[i] != '.') && (d < |path| ==> path[d] == '.')
    ensures Dot(path) == d
  {
    if d > 0 {
      DotIs(path[1..], d - 1);
    }
  }

  lemma HeadOnly(path: string)
    requires forall i :: 0 <= i < |path| ==> path[i] != '.'
    ensures !HasDot(path)
  {
    DotIs(path, |path|);
  }

  lemma SliceParts(path: string, d: nat, k: nat)
    requires d < k <= |path|
    ensures path[..k][..d] == path[..d] && path[..k][d] == path[d] && path[..k][d+1..] == path[d+1..][..k-d-1]
  {
  }

  /** A longer part of the path has the same head. */
  lemma Longer(path: string, k: nat)
    requires HasDot(path) && Dot(path) < k < |path|
    ensures HasDot(path[..k]) && Head(path[..k]) == Head(path) && Rest(path[..k]) == Rest(path)[..k - Dot(path) - 1]
  {
    SameDot(path, k);
    SliceParts(path, Dot(path), k);
  }

  lemma SameDot(path: string, k: nat)
    requires HasDot(path) && Dot(path) < k < |path|
    ensures Dot(path[..k]) == Dot(path)
  {
    DotIs(path[..k], Dot(path));
  }

  // ---------------------------------------------------------------- what a set changes

  /** After a successful set the path leads to the value. */
  lemma {:induction false} DotGetAfterSet(ms: seq<Member>, path: string, v: JSON, parented: bool)
    requires DotSet(ms, path, v, parented).ok
    ensures DotGet(DotSet(ms, path, v, parented).members, path) == Some(v)
    decreases |path|
  {
    if !HasDot(path) {
      GetPut(ms, path, v, path);
    } else {
      var sub := AsMembers(Get(ms, Head(path)));
      var r := DotSet(if sub.Some? then sub.value else [], Rest(path), v, parented);
      DotGetAfterSet(if sub.Some? then sub.value else [], Rest(path), v, parented);
      SetAt(ms, path, v, parented, Head(path));
    }
  }

  /** One level of a set: the head's member holds what the set did below; other names are as before. */
  lemma SetAt(ms: seq<Member>, path: string, v: JSON, parented: bool, name: string)
    requires HasDot(path)
    ensures var sub := AsMembers(Get(ms, Head(path)));
            var ms' := DotSet(ms, path, v, parented).members;
            if name != Head(path) || (sub == None && Has(ms, Head(path))) then Get(ms', name) == Get(ms, name)
            else Get(ms', name) ==
                 Some(JObj(DotSet(if sub.Some? then sub.value else [], Rest(path), v, parented).members))
  {
    var h := Head(path);
    var sub := AsMembers(Get(ms, h));
    var r := DotSet(if sub.Some? then sub.value else [], Rest(path), v, parented);
    if sub.Some? {
      GetPut(ms, h, JObj(r.members), name);
    } else {
      FindSnoc(ms, Member(h, JObj(r.members)), name);
    }
  }

  /** Neither path leads into the other. */
  predicate Apart(p: string, q: string) {
    !(Segments(p) <= Segments(q)) && !(Segments(q) <= Segments(p))
  }

  lemma ApartBelow(p: string, q: string)
    requires HasDot(p) && HasDot(q) && Head(p) == Head(q) && Apart(p, q)
    ensures Apart(Rest(p), Rest(q))
  {
    var a, b := Segments(Rest(p)), Segments(Rest(q));
    assert Segments(p) == [Head(p)] + a && Segments(q) == [Head(p)] + b;
    PrefixCons(Head(p), a, b);
    PrefixCons(Head(p), b, a);
  }

  lemma PrefixCons(h: string, a: seq<string>, b: seq<string>)
    ensures a <= b ==> [h] + a <= [h] + b
  {
  }

  lemma SegmentsFirst(p: string)
    ensures Segments(p)[0] == (if HasDot(p) then Head(p) else p) && (!HasDot(p) ==> Segments(p) == [p])
  {
  }

  /** Set or refused, every path apart from the one set leads where it led before. */
  lemma {:induction false} DotGetElsewhere(ms: seq<Member>, p: string, v: JSON, parented: bool, q: string)
    requires Apart(p, q)
    ensures DotGet(DotSet(ms, p, v, parented).members, q) == DotGet(ms, q)
    decreases |p|
  {
    SegmentsFirst(p);
    SegmentsFirst(q);
    if !HasDot(p) {
      GetPut(ms, p, v, if HasDot(q) then Head(q) else q);
    } else {
      var name := if HasDot(q) then Head(q) else q;
      SetAt(ms, p, v, parented, name);
      if name == Head(p) && HasDot(q) {
        ApartBelow(p, q);
        var sub := AsMembers(Get(ms, name));
        DotGetElsewhere(if sub.Some? then sub.value else [], Rest(p), v, parented, Rest(q));
        EmptyGet(Rest(q));
      }
    }
  }

  lemma EmptyGet(q: string)
    ensures DotGet([], q) == None
  {
  }

  /** A fresh value is refused exactly when the path is blocked, and then nothing changes. */
  lemma {:induction false} DotSetRefused(ms: seq<Member>, path: string, v: JSON)
    ensures DotSet(ms, path, v, false).ok <==> !Blocked(ms, path)
    ensures Blocked(ms, path) ==> DotSet(ms, path, v, false).members == ms
    decreases |path|
  {
    if HasDot(path) {
      var sub := AsMembers(Get(ms, Head(path)));
      if sub.Some? {
        DotSetRefused(sub.value, Rest(path), v);
        PutSame(ms, Head(path));
      } else if !Has(ms, Head(path)) {
        DotSetRefused([], Rest(path), v);
        assert !Blocked([], Rest(path));
      }
    }
  }

  lemma PutSame(ms: seq<Member>, name: string)
    requires Has(ms, name)
    ensures Put(ms, name, Get(ms, name).value) == ms
  {
    var k := Find(ms, name);
    assert ms[k := Member(name, ms[k].value)] == ms;
  }

  // ---------------------------------------------------------------- objects stay well-formed

  lemma PutGood(ms: seq<Member>, name: string, v: JSON)
    requires Good(JObj(ms)) && IsText(name) && Good(v)
    ensures Good(JObj(Put(ms, name, v)))
  {
    PutDistinct(ms, name, v);
    var ms' := Put(ms, name, v);
    forall i | 0 <= i < |ms'| ensures GoodMember(ms'[i]) {
      assert i < |ms| ==> GoodMember(ms[i]);
    }
  }

  lemma PathText(path: string)
    requires IsText(path)
    ensures IsText(Head(path)) && (HasDot(path) ==> IsText(Rest(path)))
  {
  }

  /** Names stay distinct at every level, strings stay C strings. */
  lemma {:induction false} DotSetGood(ms: seq<Member>, path: string, v: JSON, parented: bool)
    requires Good(JObj(ms)) && IsText(path) && Good(v)
    ensures Good(JObj(DotSet(ms, path, v, parented).members))
    decreases |path|
  {
    if !HasDot(path) {
      PutGood(ms, path, v);
    } else {
      var h := Head(path);
      PathText(path);
      var sub := AsMembers(Get(ms, h));
      if sub.Some? {
        assert GoodMember(ms[Find(ms, h)]);
        DotSetGood(sub.value, Rest(path), v, parented);
        PutGood(ms, h, JObj(DotSet(sub.value, Rest(path), v, parented).members));
      } else if !Has(ms, h) {
        DotSetGood([], Rest(path), v, parented);
        PutGood(ms, h, JObj(DotSet([], Rest(path), v, parented).members));
      }
    }
  }
}
