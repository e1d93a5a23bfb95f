/**
 Comparing and copying values.  Two values are equal exactly when they are the same tree with
 every object read as a map from names to values.
 */
module JsonEquality {
  import opened Wrappers
  import opened JsonValue
  import opened JsonObjects

  /** What json_value_equals computes: an object's members are looked up in both by a's names. */
  predicate Equals(a: JSON, b: JSON)
    decreases a
  {
    match a
    case JNull => b.JNull?
    case JBool(x) => b.JBool? && x == b.b
    case JNum(n) => b.JNum? && n == b.n
    case JStr(s) => b.JStr? && s == b.s
    case JArr(xs) =>
      b.JArr? && |xs| == |b.items| && forall i :: 0 <= i < |xs| ==> Equals(xs[i], b.items[i])
    case JObj(ms) =>
      b.JObj? && |ms| == |b.members| && forall i :: 0 <= i < |ms| ==> SameMember(ms[i], b.members)
  }

  predicate SameMember(m: Member, others: seq<Member>)
    decreases m
  {
    var k := Find(others, m.name);
    k < |others| && Equals(m.value, others[k].value)
  }

  // ---------------------------------------------------------------- values as trees of maps

  datatype Tree = Leaf(v: JSON) | List(items: seq<Tree>) | Table(entries: map<string, Tree>)

  function Names(ms: seq<Member>): set<string> {
    set i | 0 <= i < |ms| :: ms[i].name
  }

  function AsTree(v: JSON): Tree
    decreases v
  {
    match v
    case JArr(xs) => List(seq(|xs|, i requires 0 <= i < |xs| => AsTree(xs[i])))
    case JObj(ms) =>
      Table(map name | name in Names(ms) && Find(ms, name) < |ms| :: AsTree(ms[Find(ms, name)].value))
    case _ => Leaf(v)
  }

  lemma NameFound(ms: seq<Member>, name: string)
    ensures name in Names(ms) <==> Has(ms, name)
  {
    if name in Names(ms) {
      var i :| 0 <= i < |ms| && ms[i].name == name;
      FindFirst(ms, name, i);
    }
  }

  lemma {:induction false} NamesCount(ms: seq<Member>)
    requires forall i, j :: 0 <= i < j < |ms| ==> ms[i].name != ms[j].name
    ensures |Names(ms)| == |ms|
  {
    if ms != [] {
      var rest := ms[..|ms|-1];
      NamesCount(rest);
      assert Names(ms) == Names(rest) + {ms[|ms|-1].name} by {
        forall name | name in Names(ms) ensures name in Names(rest) + {ms[|ms|-1].name} {
          var i :| 0 <= i < |ms| && ms[i].name == name;
          assert i < |rest| ==> rest[i].name == name;
        }
        forall name | name in Names(rest) ensures name in Names(ms) {
          var i :| 0 <= i < |rest| && rest[i].name == name;
          assert ms[i].name == name;
        }
      }
      assert ms[|ms|-1].name !in Names(rest);
    }
  }

  /** As many names and each of them among the others: the same names. */
  lemma SubsetSame(a: set<string>, b: set<string>)
    requires a <= b && |a| == |b|
    ensures a == b
  {
    assert |b - a| == |b| - |a|;
    assert b - a == {};
  }

  ghost predicate Distinct(v: JSON) {
    match v
    case JArr(xs) => forall i :: 0 <= i < |xs| ==> Distinct(xs[i])
    case JObj(ms) => DistinctNames(ms) && forall i :: 0 <= i < |ms| ==> Distinct(ms[i].value)
    case _ => true
  }

  lemma SameNames(a: seq<Member>, b: seq<Member>)
    requires DistinctNames(a) && DistinctNames(b) && |a| == |b|
    requires forall i :: 0 <= i < |a| ==> Has(b, a[i].name)
    ensures Names(a) == Names(b)
  {
    DistinctNamesMeans(a);
    DistinctNamesMeans(b);
    NamesCount(a);
    NamesCount(b);
    forall name | name in Names(a) ensures name in Names(b) {
      NameFound(b, name);
    }
    SubsetSame(Names(a), Names(b));
  }

  lemma TreeAt(ms: seq<Member>, i: nat)
    requires DistinctNames(ms) && i < |ms|
    ensures ms[i].name in AsTree(JObj(ms)).entries && AsTree(JObj(ms)).entries[ms[i].name] == AsTree(ms[i].value)
  {
    NameFound(ms, ms[i].name);
    assert Find(ms, ms[i].name) == i;
  }

  lemma TreeNames(ms: seq<Member>)
    ensures AsTree(JObj(ms)).entries.Keys == Names(ms)
  {
    forall name | name in Names(ms) ensures name in AsTree(JObj(ms)).entries {
      NameFound(ms, name);
    }
  }

  /** Equality of values is equality of their trees. */
  lemma {:induction false} EqualsIsTree(a: JSON, b: JSON)
    requires Distinct(a) && Distinct(b)
    ensures Equals(a, b) <==> AsTree(a) == AsTree(b)
    decreases a
  {
    if a.JArr? && b.JArr? {
      ListsEqual(a, b);
    } else if a.JObj? && b.JObj? {
      ObjectsEqual(a, b);
    }
  }

  lemma {:induction false} ListsEqual(a: JSON, b: JSON)
    requires Distinct(a) && Distinct(b) && a.JArr? && b.JArr?
    ensures Equals(a, b) <==> AsTree(a) == AsTree(b)
    decreases a, 0
  {
    var s, t := AsTree(a).items, AsTree(b).items;
    if |s| == |t| {
      forall i | 0 <= i < |s| ensures Equals(a.items[i], b.items[i]) <==> s[i] == t[i] {
        EqualsIsTree(a.items[i], b.items[i]);
      }
    }
    assert Equals(a, b) ==> s == t;
  }

  predicate AgreeAt(name: string, s: map<string, Tree>, t: map<string, Tree>) {
    name in s && name in t && s[name] == t[name]
  }

  /** As many members, and the same tree at each of ms's names: the same map. */
  lemma TablesEqual(ms: seq<Member>, ns: seq<Member>)
    requires DistinctNames(ms) && DistinctNames(ns)
    ensures var s, t := AsTree(JObj(ms)).entries, AsTree(JObj(ns)).entries;
            s == t <==> |ms| == |ns| && forall i :: 0 <= i < |ms| ==> AgreeAt(ms[i].name, s, t)
  {
    hide AsTree;
    TreeIsTable(ms);
    TreeIsTable(ns);
    var s, t := AsTree(JObj(ms)).entries, AsTree(JObj(ns)).entries;
    TreeNames(ms);
    TreeNames(ns);
    if |ms| == |ns| && forall i :: 0 <= i < |ms| ==> AgreeAt(ms[i].name, s, t) {
      forall i | 0 <= i < |ms| ensures Has(ns, ms[i].name) {
        assert AgreeAt(ms[i].name, s, t);
        NameFound(ns, ms[i].name);
      }
      SameNames(ms, ns);
      forall name | name in s ensures s[name] == t[name] {
        NameFound(ms, name);
        assert AgreeAt(ms[Find(ms, name)].name, s, t);
      }
      assert s == t;
    }
    if s == t {
      DistinctNamesMeans(ms);
      DistinctNamesMeans(ns);
      NamesCount(ms);
      NamesCount(ns);
      forall i | 0 <= i < |ms| ensures AgreeAt(ms[i].name, s, t) {
        TreeAt(ms, i);
      }
    }
  }

  lemma {:induction false} ObjectsEqual(a: JSON, b: JSON)
    requires Distinct(a) && Distinct(b) && a.JObj? && b.JObj?
    ensures Equals(a, b) <==> AsTree(a) == AsTree(b)
    decreases a, 0
  {
    var ms, ns := a.members, b.members;
    var s, t := AsTree(a).entries, AsTree(b).entries;
    TablesEqual(ms, ns);
    forall i | 0 <= i < |ms| ensures SameMember(ms[i], ns) <==> AgreeAt(ms[i].name, s, t) {
      MemberEqual(a, b, i);
    }
    hide AgreeAt, SameMember, AsTree;
    assert a == JObj(ms) && b == JObj(ns);
    TreeIsTable(ms);
    TreeIsTable(ns);
  }

  lemma TreeIsTable(ms: seq<Member>)
    ensures AsTree(JObj(ms)).Table?
  {
  }

  lemma {:induction false} MemberEqual(a: JSON, b: JSON, i: nat)
    requires Distinct(a) && Distinct(b) && a.JObj? && b.JObj? && i < |a.members|
    ensures SameMember(a.members[i], b.members) <==>
            AgreeAt(a.members[i].name, AsTree(a).entries, AsTree(b).entries)
    decreases a, 0, 0
  {
    var ms, ns := a.members, b.members;
    var k := Find(ns, ms[i].name);
    TreeAt(ms, i);
    TreeNames(ns);
    NameFound(ns, ms[i].name);
    if k < |ns| {
      TreeAt(ns, k);
      EqualsIsTree(ms[i].value, ns[k].value);
    }
  }

  /** So it is an equivalence relation. */
  lemma EqualsEquivalence(a: JSON, b: JSON, c: JSON)
    requires Distinct(a) && Distinct(b) && Distinct(c)
    ensures Equals(a, a)
    ensures Equals(a, b) <==> Equals(b, a)
    ensures Equals(a, b) && Equals(b, c) ==> Equals(a, c)
  {
    hide Equals, AsTree, Distinct;
    EqualsIsTree(a, a);
    EqualsIsTree(a, b);
    EqualsIsTree(b, a);
    EqualsIsTree(b, c);
    EqualsIsTree(a, c);
  }

  // ---------------------------------------------------------------- the code

  /** json_value_equals. */
  method ValueEquals(a: JSON, b: JSON) returns (same: bool)
    requires Distinct(a)
    ensures same == Equals(a, b)
    decreases a, 1
  {
    match (a, b)
    case (JNull, JNull) => return true;
    case (JBool(x), JBool(y)) => return x == y;
    case (JNum(x), JNum(y)) => return x == y;
    case (JStr(x), JStr(y)) => return x == y;
    case (JArr(_), JArr(_)) => same := ArrayEquals(a, b);
    case (JObj(_), JObj(_)) => same := ObjectEquals(a, b);
    case _ => return false;
  }

  method ArrayEquals(a: JSON, b: JSON) returns (same: bool)
    requires Distinct(a) && a.JArr? && b.JArr?
    ensures same == Equals(a, b)
    decreases a, 0
  {
    if |a.items| != |b.items| {
      return false;
    }
    for i := 0 to |a.items|
      invariant forall j :: 0 <= j < i ==> Equals(a.items[j], b.items[j])
    {
      var equal := ValueEquals(a.items[i], b.items[i]);
      if !equal {
        return false;
      }
    }
    return true;
  }

  method ObjectEquals(a: JSON, b: JSON) returns (same: bool)
    requires Distinct(a) && a.JObj? && b.JObj?
    ensures same == Equals(a, b)
    decreases a, 0
  {
    if |a.members| != |b.members| {
      return false;
    }
    for i := 0 to |a.members|
      invariant forall j :: 0 <= j < i ==> SameMember(a.members[j], b.members)
    {
      var key := a.members[i].name;
      var mine, theirs := Find(a.members, key), Find(b.members, key);
      assert mine == i;
      if theirs == |b.members| {
        assert !SameMember(a.members[i], b.members);
        return false;
      }
      var equal := ValueEquals(a.members[mine].value, b.members[theirs].value);
      if !equal {
        assert !SameMember(a.members[i], b.members);
        return false;
      }
    }
    return true;
  }

  /** json_value_deep_copy: the copy of a value with distinct names is that value. */
  method DeepCopy(v: JSON) returns (r: Option<JSON>)
    requires Distinct(v)
    ensures r == Some(v)
    decreases v, 1
  {
    match v
    case JArr(_) => r := CopyArray(v);
    case JObj(_) => r := CopyObject(v);
    case _ => return Some(v);
  }

  method CopyArray(v: JSON) returns (r: Option<JSON>)
    requires Distinct(v) && v.JArr?
    ensures r == Some(v)
    decreases v, 0
  {
    var items := [];
    for i := 0 to |v.items|
      invariant items == v.items[..i]
    {
      var item := DeepCopy(v.items[i]);
      if item == None {
        return None;
      }
      items := items + [item.value];
    }
    assert v.items[..|v.items|] == v.items;
    return Some(JArr(items));
  }

  method CopyObject(v: JSON) returns (r: Option<JSON>)
    requires Distinct(v) && v.JObj?
    ensures r == Some(v)
    decreases v, 0
  {
    var o := new JsonObject();
    for i := 0 to |v.members|
      invariant fresh(o) && o.Valid() && o.Contents() == v.members[..i]
      invariant (o.names != null ==> fresh(o.names)) && (o.values != null ==> fresh(o.values))
    {
      var key := v.members[i].name;
      assert Find(v.members, key) == i;
      var value := DeepCopy(v.members[Find(v.members, key)].value);
      if value == None {
        return None;
      }
      NotYet(v.members, i);
      var added := o.Add(key, value.value);
      if !added {
        return None;
      }
    }
    assert v.members[..|v.members|] == v.members;
    return Some(JObj(o.Contents()));
  }

  lemma NotYet(ms: seq<Member>, i: nat)
    requires DistinctNames(ms) && i < |ms|
    ensures !Has(ms[..i], ms[i].name)
  {
    DistinctNamesMeans(ms);
    FindNone(ms[..i], ms[i].name);
  }
}
