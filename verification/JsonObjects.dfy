/**
 Objects under construction: parallel arrays of names and values that grow by doubling.  The
 members in order are Contents(); the functions on member lists are what the methods do to it.
 */
module JsonObjects {
  import opened Wrappers
  import opened JsonValue

  const STARTING_CAPACITY := 16

  // ---------------------------------------------------------------- member lists

  /** The value of a name replaced, or a new member at the end. */
  function Put(ms: seq<Member>, name: string, v: JSON): seq<Member> {
    var k := Find(ms, name);
    if k < |ms| then ms[k := Member(name, v)] else ms + [Member(name, v)]
  }

  /** The member at k gone, the last one in its place. */
  function SwapOut(ms: seq<Member>, k: nat): seq<Member>
    requires k < |ms|
  {
    var last := |ms| - 1;
    if k == last then ms[..last] else ms[..last][k := ms[last]]
  }

  lemma FindIs(ms: seq<Member>, name: string, k: nat)
    requires k < |ms| && ms[k].name == name
    requires forall i :: 0 <= i < k ==> ms[i].name != name
    ensures Find(ms, name) == k
  {
    FindFirst(ms, name, k);
  }

  lemma FindNone(ms: seq<Member>, name: string)
    requires forall i :: 0 <= i < |ms| ==> ms[i].name != name
    ensures Find(ms, name) == |ms|
  {
  }

  lemma NotNamed(ms: seq<Member>, name: string, i: nat)
    requires DistinctNames(ms) && i < |ms| && Find(ms, name) != i
    ensures ms[i].name != name
  {
    assert Find(ms, ms[i].name) == i;
  }

  function Zip(ns: seq<string>, vs: seq<JSON>): (ms: seq<Member>)
    requires |ns| == |vs|
    ensures |ms| == |ns|
  {
    seq(|ns|, i requires 0 <= i < |ns| => Member(ns[i], vs[i]))
  }

  lemma {:induction false} FindPut(ms: seq<Member>, k: nat, v: JSON, name: string)
    requires k < |ms|
    ensures Find(ms[k := Member(ms[k].name, v)], name) == Find(ms, name)
  {
    var ms' := ms[k := Member(ms[k].name, v)];
    if ms[0].name != name {
      if k > 0 {
        assert ms'[1..] == ms[1..][k-1 := Member(ms[k].name, v)];
        FindPut(ms[1..], k - 1, v, name);
      } else {
        assert ms'[1..] == ms[1..];
      }
    }
  }

  lemma PutDistinct(ms: seq<Member>, name: string, v: JSON)
    requires DistinctNames(ms)
    ensures DistinctNames(Put(ms, name, v))
  {
    var ms' := Put(ms, name, v);
    if Has(ms, name) {
      var k := Find(ms, name);
      forall i | 0 <= i < |ms'| ensures Find(ms', ms'[i].name) == i {
        assert ms'[i].name == ms[i].name;
        FindPut(ms, k, v, ms[i].name);
      }
    } else {
      SnocDistinct(ms, Member(name, v));
    }
  }

  /** The name now has the value; every other name is as before. */
  lemma GetPut(ms: seq<Member>, name: string, v: JSON, other: string)
    ensures Get(Put(ms, name, v), other) == if other == name then Some(v) else Get(ms, other)
  {
    if Has(ms, name) {
      FindPut(ms, Find(ms, name), v, other);
    } else {
      FindSnoc(ms, Member(name, v), other);
    }
  }

  lemma SwapOutAt(ms: seq<Member>, k: nat, i: nat)
    requires k < |ms| && i < |ms| - 1
    ensures |SwapOut(ms, k)| == |ms| - 1 && SwapOut(ms, k)[i] == if i == k then ms[|ms|-1] else ms[i]
  {
  }

  lemma SwapOutDistinct(ms: seq<Member>, k: nat)
    requires DistinctNames(ms) && k < |ms|
    ensures DistinctNames(SwapOut(ms, k))
  {
    var ms' := SwapOut(ms, k);
    DistinctNamesMeans(ms);
    DistinctNamesMeans(ms');
    forall i, j | 0 <= i < j < |ms'| ensures ms'[i].name != ms'[j].name {
      SwapOutAt(ms, k, i);
      SwapOutAt(ms, k, j);
    }
  }

  /** The name is gone; every other name is as before. */
  lemma GetSwapOut(ms: seq<Member>, k: nat, other: string)
    requires DistinctNames(ms) && k < |ms|
    ensures Get(SwapOut(ms, k), other) == if other == ms[k].name then None else Get(ms, other)
  {
    var ms' := SwapOut(ms, k);
    SwapOutDistinct(ms, k);
    var j := Find(ms, other);
    if j < |ms| && j != k {
      var i := if j == |ms| - 1 then k else j;
      SwapOutAt(ms, k, i);
      assert Find(ms', ms'[i].name) == i;
    } else {
      forall i | 0 <= i < |ms'| ensures ms'[i].name != other {
        SwapOutAt(ms, k, i);
        DistinctNamesMeans(ms);
        NotNamed(ms, other, if i == k then |ms| - 1 else i);
      }
      FindNone(ms', other);
    }
  }

  // ---------------------------------------------------------------- the growable object

  class JsonObject {
    var names: array?<string>
    var values: array?<JSON>
    var count: nat
    var capacity: nat

    ghost predicate Valid()
      reads this, names, values
    {
      && (names == null <==> values == null)
      && (names == null ==> capacity == 0)
      && (names != null ==> names.Length == values.Length == capacity)
      && count <= capacity
      && DistinctNames(Contents())
    }

    /** The members in order. */
    function Contents(): (ms: seq<Member>)
      requires (names == null <==> values == null) && (names == null ==> count == 0)
      requires names != null ==> count <= names.Length == values.Length
      reads this, names, values
      ensures |ms| == count
    {
      if names == null then [] else Zip(names[..count], values[..count])
    }

    constructor ()
      ensures Valid() && Contents() == [] && names == null && values == null
    {
      names, values, count, capacity := null, null, 0, 0;
    }

    /** The value of the member named by the first n characters of name. */
    method NgetValue(name: string, n: nat) returns (r: Option<JSON>)
      requires Valid() && n <= |name|
      ensures r == Get(Contents(), name[..n])
    {
      ghost var ms := Contents();
      for i := 0 to count
        invariant forall j :: 0 <= j < i ==> ms[j].name != name[..n]
      {
        if |names[i]| != n {
          continue;
        }
        if names[i] == name[..n] {
          FindIs(ms, name[..n], i);
          return Some(values[i]);
        }
      }
      FindNone(ms, name[..n]);
      return None;
    }

    method GetValue(name: string) returns (r: Option<JSON>)
      requires Valid()
      ensures r == Get(Contents(), name)
    {
      assert name[..|name|] == name;
      r := NgetValue(name, |name|);
    }

    /** New arrays of the given capacity; the members stay.  Capacity 0 is refused. */
    method Resize(newCapacity: nat) returns (ok: bool)
      requires Valid() && (newCapacity > 0 ==> count <= newCapacity)
      modifies this
      ensures Valid() && Contents() == old(Contents()) && ok == (newCapacity > 0)
      ensures ok ==> capacity == newCapacity && fresh(names) && fresh(values)
      ensures !ok ==> unchanged(this)
    {
      if newCapacity == 0 {
        return false;
      }
      var tempNames, tempValues := new string[newCapacity], new JSON[newCapacity](_ => JNull);
      if names != null && values != null && count > 0 {
        for i := 0 to count
          invariant unchanged(this) && names != null && values != null && Valid()
          invariant tempNames[..i] == names[..i] && tempValues[..i] == values[..i]
        {
          tempNames[i] := names[i];
          tempValues[i] := values[i];
        }
      }
      names, values, capacity := tempNames, tempValues, newCapacity;
      return true;
    }

    /** A new member at the end, unless the name is taken. */
    method Add(name: string, value: JSON) returns (ok: bool)
      requires Valid()
      modifies this, names, values
      ensures Valid() && ok == !Has(old(Contents()), name)
      ensures Contents() == if ok then old(Contents()) + [Member(name, value)] else old(Contents())
      ensures (fresh(names) || names == old(names)) && (fresh(values) || values == old(values))
    {
      var present := GetValue(name);
      if present != None {
        return false;
      }
      if count >= capacity {
        var resized := Resize(if capacity * 2 > STARTING_CAPACITY then capacity * 2 else STARTING_CAPACITY);
      }
      Append(name, value);
      return true;
    }

    method Append(name: string, value: JSON)
      requires Valid() && count < capacity && !Has(Contents(), name)
      modifies this`count, names, values
      ensures Valid() && Contents() == old(Contents()) + [Member(name, value)]
    {
      ghost var ms := Contents();
      SnocDistinct(ms, Member(name, value));
      names[count] := name;
      values[count] := value;
      count := count + 1;
      assert Contents() == ms + [Member(name, value)];
    }

    /** json_object_set_value: refused for a value that already has a parent. */
    method SetValue(name: string, value: JSON, parented: bool) returns (ok: bool)
      requires Valid()
      modifies this, names, values
      ensures Valid() && ok == !parented
      ensures Contents() == if ok then Put(old(Contents()), name, value) else old(Contents())
      ensures (fresh(names) || names == old(names)) && (fresh(values) || values == old(values))
    {
      if parented {
        return false;
      }
      var oldValue := GetValue(name);
      if oldValue != None {
        Overwrite(name, value);
        return true;
      }
      ok := Add(name, value);
    }

    method Overwrite(name: string, value: JSON)
      requires Valid() && Has(Contents(), name)
      modifies values
      ensures Valid() && Contents() == Put(old(Contents()), name, value)
    {
      ghost var ms := Contents();
      for i := 0 to count
        invariant Contents() == ms && forall j :: 0 <= j < i ==> ms[j].name != name
      {
        if names[i] == name {
          FindIs(ms, name, i);
          PutDistinct(ms, name, value);
          values[i] := value;
          assert Contents() == ms[i := Member(name, value)];
          return;
        }
      }
      FindNone(ms, name);
    }

    /** The member goes, the last one takes its place. */
    method Remove(name: string) returns (ok: bool)
      requires Valid()
      modifies this`count, names, values
      ensures Valid() && ok == Has(old(Contents()), name)
      ensures Contents() == if ok then SwapOut(old(Contents()), Find(old(Contents()), name)) else old(Contents())
    {
      hide Find;
      ghost var ms := Contents();
      var present := GetValue(name);
      if present == None {
        return false;
      }
      var last := count - 1;
      for i := 0 to count
        invariant Contents() == ms && forall j :: 0 <= j < i ==> ms[j].name != name
        invariant count == |ms| && unchanged(this) && Valid()
      {
        if names[i] == name {
          FindIs(ms, name, i);
          SwapOutDistinct(ms, i);
          if i != last {
            names[i] := names[last];
            values[i] := values[last];
          }
          count := count - 1;
          assert Contents() == SwapOut(ms, i);
          return true;
        }
      }
      FindNone(ms, name);
      return false;
    }
  }
}
