/** JSON values: numbers are C ints, objects keep their members in order. */
module JsonValue {
  import opened Wrappers
  import opened CStrings

  const MAX_NESTING := 2048

  datatype Member = Member(name: string, value: JSON)

  datatype JSON =
    | JNull
    | JBool(b: bool)
    | JNum(n: int)
    | JStr(s: string)
    | JArr(items: seq<JSON>)
    | JObj(members: seq<Member>)

  predicate IsInt(n: int) {
    -0x8000_0000 <= n < 0x8000_0000
  }

  /** The index of the first member of that name, or |ms|. */
  function Find(ms: seq<Member>, name: string): (k: nat)
    ensures k <= |ms|
    ensures k < |ms| ==> ms[k].name == name
  {
    if ms == [] || ms[0].name == name then 0 else 1 + Find(ms[1..], name)
  }

  function Get(ms: seq<Member>, name: string): Option<JSON> {
    var k := Find(ms, name);
    if k < |ms| then Some(ms[k].value) else None
  }

  predicate Has(ms: seq<Member>, name: string) {
    Find(ms, name) < |ms|
  }

  /** Every member is found by its name. */
  ghost predicate DistinctNames(ms: seq<Member>) {
    forall i :: 0 <= i < |ms| ==> Find(ms, ms[i].name) == i
  }

  lemma {:induction false} FindFirst(ms: seq<Member>, name: string, j: nat)
    requires j < |ms| && ms[j].name == name
    ensures Find(ms, name) <= j
  {
    if j > 0 && ms[0].name != name {
      FindFirst(ms[1..], name, j - 1);
    }
  }

  /** In other words, no two members share a name. */
  lemma DistinctNamesMeans(ms: seq<Member>)
    ensures DistinctNames(ms) <==> forall i, j :: 0 <= i < j < |ms| ==> ms[i].name != ms[j].name
  {
    forall i | 0 <= i < |ms| ensures Find(ms, ms[i].name) <= i {
      FindFirst(ms, ms[i].name, i);
    }
  }

  lemma {:induction false} FindSnoc(ms: seq<Member>, m: Member, name: string)
    ensures Find(ms + [m], name) ==
            if Has(ms, name) then Find(ms, name) else if m.name == name then |ms| else |ms| + 1
  {
    if ms == [] {
      assert (ms + [m])[1..] == [];
    } else {
      assert (ms + [m])[1..] == ms[1..] + [m];
      FindSnoc(ms[1..], m, name);
    }
  }

  /** Adding a new name keeps names distinct. */
  lemma SnocDistinct(ms: seq<Member>, m: Member)
    requires DistinctNames(ms) && !Has(ms, m.name)
    ensures DistinctNames(ms + [m])
  {
    var ms' := ms + [m];
    forall i | 0 <= i < |ms'| ensures Find(ms', ms'[i].name) == i {
      FindSnoc(ms, m, ms'[i].name);
    }
  }

  /** Values the library builds: distinct names, C strings, C ints. */
  ghost predicate Good(v: JSON) {
    match v
    case JNum(n) => IsInt(n)
    case JStr(s) => IsText(s)
    case JArr(items) => forall i :: 0 <= i < |items| ==> Good(items[i])
    case JObj(ms) => DistinctNames(ms) && forall i :: 0 <= i < |ms| ==> GoodMember(ms[i])
    case _ => true
  }

  ghost predicate GoodMember(m: Member) {
    IsText(m.name) && Good(m.value)
  }

  /** v may stand at depth n: no node of it is deeper than MAX_NESTING. */
  ghost predicate FitsAt(v: JSON, n: nat) {
    && n <= MAX_NESTING
    && match v
       case JArr(items) => forall i :: 0 <= i < |items| ==> FitsAt(items[i], n + 1)
       case JObj(ms) => forall i :: 0 <= i < |ms| ==> FitsAt(ms[i].value, n + 1)
       case _ => true
  }
}
