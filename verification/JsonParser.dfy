/**
 The parser's code: a pointer that advances over a terminated string, objects and arrays built
 member by member.  Each method is proved against the function of the same name in JsonParse.
 */
module JsonParser {
  import opened Wrappers
  import opened CStrings
  import opened Escapes
  import opened StringParser
  import opened JsonValue
  import opened JsonObjects
  import opened JsonParse

  /** The code's result r and pointer q say what the specification s says. */
  ghost predicate Agrees(m: string, r: Outcome<JSON>, q: nat, s: Outcome<Parsed<JSON>>) {
    match s
    case Rejected => r == Rejected
    case NotInt => r == NotInt
    case Read(p) => r == Read(p.value) && q < |m| && From(m, q) == p.rest
  }

  lemma SpacesAt(m: string, p: nat)
    requires Terminated(m) && p < |m|
    ensures IsSpace(m[p]) ==> p + 1 < |m| && SkipSpaces(From(m, p)) == SkipSpaces(From(m, p + 1))
    ensures !IsSpace(m[p]) ==> SkipSpaces(From(m, p)) == From(m, p)
  {
    AtPointer(m, p);
  }

  method SkipWhitespaces(m: string, p: nat) returns (q: nat)
    requires Terminated(m) && p < |m|
    ensures p <= q < |m| && From(m, q) == SkipSpaces(From(m, p)) && SkipSpaces(From(m, q)) == From(m, q)
  {
    q := p;
    SpacesAt(m, q);
    while IsSpace(m[q])
      invariant p <= q < |m| && SkipSpaces(From(m, p)) == SkipSpaces(From(m, q))
      invariant !IsSpace(m[q]) ==> SkipSpaces(From(m, q)) == From(m, q)
      decreases |m| - q
    {
      SpacesAt(m, q);
      q := q + 1;
      SpacesAt(m, q);
    }
  }

  /** What the next character says about the text. */
  lemma FirstAt(m: string, p: nat, c: char)
    requires Terminated(m) && p < |m| && c != NUL
    ensures First(From(m, p), c) <==> m[p] == c
    ensures m[p] == c ==> p + 1 < |m| && From(m, p)[1..] == From(m, p + 1)
    ensures From(m, p) == "" <==> m[p] == NUL
    ensures From(m, p) != "" ==> From(m, p)[0] == m[p]
  {
    AtPointer(m, p);
  }

  lemma AdvanceBy(m: string, p: nat, n: nat)
    requires Terminated(m) && p < |m| && n <= |From(m, p)|
    ensures p + n < |m| && From(m, p)[n..] == From(m, p + n)
  {
  }

  // ---------------------------------------------------------------- scalars

  method ParseStringValue(m: string, p: nat) returns (r: Outcome<JSON>, q: nat)
    requires Terminated(m) && p < |m|
    ensures Agrees(m, r, q, ParseString(From(m, p)))
  {
    hide Quoted;
    var s;
    s, q := GetQuotedString(m, p);
    if s == None {
      return Rejected, q;
    }
    AdvanceBy(m, p, q - p);
    return Read(JStr(s.value)), q;
  }

  method ParseBooleanValue(m: string, p: nat) returns (r: Outcome<JSON>, q: nat)
    requires Terminated(m) && p < |m|
    ensures Agrees(m, r, q, ParseBool(From(m, p)))
  {
    q := p;
    if Begins(From(m, p), "true") {
      AdvanceBy(m, p, 4);
      q := q + 4;
      return Read(JBool(true)), q;
    } else if Begins(From(m, p), "false") {
      AdvanceBy(m, p, 5);
      q := q + 5;
      return Read(JBool(false)), q;
    }
    return Rejected, q;
  }

  method ParseNullValue(m: string, p: nat) returns (r: Outcome<JSON>, q: nat)
    requires Terminated(m) && p < |m|
    ensures Agrees(m, r, q, ParseWord(From(m, p), "null", JNull))
  {
    q := p;
    if Begins(From(m, p), "null") {
      AdvanceBy(m, p, 4);
      q := q + 4;
      return Read(JNull), q;
    }
    return Rejected, q;
  }

  method IsDecimalToken(t: string, length: nat) returns (ok: bool)
    requires length <= |t|
    ensures ok == IsDecimal(t, length)
  {
    if length > 1 && t[0] == '0' && t[1] != '.' {
      return false;
    }
    if length > 2 && t[..2] == "-0" && t[2] != '.' {
      return false;
    }
    var n := length;
    while n > 0
      invariant 0 <= n <= length && forall i :: n <= i < length ==> Lower(t[i]) != 'x'
    {
      n := n - 1;
      if t[n] == 'x' || t[n] == 'X' {
        return false;
      }
    }
    return true;
  }

  /** strtod is taken as given; an integer that is no C int is outside the model. */
  method ParseNumberValue(m: string, p: nat) returns (r: Outcome<JSON>, q: nat)
    requires Terminated(m) && p < |m|
    ensures Agrees(m, r, q, ParseNumber(From(m, p)))
  {
    hide Strtod, IsDecimal;
    q := p;
    var t := Strtod(From(m, p));
    var decimal := IsDecimalToken(From(m, p), t.0);
    if !decimal || t.1 == NotFinite {
      return Rejected, q;
    }
    if t.1 == OtherNumber || !IsInt(t.1.n) {
      return NotInt, q;
    }
    AdvanceBy(m, p, t.0);
    q := q + t.0;
    return Read(JNum(t.1.n)), q;
  }

  // ---------------------------------------------------------------- values

  /** A scalar, by its first character. */
  method ParseScalarValue(m: string, p: nat) returns (r: Outcome<JSON>, q: nat)
    requires Terminated(m) && p < |m| && m[p] != NUL
    ensures From(m, p) != "" && Agrees(m, r, q, ParseScalar(From(m, p)))
  {
    hide ParseString, ParseBool, ParseNumber, ParseWord, Agrees;
    AtPointer(m, p);
    if m[p] == '\"' {
      r, q := ParseStringValue(m, p);
    } else if m[p] == 't' || m[p] == 'f' {
      r, q := ParseBooleanValue(m, p);
    } else if StartsNumber(m[p]) {
      r, q := ParseNumberValue(m, p);
    } else if m[p] == 'n' {
      r, q := ParseNullValue(m, p);
    } else {
      r, q := Refuse(m, p);
    }
  }

  method Refuse(m: string, p: nat) returns (r: Outcome<JSON>, q: nat)
    ensures Agrees(m, r, q, Rejected)
  {
    return Rejected, p;
  }

  method ParseValueAt(m: string, p: nat, nesting: nat) returns (r: Outcome<JSON>, q: nat)
    requires Terminated(m) && p < |m|
    ensures Agrees(m, r, q, ParseValue(From(m, p), nesting))
    decreases |m| - p, 4
  {
    hide ParseArray, ParseObject, ParseScalar, Agrees, SkipSpaces;
    if nesting > MAX_NESTING {
      r, q := Refuse(m, p);
      return;
    }
    q := SkipWhitespaces(m, p);
    FirstAt(m, q, '{');
    FirstAt(m, q, '[');
    if m[q] == NUL {
      r, q := Refuse(m, q);
    } else if m[q] == '{' {
      r, q := ParseObjectValue(m, q, nesting + 1);
    } else if m[q] == '[' {
      r, q := ParseArrayValue(m, q, nesting + 1);
    } else {
      r, q := ParseScalarValue(m, q);
    }
  }

  // ---------------------------------------------------------------- arrays

  datatype Progress = Failed(outcome: Outcome<JSON>) | Goes | Ends

  /** The specification's outcome for the elements, as an array. */
  function AsArray(r: Outcome<Parsed<seq<JSON>>>): Outcome<Parsed<JSON>> {
    match r
    case Rejected => Rejected
    case NotInt => NotInt
    case Read(p) => Read(Parsed(JArr(p.value), p.rest))
  }

  /** The elements have been read up to q: the text there closes the array or spoils it. */
  ghost predicate ClosesArray(m: string, q: nat, items: seq<JSON>, s: Outcome<Parsed<JSON>>) {
    && q < |m| && SkipSpaces(From(m, q)) == From(m, q)
    && s == if First(From(m, q), ']') then Read(Parsed(JArr(items), From(m, q)[1..])) else Rejected
  }

  lemma NoElement(t: string, nesting: nat, items: seq<JSON>)
    requires t != "" && !ParseValue(t, nesting).Read?
    ensures ParseItems(t, nesting, items) == if ParseValue(t, nesting).Rejected? then Rejected else NotInt
  {
    hide ParseItems, ParseValue;
    UnfoldItems(t, nesting, items);
  }

  lemma LastElement(t: string, nesting: nat, items: seq<JSON>, v: Parsed<JSON>, u: string)
    requires t != "" && ParseValue(t, nesting) == Read(v) && u == SkipSpaces(v.rest) && !First(u, ',')
    ensures ParseItems(t, nesting, items) == if First(u, ']') then Read(Parsed(items + [v.value], u[1..])) else Rejected
  {
    hide ParseItems, ParseValue, SkipSpaces;
    UnfoldItems(t, nesting, items);
  }

  lemma MoreElements(t: string, nesting: nat, items: seq<JSON>, v: Parsed<JSON>, u: string)
    requires t != "" && ParseValue(t, nesting) == Read(v) && u == SkipSpaces(v.rest) && First(u, ',')
    ensures ParseItems(t, nesting, items) == ParseItems(SkipSpaces(u[1..]), nesting, items + [v.value])
  {
    hide ParseItems, ParseValue, SkipSpaces;
    UnfoldItems(t, nesting, items);
  }

  lemma Length(m: string, p: nat)
    requires p < |m|
    ensures |From(m, p)| == |m| - 1 - p
  {
  }

  /** One element, and the comma and white space behind it. */
  method ParseElement(m: string, p: nat, nesting: nat, items: seq<JSON>) returns (e: Progress, q: nat, items': seq<JSON>)
    requires Terminated(m) && p < |m| && m[p] != NUL
    ensures var s := AsArray(ParseItems(From(m, p), nesting, items));
            match e
            case Failed(r) => (r == Rejected && s == Rejected) || (r == NotInt && s == NotInt)
            case Goes => p < q < |m| && s == AsArray(ParseItems(From(m, q), nesting, items'))
            case Ends => ClosesArray(m, q, items', s)
    decreases |m| - p, 5
  {
    hide ParseItems, ParseValue, SkipSpaces, IsText, From, Terminated;
    ghost var t := From(m, p);
    FirstAt(m, p, ',');
    var v;
    v, q := ParseValueAt(m, p, nesting);
    items' := items;
    if v == Rejected || v == NotInt {
      NoElement(t, nesting, items);
      return Failed(v), q, items';
    }
    items' := items + [v.value];
    ghost var rest := From(m, q);
    Length(m, p);
    Length(m, q);
    q := SkipWhitespaces(m, q);
    FirstAt(m, q, ',');
    if m[q] != ',' {
      LastElement(t, nesting, items, Parsed(v.value, rest), From(m, q));
      return Ends, q, items';
    }
    MoreElements(t, nesting, items, Parsed(v.value, rest), From(m, q));
    q := SkipWhitespaces(m, q + 1);
    return Goes, q, items';
  }

  /** What parse_array_value does behind the opening bracket. */
  lemma ArrayOpens(m: string, p: nat, q: nat, nesting: nat)
    requires Terminated(m) && p < q < |m| && m[p] == '[' && From(m, q) == SkipSpaces(From(m, p + 1))
    ensures First(From(m, p), '[')
    ensures ParseArray(From(m, p), nesting) ==
            if First(From(m, q), ']') then Read(Parsed(JArr([]), From(m, q)[1..]))
            else AsArray(ParseItems(From(m, q), nesting, []))
  {
    hide ParseItems, SkipSpaces;
    FirstAt(m, p, '[');
  }

  lemma ArrayAtEnd(m: string, q: nat, nesting: nat, items: seq<JSON>)
    requires Terminated(m) && q < |m| && m[q] == NUL
    ensures ClosesArray(m, q, items, AsArray(ParseItems(From(m, q), nesting, items)))
  {
    AtPointer(m, q);
  }

  method ParseArrayValue(m: string, p: nat, nesting: nat) returns (r: Outcome<JSON>, q: nat)
    requires Terminated(m) && p < |m| && m[p] == '['
    ensures First(From(m, p), '[') && Agrees(m, r, q, ParseArray(From(m, p), nesting))
    decreases |m| - p, 3
  {
    hide ParseItems, SkipSpaces, IsText, From, Terminated, ParseArray;
    FirstAt(m, p, '[');
    q := SkipWhitespaces(m, p + 1);
    ArrayOpens(m, p, q, nesting);
    FirstAt(m, q, ']');
    if m[q] == ']' {
      return Read(JArr([])), q + 1;
    }
    ghost var s := ParseArray(From(m, p), nesting);
    var items: seq<JSON> := [];
    var e := Goes;
    while m[q] != NUL
      invariant p < q < |m| && e == Goes && s == AsArray(ParseItems(From(m, q), nesting, items))
      decreases |m| - q
    {
      e, q, items := ParseElement(m, q, nesting, items);
      if e.Failed? {
        return e.outcome, q;
      }
      if e == Ends {
        break;
      }
    }
    if e == Goes {
      ArrayAtEnd(m, q, nesting, items);
    }
    r, q := CloseArray(m, q, items, s);
  }

  /** The closing bracket, or the failure. */
  method CloseArray(m: string, p: nat, items: seq<JSON>, ghost s: Outcome<Parsed<JSON>>) returns (r: Outcome<JSON>, q: nat)
    requires Terminated(m) && ClosesArray(m, p, items, s)
    ensures Agrees(m, r, q, s)
  {
    q := SkipWhitespaces(m, p);
    SamePlace(m, p, q);
    FirstAt(m, q, ']');
    if m[q] != ']' {
      return Rejected, q;
    }
    return Read(JArr(items)), q + 1;
  }

  lemma SamePlace(m: string, p: nat, q: nat)
    requires p < |m| && q < |m| && From(m, p) == From(m, q)
    ensures p == q
  {
    Length(m, p);
    Length(m, q);
  }

  // ---------------------------------------------------------------- objects

  function AsObject(r: Outcome<Parsed<seq<Member>>>): Outcome<Parsed<JSON>> {
    match r
    case Rejected => Rejected
    case NotInt => NotInt
    case Read(p) => Read(Parsed(JObj(p.value), p.rest))
  }

  ghost predicate ClosesObject(m: string, q: nat, ms: seq<Member>, s: Outcome<Parsed<JSON>>) {
    && q < |m| && SkipSpaces(From(m, q)) == From(m, q)
    && s == if First(From(m, q), '}') then Read(Parsed(JObj(ms), From(m, q)[1..])) else Rejected
  }

  /** A quoted name and a colon. */
  method ParseKeyAt(m: string, p: nat) returns (r: Option<string>, q: nat)
    requires Terminated(m) && p < |m|
    ensures match ParseKey(From(m, p))
            case None => r == None
            case Some(k) => r == Some(k.value) && p < q < |m| && From(m, q) == k.rest
  {
    hide Quoted, SkipSpaces;
    r, q := GetQuotedString(m, p);
    if r == None {
      return;
    }
    AdvanceBy(m, p, q - p);
    q := SkipWhitespaces(m, q);
    FirstAt(m, q, ':');
    if m[q] != ':' {
      return None, q;
    }
    q := q + 1;
  }

  lemma NoMember(t: string, nesting: nat, ms: seq<Member>)
    requires t != "" && !ParseMember(t, nesting, ms).Read?
    ensures ParseMembers(t, nesting, ms) == if ParseMember(t, nesting, ms).Rejected? then Rejected else NotInt
  {
    hide ParseMembers, ParseMember;
    UnfoldMembers(t, nesting, ms);
  }

  lemma LastMember(t: string, nesting: nat, ms: seq<Member>, v: Parsed<Member>, u: string)
    requires t != "" && ParseMember(t, nesting, ms) == Read(v) && u == SkipSpaces(v.rest) && !First(u, ',')
    ensures ParseMembers(t, nesting, ms) == if First(u, '}') then Read(Parsed(ms + [v.value], u[1..])) else Rejected
  {
    hide ParseMembers, ParseMember, SkipSpaces;
    UnfoldMembers(t, nesting, ms);
  }

  lemma MoreMembers(t: string, nesting: nat, ms: seq<Member>, v: Parsed<Member>, u: string)
    requires t != "" && ParseMember(t, nesting, ms) == Read(v) && u == SkipSpaces(v.rest) && First(u, ',')
    ensures ParseMembers(t, nesting, ms) == ParseMembers(SkipSpaces(u[1..]), nesting, ms + [v.value])
  {
    hide ParseMembers, ParseMember, SkipSpaces;
    UnfoldMembers(t, nesting, ms);
  }

  /** One member added to o: key, value, and no member of that name yet. */
  method AddMember(m: string, p: nat, nesting: nat, o: JsonObject) returns (r: Outcome<JSON>, q: nat)
    requires Terminated(m) && p < |m| && o.Valid()
    modifies o, o.names, o.values
    ensures o.Valid() && (fresh(o.names) || o.names == old(o.names)) && (fresh(o.values) || o.values == old(o.values))
    ensures match ParseMember(From(m, p), nesting, old(o.Contents()))
            case Rejected => r == Rejected
            case NotInt => r == NotInt
            case Read(v) => r.Read? && p < q < |m| && From(m, q) == v.rest && o.Contents() == old(o.Contents()) + [v.value]
    decreases |m| - p, 5
  {
    hide ParseMember, ParseKey, ParseValue, From, Terminated;
    UnfoldMember(From(m, p), nesting, o.Contents());
    var name;
    name, q := ParseKeyAt(m, p);
    if name == None {
      return Rejected, q;
    }
    ghost var q0 := q;
    r, q := ParseValueAt(m, q, nesting);
    if r == Rejected || r == NotInt {
      return;
    }
    Length(m, q0);
    Length(m, q);
    var added := o.Add(name.value, r.value);
    if !added {
      return Rejected, q;
    }
  }

  /** Behind member v of t: a comma and the next member, or the end. */
  method AfterMember(m: string, p: nat, nesting: nat, ghost t: string, ghost ms: seq<Member>, ghost v: Parsed<Member>)
    returns (e: Progress, q: nat)
    requires Terminated(m) && p < |m| && t != "" && ParseMember(t, nesting, ms) == Read(v) && From(m, p) == v.rest
    ensures var s := AsObject(ParseMembers(t, nesting, ms));
            match e
            case Failed(r) => false
            case Goes => p < q < |m| && s == AsObject(ParseMembers(From(m, q), nesting, ms + [v.value]))
            case Ends => ClosesObject(m, q, ms + [v.value], s)
  {
    hide ParseMembers, ParseMember, SkipSpaces, From, Terminated;
    q := SkipWhitespaces(m, p);
    FirstAt(m, q, ',');
    if m[q] != ',' {
      LastMember(t, nesting, ms, v, From(m, q));
      return Ends, q;
    }
    MoreMembers(t, nesting, ms, v, From(m, q));
    q := SkipWhitespaces(m, q + 1);
    return Goes, q;
  }

  /** One member, and the comma and white space behind it. */
  method ParseMemberAt(m: string, p: nat, nesting: nat, o: JsonObject) returns (e: Progress, q: nat)
    requires Terminated(m) && p < |m| && m[p] != NUL && o.Valid()
    modifies o, o.names, o.values
    ensures o.Valid() && (fresh(o.names) || o.names == old(o.names)) && (fresh(o.values) || o.values == old(o.values))
    ensures var s := AsObject(ParseMembers(From(m, p), nesting, old(o.Contents())));
            match e
            case Failed(r) => (r == Rejected && s == Rejected) || (r == NotInt && s == NotInt)
            case Goes => p < q < |m| && s == AsObject(ParseMembers(From(m, q), nesting, o.Contents()))
            case Ends => ClosesObject(m, q, o.Contents(), s) && o.Contents() != []
    decreases |m| - p, 6
  {
    hide ParseMembers, ParseMember, SkipSpaces, IsText, From, Terminated;
    ghost var t, ms := From(m, p), o.Contents();
    FirstAt(m, p, ',');
    var r;
    r, q := AddMember(m, p, nesting, o);
    if r == Rejected || r == NotInt {
      NoMember(t, nesting, ms);
      return Failed(r), q;
    }
    ghost var v := ParseMember(t, nesting, ms).value;
    e, q := AfterMember(m, q, nesting, t, ms, v);
  }

  lemma ObjectOpens(m: string, p: nat, q: nat, nesting: nat)
    requires Terminated(m) && p < q < |m| && m[p] == '{' && From(m, q) == SkipSpaces(From(m, p + 1))
    ensures First(From(m, p), '{')
    ensures ParseObject(From(m, p), nesting) ==
            if First(From(m, q), '}') then Read(Parsed(JObj([]), From(m, q)[1..]))
            else AsObject(ParseMembers(From(m, q), nesting, []))
  {
    hide ParseMembers, SkipSpaces;
    FirstAt(m, p, '{');
  }

  lemma ObjectAtEnd(m: string, q: nat, nesting: nat, ms: seq<Member>)
    requires Terminated(m) && q < |m| && m[q] == NUL
    ensures ClosesObject(m, q, ms, AsObject(ParseMembers(From(m, q), nesting, ms)))
  {
    AtPointer(m, q);
  }

  /** The closing brace, and the object trimmed to its members, or the failure. */
  method CloseObject(m: string, p: nat, o: JsonObject, ghost s: Outcome<Parsed<JSON>>) returns (r: Outcome<JSON>, q: nat)
    requires Terminated(m) && o.Valid() && ClosesObject(m, p, o.Contents(), s)
    requires m[p] == '}' ==> o.Contents() != []
    modifies o
    ensures Agrees(m, r, q, s)
  {
    q := SkipWhitespaces(m, p);
    SamePlace(m, p, q);
    FirstAt(m, q, '}');
    if m[q] != '}' {
      return Rejected, q;
    }
    var trimmed := o.Resize(o.count);
    if !trimmed {
      return Rejected, q;
    }
    return Read(JObj(o.Contents())), q + 1;
  }

  method ParseObjectValue(m: string, p: nat, nesting: nat) returns (r: Outcome<JSON>, q: nat)
    requires Terminated(m) && p < |m| && m[p] == '{'
    ensures First(From(m, p), '{') && Agrees(m, r, q, ParseObject(From(m, p), nesting))
    decreases |m| - p, 3
  {
    hide ParseMembers, SkipSpaces, IsText, From, Terminated, ParseObject;
    FirstAt(m, p, '{');
    q := SkipWhitespaces(m, p + 1);
    ObjectOpens(m, p, q, nesting);
    FirstAt(m, q, '}');
    if m[q] == '}' {
      return Read(JObj([])), q + 1;
    }
    ghost var s := ParseObject(From(m, p), nesting);
    var o := new JsonObject();
    var e := Goes;
    while m[q] != NUL
      invariant p < q < |m| && e == Goes && o.Valid() && fresh(o)
      invariant (o.names != null ==> fresh(o.names)) && (o.values != null ==> fresh(o.values))
      invariant s == AsObject(ParseMembers(From(m, q), nesting, o.Contents()))
      decreases |m| - q
    {
      e, q := ParseMemberAt(m, q, nesting, o);
      if e.Failed? {
        return e.outcome, q;
      }
      if e == Ends {
        break;
      }
    }
    if e == Goes {
      ObjectAtEnd(m, q, nesting, o.Contents());
    }
    r, q := CloseObject(m, q, o, s);
  }

  /** json_parse_string on a terminated string. */
  method ParseStringAt(m: string) returns (r: Outcome<JSON>)
    requires Terminated(m)
    ensures r == JsonParseString(From(m, 0))
  {
    hide ParseValue;
    var p := 0;
    if Begins(From(m, 0), [0xEF as char, 0xBB as char, 0xBF as char]) {
      p := 3;
      AdvanceBy(m, 0, 3);
    }
    var q;
    r, q := ParseValueAt(m, p, 0);
  }
}
