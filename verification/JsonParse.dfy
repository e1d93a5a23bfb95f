/**
 What the parser reads at the start of a text, and what it leaves.  Numbers that are not C ints
 (fractions, exponents, negative zero, more than 32 bits) are outside this model and reported
 apart from rejected input.
 */
module JsonParse {
  import opened Wrappers
  import opened Numbers
  import opened Escapes
  import opened JsonValue

  datatype Outcome<+T> = Rejected | NotInt | Read(value: T) {
    predicate IsFailure() {
      !Read?
    }

    function PropagateFailure<U>(): Outcome<U>
      requires !Read?
    {
      if Rejected? then Rejected else NotInt
    }

    function Extract(): T
      requires Read?
    {
      value
    }
  }

  datatype Parsed<+T> = Parsed(value: T, rest: string)

  // ---------------------------------------------------------------- white space and words

  predicate IsSpace(c: char) {
    c == ' ' || 9 <= c as int <= 13
  }

  function SkipSpaces(t: string): (r: string)
    ensures |r| <= |t|
    ensures r != "" ==> !IsSpace(r[0])
  {
    if t != "" && IsSpace(t[0]) then SkipSpaces(t[1..]) else t
  }

  predicate Begins(t: string, word: string) {
    |word| <= |t| && t[..|word|] == word
  }

  predicate First(t: string, c: char) {
    t != "" && t[0] == c
  }

  // ---------------------------------------------------------------- numbers

  datatype Number = Int(n: int) | NotFinite | OtherNumber

  function Lower(c: char): char {
    if 'A' <= c <= 'Z' then (c as int + 32) as char else c
  }

  predicate HexFollows(u: string) {
    |u| >= 2 && Lower(u[0]) == 'x' && (IsHex(u[1]) || (u[1] == '.' && |u| >= 3 && IsHex(u[2])))
  }

  /** The length of an exponent at the start of u, or 0. */
  function Exponent(u: string): nat {
    if u == "" || Lower(u[0]) != 'e' then 0
    else if |u| >= 2 && (u[1] == '+' || u[1] == '-') then
      if Digits(u[2..]) > 0 then 2 + Digits(u[2..]) else 0
    else if Digits(u[1..]) > 0 then 1 + Digits(u[1..]) else 0
  }

  function Sign(t: string): nat {
    if First(t, '-') then 1 else 0
  }

  /** The length of a fraction and an exponent at the start of u. */
  function Tail(u: string): (f: nat)
    ensures f <= |u|
  {
    var f := if First(u, '.') then 1 + Digits(u[1..]) else 0;
    f + Exponent(u[f..])
  }

  predicate WordAhead(u: string) {
    |u| >= 3 && [Lower(u[0]), Lower(u[1]), Lower(u[2])] in ["inf", "nan"]
  }

  predicate PointAhead(u: string) {
    |u| >= 2 && u[0] == '.' && IsDigit(u[1])
  }

  /**
   What strtod takes of t: how many characters, and which number they are.  Of a hexadecimal
   token only the first characters matter here, and so of an infinity or NaN.
   */
  function Strtod(t: string): (r: (nat, Number))
    ensures r.0 <= |t|
  {
    var s := Sign(t);
    var d := Digits(t[s..]);
    var u := t[s+d..];
    if d == 0 then
      if PointAhead(u) then (s + Tail(u), OtherNumber)
      else if WordAhead(u) then (s + 3, NotFinite)
      else (0, Int(0))
    else if d == 1 && t[s] == '0' && HexFollows(u) then (s + 2, OtherNumber)
    else if Tail(u) > 0 then (s + d + Tail(u), OtherNumber)
    else (s + d, Signed(s == 1, Val(t[s..][..d])))
  }

  /** Negative zero is not a C int. */
  function Signed(minus: bool, n: nat): Number {
    if !minus then Int(n) else if n == 0 then OtherNumber else Int(-(n as int))
  }

  /** No leading zero and no hexadecimal digits. */
  predicate IsDecimal(t: string, len: nat)
    requires len <= |t|
  {
    && !(len > 1 && t[0] == '0' && t[1] != '.')
    && !(len > 2 && t[..2] == "-0" && t[2] != '.')
    && forall i :: 0 <= i < len ==> Lower(t[i]) != 'x'
  }

  function ParseNumber(t: string): Outcome<Parsed<JSON>> {
    var r := Strtod(t);
    if !IsDecimal(t, r.0) then Rejected
    else
      match r.1
      case NotFinite => Rejected
      case OtherNumber => NotInt
      case Int(n) => if IsInt(n) then Read(Parsed(JNum(n), t[r.0..])) else NotInt
  }

  // ---------------------------------------------------------------- values

  function ParseWord(t: string, word: string, v: JSON): Outcome<Parsed<JSON>> {
    if Begins(t, word) then Read(Parsed(v, t[|word|..])) else Rejected
  }

  function ParseString(t: string): Outcome<Parsed<JSON>> {
    match Quoted(t)
    case None => Rejected
    case Some(q) => Read(Parsed(JStr(q.bytes), t[q.used..]))
  }

  predicate StartsNumber(c: char) {
    c == '-' || IsDigit(c)
  }

  function ParseBool(t: string): Outcome<Parsed<JSON>> {
    if Begins(t, "true") then ParseWord(t, "true", JBool(true)) else ParseWord(t, "false", JBool(false))
  }

  /** Strings, booleans, numbers and null, by their first character. */
  function ParseScalar(t: string): (r: Outcome<Parsed<JSON>>)
    requires t != ""
    ensures r.Read? ==> |r.value.rest| <= |t|
  {
    if t[0] == '\"' then ParseString(t)
    else if t[0] == 't' || t[0] == 'f' then ParseBool(t)
    else if StartsNumber(t[0]) then ParseNumber(t)
    else if t[0] == 'n' then ParseWord(t, "null", JNull)
    else Rejected
  }

  /** parse_value: what follows white space decides which kind of value is read. */
  function ParseValue(text: string, nesting: nat): (r: Outcome<Parsed<JSON>>)
    ensures r.Read? ==> |r.value.rest| <= |text|
    decreases |text|, 2
  {
    var t := SkipSpaces(text);
    if nesting > MAX_NESTING || t == "" then Rejected
    else if t[0] == '{' then ParseObject(t, nesting + 1)
    else if t[0] == '[' then ParseArray(t, nesting + 1)
    else ParseScalar(t)
  }

  function ParseArray(t: string, nesting: nat): (r: Outcome<Parsed<JSON>>)
    requires First(t, '[')
    ensures r.Read? ==> |r.value.rest| < |t|
    decreases |t|, 1
  {
    var u := SkipSpaces(t[1..]);
    if First(u, ']') then Read(Parsed(JArr([]), u[1..]))
    else
      var r :- ParseItems(u, nesting, []);
      Read(Parsed(JArr(r.value), r.rest))
  }

  /** The elements from t on, after those read before, and the closing bracket. */
  function ParseItems(t: string, nesting: nat, before: seq<JSON>): (r: Outcome<Parsed<seq<JSON>>>)
    ensures r.Read? ==> |r.value.rest| < |t|
    decreases |t|, 3
  {
    if t == "" then Rejected
    else
      var v :- ParseValue(t, nesting);
      var u := SkipSpaces(v.rest);
      if First(u, ',') then ParseItems(SkipSpaces(u[1..]), nesting, before + [v.value])
      else if First(u, ']') then Read(Parsed(before + [v.value], u[1..]))
      else Rejected
  }

  function ParseObject(t: string, nesting: nat): (r: Outcome<Parsed<JSON>>)
    requires First(t, '{')
    ensures r.Read? ==> |r.value.rest| < |t|
    decreases |t|, 1
  {
    var u := SkipSpaces(t[1..]);
    if First(u, '}') then Read(Parsed(JObj([]), u[1..]))
    else
      var r :- ParseMembers(u, nesting, []);
      Read(Parsed(JObj(r.value), r.rest))
  }

  /** A quoted name and a colon. */
  function ParseKey(t: string): (r: Option<Parsed<string>>)
    ensures r.Some? ==> |r.value.rest| < |t|
  {
    match Quoted(t)
    case None => None
    case Some(q) =>
      var u := SkipSpaces(t[q.used..]);
      if First(u, ':') then Some(Parsed(q.bytes, u[1..])) else None
  }

  /** One member: a key and a value; the name must be new. */
  function ParseMember(t: string, nesting: nat, before: seq<Member>): (r: Outcome<Parsed<Member>>)
    ensures r.Read? ==> |r.value.rest| < |t|
    decreases |t|, 3
  {
    match ParseKey(t)
    case None => Rejected
    case Some(k) =>
      var v :- ParseValue(k.rest, nesting);
      if Has(before, k.value) then Rejected else Read(Parsed(Member(k.value, v.value), v.rest))
  }

  function ParseMembers(t: string, nesting: nat, before: seq<Member>): (r: Outcome<Parsed<seq<Member>>>)
    ensures r.Read? ==> |r.value.rest| < |t|
    decreases |t|, 4
  {
    if t == "" then Rejected
    else
      var m :- ParseMember(t, nesting, before);
      var u := SkipSpaces(m.rest);
      if First(u, ',') then ParseMembers(SkipSpaces(u[1..]), nesting, before + [m.value])
      else if First(u, '}') then Read(Parsed(before + [m.value], u[1..]))
      else Rejected
  }

  // ---------------------------------------------------------------- the loops, one step unfolded

  lemma UnfoldItems(t: string, nesting: nat, before: seq<JSON>)
    ensures ParseItems(t, nesting, before) ==
      if t == "" then Rejected
      else
        match ParseValue(t, nesting)
        case Rejected => Rejected
        case NotInt => NotInt
        case Read(v) =>
          var u := SkipSpaces(v.rest);
          if First(u, ',') then ParseItems(SkipSpaces(u[1..]), nesting, before + [v.value])
          else if First(u, ']') then Read(Parsed(before + [v.value], u[1..]))
          else Rejected
  {
  }

  lemma UnfoldMember(t: string, nesting: nat, before: seq<Member>)
    ensures ParseMember(t, nesting, before) ==
      match ParseKey(t)
      case None => Rejected
      case Some(k) =>
        match ParseValue(k.rest, nesting)
        case Rejected => Rejected
        case NotInt => NotInt
        case Read(v) => if Has(before, k.value) then Rejected else Read(Parsed(Member(k.value, v.value), v.rest))
  {
  }

  lemma UnfoldMembers(t: string, nesting: nat, before: seq<Member>)
    ensures ParseMembers(t, nesting, before) ==
      if t == "" then Rejected
      else
        match ParseMember(t, nesting, before)
        case Rejected => Rejected
        case NotInt => NotInt
        case Read(m) =>
          var u := SkipSpaces(m.rest);
          if First(u, ',') then ParseMembers(SkipSpaces(u[1..]), nesting, before + [m.value])
          else if First(u, '}') then Read(Parsed(before + [m.value], u[1..]))
          else Rejected
  {
  }

  /** A byte order mark before the value is skipped; what follows the value is not looked at. */
  function JsonParseString(s: string): Outcome<JSON> {
    var t := if Begins(s, [0xEF as char, 0xBB as char, 0xBF as char]) then s[3..] else s;
    var r :- ParseValue(t, 0);
    Read(r.value)
  }
}
