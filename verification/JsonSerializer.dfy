/**
 The serializer's code: one pass with no buffer measures, a second one writes.  A write that
 left the buffer would be an index out of bounds here.
 */
module JsonSerializer {
  import opened CStrings
  import opened Numbers
  import opened Escapes
  import opened JsonValue
  import opened JsonPrint

  const NUM_BUF_SIZE := 64

  // ---------------------------------------------------------------- what a writer leaves in the buffer

  /** s has been put at index at; but for the byte behind it all else is as before. */
  ghost predicate PutAt(b0: string, b: string, at: nat, s: string) {
    && |b| == |b0| && at + |s| < |b|
    && b[..at + |s|] == b0[..at] + s
    && b[at + |s| + 1..] == b0[at + |s| + 1..]
  }

  /** And that byte is the terminator. */
  ghost predicate Wrote(b0: string, b: string, at: nat, s: string) {
    PutAt(b0, b, at, s) && b[at + |s|] == NUL
  }

  lemma PutMore(b0: string, b1: string, b2: string, at: nat, s: string, t: string)
    requires PutAt(b0, b1, at, s) && PutAt(b1, b2, at + |s|, t)
    ensures PutAt(b0, b2, at, s + t)
  {
    assert b2[..at + |s| + |t|] == b0[..at] + (s + t);
    assert b2[at + |s| + |t| + 1..] == b1[at + |s| + 1..][|t|..];
    assert b0[at + |s| + |t| + 1..] == b0[at + |s| + 1..][|t|..];
  }

  lemma WroteMore(b0: string, b1: string, b2: string, at: nat, s: string, t: string)
    requires PutAt(b0, b1, at, s) && Wrote(b1, b2, at + |s|, t)
    ensures Wrote(b0, b2, at, s + t)
  {
    PutMore(b0, b1, b2, at, s, t);
  }

  /** With no buffer nothing is written. */
  ghost predicate Room(buf: array?<char>, at: nat, s: string) {
    buf != null ==> at + |s| < buf.Length
  }

  ghost function Written(buf: array?<char>): string
    reads buf
  {
    if buf == null then "" else buf[..]
  }

  /** The writer's promise, with or without a buffer. */
  ghost predicate Done(buf: array?<char>, b0: string, at: nat, s: string)
    reads buf
  {
    buf != null ==> Wrote(b0, buf[..], at, s)
  }

  ghost predicate Partly(buf: array?<char>, b0: string, at: nat, s: string)
    reads buf
  {
    buf != null ==> PutAt(b0, buf[..], at, s)
  }

  lemma Begin(buf: array?<char>, at: nat)
    requires Room(buf, at, "")
    ensures Partly(buf, Written(buf), at, "")
  {
    if buf != null {
      assert buf[..at] + "" == buf[..at];
    }
  }

  // ---------------------------------------------------------------- pieces

  method AppendString(buf: array?<char>, at: nat, s: string) returns (written: nat)
    requires Room(buf, at, s)
    modifies if buf == null then {} else {buf}
    ensures written == |s| && Done(buf, old(Written(buf)), at, s)
  {
    if buf == null {
      return |s|;
    }
    ghost var b0 := buf[..];
    for i := 0 to |s|
      invariant buf[..at + i] == b0[..at] + s[..i] && buf[at + i..] == b0[at + i..]
    {
      buf[at + i] := s[i];
    }
    buf[at + |s|] := NUL;
    return |s|;
  }

  method AppendIndent(buf: array?<char>, at: nat, level: nat) returns (written: nat)
    requires Room(buf, at, Spaces(level))
    modifies if buf == null then {} else {buf}
    ensures written == |Spaces(level)| && Partly(buf, old(Written(buf)), at, Spaces(level))
  {
    written := 0;
    ghost var b0 := Written(buf);
    Begin(buf, at);
    for i := 0 to level
      invariant written == |Spaces(i)| && Partly(buf, b0, at, Spaces(i))
    {
      SpacesGrow(i, level);
      ghost var b1 := Written(buf);
      var w := AppendString(buf, at + written, "    ");
      if buf != null {
        PutMore(b0, b1, buf[..], at, Spaces(i), "    ");
      }
      written := written + w;
    }
  }

  lemma {:induction false} SpacesEnd(n: nat)
    ensures Spaces(n + 1) == Spaces(n) + "    "
  {
    if n > 0 {
      SpacesEnd(n - 1);
      assert "    " + (Spaces(n - 1) + "    ") == "    " + Spaces(n - 1) + "    ";
    }
  }

  lemma {:induction false} SpacesGrow(i: nat, level: nat)
    requires i < level
    ensures Spaces(i + 1) == Spaces(i) + "    " && |Spaces(i + 1)| <= |Spaces(level)|
    decreases level
  {
    SpacesEnd(i);
    if i + 1 < level {
      SpacesGrow(i, level - 1);
      SpacesEnd(level - 1);
    }
  }

  /** One more piece behind what has been put already; total counts it. */
  method More(buf: array?<char>, ghost b0: string, at: nat, ghost done: string, total: nat, s: string)
    returns (sum: nat)
    requires total == |done| && Partly(buf, b0, at, done) && Room(buf, at, done + s)
    modifies if buf == null then {} else {buf}
    ensures sum == |done + s| && Partly(buf, b0, at, done + s)
    ensures buf != null ==> buf[at + sum] == NUL
  {
    ghost var b1 := Written(buf);
    var w := AppendString(buf, at + total, s);
    if buf != null {
      WroteMore(b0, b1, buf[..], at, done, s);
    }
    sum := total + w;
  }

  method PutChar(buf: array?<char>, at: nat, c: char)
    requires buf != null ==> at + 1 < buf.Length
    modifies if buf == null then {} else {buf}
    ensures Partly(buf, old(Written(buf)), at, [c])
  {
    if buf != null {
      buf[at] := c;
    }
  }

  /** A character of a string, escaped or plain; a plain one gets no terminator behind it. */
  method PutEscaped(c: char, buf: array?<char>, ghost b0: string, at: nat, ghost done: string, total: nat) returns (sum: nat)
    requires total == |done| && Partly(buf, b0, at, done) && Room(buf, at, done + EscChar(c))
    modifies if buf == null then {} else {buf}
    ensures sum == |done + EscChar(c)| && Partly(buf, b0, at, done + EscChar(c))
  {
    hide EscChar, UEscape;
    EscCharShape(c);
    if |EscChar(c)| > 1 {
      sum := More(buf, b0, at, done, total, EscChar(c));
      return;
    }
    ghost var b1 := Written(buf);
    PutChar(buf, at + total, c);
    if buf != null {
      PutMore(b0, b1, buf[..], at, done, [c]);
    }
    sum := total + 1;
  }

  lemma StringStep(done: string, rest: string)
    requires rest != ""
    ensures done + EscString(rest) + "\"" == (done + EscChar(rest[0])) + EscString(rest[1..]) + "\""
  {
    hide EscChar, UEscape;
    var e, t := EscChar(rest[0]), EscString(rest[1..]);
    assert done + (e + t) + "\"" == (done + e) + t + "\"";
  }

  lemma PartFits(a: string, b: string, whole: string)
    requires a + b == whole
    ensures |a| + |b| == |whole|
  {
  }

  /** A string with its quotes and escapes. */
  method SerializeString(s: string, buf: array?<char>, at: nat) returns (written: nat)
    requires Room(buf, at, Quote(s))
    modifies if buf == null then {} else {buf}
    ensures written == |Quote(s)| && Done(buf, old(Written(buf)), at, Quote(s))
  {
    hide EscChar, EscString;
    ghost var b0 := Written(buf);
    Begin(buf, at);
    written := More(buf, b0, at, "", 0, "\"");
    ghost var done := "" + "\"";
    assert s[0..] == s;
    for i := 0 to |s|
      invariant written == |done| && Partly(buf, b0, at, done) && done + EscString(s[i..]) + "\"" == Quote(s)
    {
      assert s[i..][1..] == s[i+1..];
      StringStep(done, s[i..]);
      PartFits(done + EscChar(s[i]), EscString(s[i+1..]) + "\"", Quote(s));
      written := PutEscaped(s[i], buf, b0, at, done, written);
      done := done + EscChar(s[i]);
    }
    EmptyEnd(done, s);
    written := More(buf, b0, at, done, written, "\"");
  }

  lemma EmptyEnd(done: string, s: string)
    requires done + EscString(s[|s|..]) + "\"" == Quote(s)
    ensures done + "\"" == Quote(s)
  {
    assert s[|s|..] == "";
    assert done + "" == done;
  }

  // ---------------------------------------------------------------- values

  /** What remains of an array's text before element i. */
  function ItemsLeft(items: seq<JSON>, i: nat, level: nat, pretty: bool): string
    requires i <= |items|
  {
    (if i < |items| then Indent(level + 1, pretty) + Items(items[i..], level, pretty) else Indent(level, pretty)) + "]"
  }

  function MembersLeft(ms: seq<Member>, i: nat, level: nat, pretty: bool): string
    requires i <= |ms|
  {
    (if i < |ms| then Indent(level + 1, pretty) + Members(ms[i..], level, pretty) else Indent(level, pretty)) + "}"
  }

  function Comma(more: bool): string {
    if more then "," else ""
  }

  lemma ItemsLeftStep(items: seq<JSON>, i: nat, level: nat, pretty: bool)
    requires i < |items|
    ensures ItemsLeft(items, i, level, pretty) ==
            Indent(level + 1, pretty) + Text(items[i], level + 1, pretty) + Comma(i + 1 < |items|) + Newline(pretty)
              + ItemsLeft(items, i + 1, level, pretty)
  {
    hide Indent, Text, Newline;
    assert items[i..][1..] == items[i+1..];
    var a, t, n, b := Indent(level + 1, pretty), Text(items[i], level + 1, pretty), Newline(pretty), Indent(level, pretty);
    if i + 1 < |items| {
      var r := Items(items[i+1..], level, pretty);
      assert a + (t + ("," + n + a) + r) + "]" == a + t + "," + n + (a + r + "]");
    } else {
      assert a + (t + (n + b) + "") + "]" == a + t + "" + n + (b + "]");
    }
  }

  lemma MembersLeftStep(ms: seq<Member>, i: nat, level: nat, pretty: bool)
    requires i < |ms|
    ensures MembersLeft(ms, i, level, pretty) ==
            Indent(level + 1, pretty) + Named(ms[i], level, pretty) + Comma(i + 1 < |ms|) + Newline(pretty)
              + MembersLeft(ms, i + 1, level, pretty)
  {
    hide Indent, Named, Newline;
    assert ms[i..][1..] == ms[i+1..];
    var a, t, n, b := Indent(level + 1, pretty), Named(ms[i], level, pretty), Newline(pretty), Indent(level, pretty);
    if i + 1 < |ms| {
      var r := Members(ms[i+1..], level, pretty);
      assert a + (t + ("," + n + a) + r) + "}" == a + t + "," + n + (a + r + "}");
    } else {
      assert a + (t + (n + b) + "") + "}" == a + t + "" + n + (b + "}");
    }
  }

  method MoreIndent(buf: array?<char>, ghost b0: string, at: nat, ghost done: string, total: nat, level: nat, pretty: bool)
    returns (sum: nat)
    requires total == |done| && Partly(buf, b0, at, done) && Room(buf, at, done + Indent(level, pretty))
    modifies if buf == null then {} else {buf}
    ensures sum == |done + Indent(level, pretty)| && Partly(buf, b0, at, done + Indent(level, pretty))
  {
    sum := total;
    assert done + "" == done;
    if pretty {
      ghost var b1 := Written(buf);
      var w := AppendIndent(buf, at + total, level);
      if buf != null {
        PutMore(b0, b1, buf[..], at, done, Spaces(level));
      }
      sum := sum + w;
    }
  }

  method MoreNewline(buf: array?<char>, ghost b0: string, at: nat, ghost done: string, total: nat, pretty: bool)
    returns (sum: nat)
    requires total == |done| && Partly(buf, b0, at, done) && Room(buf, at, done + Newline(pretty))
    modifies if buf == null then {} else {buf}
    ensures sum == |done + Newline(pretty)| && Partly(buf, b0, at, done + Newline(pretty))
  {
    sum := total;
    assert done + "" == done;
    if pretty {
      sum := More(buf, b0, at, done, total, "\n");
    }
  }

  lemma {:induction false} NatTextShort(n: nat, k: nat, bound: nat)
    requires k > 0 && n < bound && bound == Power10(k)
    ensures |NatText(n)| <= k
  {
    if n >= 10 {
      NatTextShort(n / 10, k - 1, bound / 10);
    }
  }

  function Power10(k: nat): nat {
    if k == 0 then 1 else 10 * Power10(k - 1)
  }

  lemma IntTextShort(n: int)
    requires IsInt(n)
    ensures |IntText(n)| < NUM_BUF_SIZE
  {
    assert Power10(5) == 100_000;
    assert Power10(10) == 10_000_000_000;
    NatTextShort(if n < 0 then -n else n, 10, 10_000_000_000);
  }

  /** sprintf of a number, into the buffer or, when measuring, into the scratch array. */
  method SerializeNumber(n: int, buf: array?<char>, at: nat, numBuf: array?<char>) returns (written: nat)
    requires IsInt(n) && Room(buf, at, IntText(n)) && (buf == null ==> numBuf != null && numBuf.Length >= NUM_BUF_SIZE)
    modifies if buf == null then {} else {buf}, if numBuf == null then {} else {numBuf}
    ensures written == |IntText(n)| && Done(buf, old(Written(buf)), at, IntText(n))
  {
    IntTextShort(n);
    if buf != null {
      written := AppendString(buf, at, IntText(n));
    } else {
      written := AppendString(numBuf, 0, IntText(n));
    }
  }

  /** json_serialize_to_buffer_r: the number of bytes, and the bytes when there is a buffer. */
  method SerializeR(v: JSON, buf: array?<char>, at: nat, level: nat, pretty: bool, numBuf: array?<char>)
    returns (written: nat)
    requires Good(v) && Room(buf, at, Text(v, level, pretty))
    requires buf == null ==> numBuf != null && numBuf.Length >= NUM_BUF_SIZE
    requires numBuf == null || numBuf != buf
    modifies if buf == null then {} else {buf}, if numBuf == null then {} else {numBuf}
    ensures written == |Text(v, level, pretty)| && Done(buf, old(Written(buf)), at, Text(v, level, pretty))
    decreases v, 3
  {
    match v
    case JArr(items) => written := SerializeArray(v, buf, at, level, pretty, numBuf);
    case JObj(ms) => written := SerializeObject(v, buf, at, level, pretty, numBuf);
    case JStr(s) => written := SerializeString(s, buf, at);
    case JBool(b) =>
      written := AppendString(buf, at, if b then "true" else "false");
    case JNum(n) => written := SerializeNumber(n, buf, at, numBuf);
    case JNull => written := AppendString(buf, at, "null");
  }

  method MoreValue(v: JSON, buf: array?<char>, ghost b0: string, at: nat, ghost done: string, total: nat,
                   level: nat, pretty: bool, numBuf: array?<char>)
    returns (sum: nat)
    requires Good(v) && total == |done| && Partly(buf, b0, at, done) && Room(buf, at, done + Text(v, level, pretty))
    requires buf == null ==> numBuf != null && numBuf.Length >= NUM_BUF_SIZE
    requires numBuf == null || numBuf != buf
    modifies if buf == null then {} else {buf}, if numBuf == null then {} else {numBuf}
    ensures sum == |done + Text(v, level, pretty)| && Partly(buf, b0, at, done + Text(v, level, pretty))
    decreases v, 4
  {
    hide Text, Good;
    ghost var b1 := Written(buf);
    var w := SerializeR(v, buf, at + total, level, pretty, numBuf);
    if buf != null {
      PutMore(b0, b1, buf[..], at, done, Text(v, level, pretty));
    }
    sum := total + w;
  }

  /** What the loop over an array writes for element i. */
  function Element(items: seq<JSON>, i: nat, level: nat, pretty: bool): string
    requires i < |items|
  {
    Indent(level + 1, pretty) + Text(items[i], level + 1, pretty) + Comma(i + 1 < |items|) + Newline(pretty)
  }

  method SerializeElement(v: JSON, i: nat, buf: array?<char>, ghost b0: string, at: nat, ghost done: string, total: nat,
                          level: nat, pretty: bool, numBuf: array?<char>)
    returns (sum: nat)
    requires v.JArr? && i < |v.items| && Good(v.items[i])
    requires total == |done| && Partly(buf, b0, at, done) && Room(buf, at, done + Element(v.items, i, level, pretty))
    requires buf == null ==> numBuf != null && numBuf.Length >= NUM_BUF_SIZE
    requires numBuf == null || numBuf != buf
    modifies if buf == null then {} else {buf}, if numBuf == null then {} else {numBuf}
    ensures sum == |done + Element(v.items, i, level, pretty)|
    ensures Partly(buf, b0, at, done + Element(v.items, i, level, pretty))
    decreases v, 0, 1
  {
    hide Text, Good, Indent, Newline;
    ghost var a, t := Indent(level + 1, pretty), Text(v.items[i], level + 1, pretty);
    ghost var c, n := Comma(i + 1 < |v.items|), Newline(pretty);
    Pieces(done, a, t, c, n);
    sum := MoreIndent(buf, b0, at, done, total, level + 1, pretty);
    sum := MoreValue(v.items[i], buf, b0, at, done + a, sum, level + 1, pretty, numBuf);
    if i + 1 < |v.items| {
      sum := More(buf, b0, at, done + a + t, sum, ",");
    }
    sum := MoreNewline(buf, b0, at, done + a + t + c, sum, pretty);
  }

  lemma Pieces(done: string, a: string, t: string, c: string, n: string)
    ensures done + (a + t + c + n) == done + a + t + c + n
    ensures done + a + t + "" == done + a + t
  {
  }

  /** Something is always left: the closing bracket. */
  lemma LeftSome(v: JSON, i: nat, level: nat, pretty: bool)
    ensures v.JArr? && i <= |v.items| ==> ItemsLeft(v.items, i, level, pretty) != ""
    ensures v.JObj? && i <= |v.members| ==> MembersLeft(v.members, i, level, pretty) != ""
  {
  }

  lemma ArrayText(v: JSON, level: nat, pretty: bool)
    requires v.JArr? && v.items != []
    ensures Text(v, level, pretty) == "[" + Newline(pretty) + ItemsLeft(v.items, 0, level, pretty)
  {
    hide Newline, Indent, Items;
    assert v.items[0..] == v.items;
    var n, a, x := Newline(pretty), Indent(level + 1, pretty), Items(v.items, level, pretty);
    assert "[" + n + a + x + "]" == "[" + n + (a + x + "]");
  }

  /** Through the loop: the text is what is put so far and what is left from i on. */
  lemma ArrayStep(v: JSON, i: nat, done: string, level: nat, pretty: bool)
    requires v.JArr? && i < |v.items| && done + ItemsLeft(v.items, i, level, pretty) == Text(v, level, pretty)
    ensures var e := Element(v.items, i, level, pretty);
            && done + e + ItemsLeft(v.items, i + 1, level, pretty) == Text(v, level, pretty)
            && |done + e| < |Text(v, level, pretty)|
  {
    hide Text, Indent, Newline, ItemsLeft;
    ItemsLeftStep(v.items, i, level, pretty);
    var e, rest := Element(v.items, i, level, pretty), ItemsLeft(v.items, i + 1, level, pretty);
    assert done + (e + rest) == done + e + rest;
    LeftSome(v, i + 1, level, pretty);
  }

  method SerializeArray(v: JSON, buf: array?<char>, at: nat, level: nat, pretty: bool, numBuf: array?<char>)
    returns (written: nat)
    requires v.JArr? && Good(v) && Room(buf, at, Text(v, level, pretty))
    requires buf == null ==> numBuf != null && numBuf.Length >= NUM_BUF_SIZE
    requires numBuf == null || numBuf != buf
    modifies if buf == null then {} else {buf}, if numBuf == null then {} else {numBuf}
    ensures written == |Text(v, level, pretty)| && Done(buf, old(Written(buf)), at, Text(v, level, pretty))
    decreases v, 2
  {
    ghost var b0 := Written(buf);
    Begin(buf, at);
    var count := |v.items|;
    written := More(buf, b0, at, "", 0, "[");
    if count > 0 {
      written := SerializeItems(v, buf, b0, at, level, pretty, numBuf);
      return;
    }
    assert "" + "[" + "]" == "[]";
    written := More(buf, b0, at, "" + "[", written, "]");
  }

  method SerializeItems(v: JSON, buf: array?<char>, ghost b0: string, at: nat, level: nat, pretty: bool, numBuf: array?<char>)
    returns (written: nat)
    requires v.JArr? && v.items != [] && Good(v) && Room(buf, at, Text(v, level, pretty)) && Partly(buf, b0, at, "[")
    requires buf == null ==> numBuf != null && numBuf.Length >= NUM_BUF_SIZE
    requires numBuf == null || numBuf != buf
    modifies if buf == null then {} else {buf}, if numBuf == null then {} else {numBuf}
    ensures written == |Text(v, level, pretty)| && Done(buf, b0, at, Text(v, level, pretty))
    decreases v, 1
  {
    hide Text, Indent, Newline, Element, ItemsLeft;
    ArrayText(v, level, pretty);
    ghost var done := "[" + Newline(pretty);
    PartFits(done, ItemsLeft(v.items, 0, level, pretty), Text(v, level, pretty));
    written := MoreNewline(buf, b0, at, "[", 1, pretty);
    for i := 0 to |v.items|
      invariant written == |done| && Partly(buf, b0, at, done)
      invariant done + ItemsLeft(v.items, i, level, pretty) == Text(v, level, pretty)
    {
      ArrayStep(v, i, done, level, pretty);
      written := SerializeElement(v, i, buf, b0, at, done, written, level, pretty, numBuf);
      done := done + Element(v.items, i, level, pretty);
    }
    ArrayEnd(v, done, level, pretty);
    written := MoreIndent(buf, b0, at, done, written, level, pretty);
    written := More(buf, b0, at, done + Indent(level, pretty), written, "]");
  }

  lemma ArrayEnd(v: JSON, done: string, level: nat, pretty: bool)
    requires v.JArr? && done + ItemsLeft(v.items, |v.items|, level, pretty) == Text(v, level, pretty)
    ensures done + Indent(level, pretty) + "]" == Text(v, level, pretty)
  {
    hide Text, Indent;
    assert done + (Indent(level, pretty) + "]") == done + Indent(level, pretty) + "]";
  }

  // ---------------------------------------------------------------- members

  function NamedMember(ms: seq<Member>, i: nat, level: nat, pretty: bool): string
    requires i < |ms|
  {
    Indent(level + 1, pretty) + Named(ms[i], level, pretty) + Comma(i + 1 < |ms|) + Newline(pretty)
  }

  function Blank(pretty: bool): string {
    if pretty then " " else ""
  }

  lemma NamedPieces(m: Member, done: string, level: nat, pretty: bool)
    ensures done + Named(m, level, pretty) == done + Quote(m.name) + ":" + Blank(pretty) + Text(m.value, level + 1, pretty)
  {
    hide Quote, Text;
    var q, b, t := Quote(m.name), Blank(pretty), Text(m.value, level + 1, pretty);
    assert done + (q + ":" + b + t) == done + q + ":" + b + t;
  }

  /** The key, a colon and the value looked up by the key. */
  method SerializeNamed(v: JSON, i: nat, buf: array?<char>, ghost b0: string, at: nat, ghost done: string, total: nat,
                        level: nat, pretty: bool, numBuf: array?<char>)
    returns (sum: nat)
    requires v.JObj? && i < |v.members| && Good(v)
    requires total == |done| && Partly(buf, b0, at, done) && Room(buf, at, done + Named(v.members[i], level, pretty))
    requires buf == null ==> numBuf != null && numBuf.Length >= NUM_BUF_SIZE
    requires numBuf == null || numBuf != buf
    modifies if buf == null then {} else {buf}, if numBuf == null then {} else {numBuf}
    ensures sum == |done + Named(v.members[i], level, pretty)|
    ensures Partly(buf, b0, at, done + Named(v.members[i], level, pretty))
    decreases v, 0, 0
  {
    hide Text, Named, Quote;
    var key := v.members[i].name;
    ghost var q, b := Quote(key), Blank(pretty);
    NamedPieces(v.members[i], done, level, pretty);
    sum := MoreQuoted(key, buf, b0, at, done, total);
    sum := More(buf, b0, at, done + q, sum, ":");
    assert done + q + ":" + "" == done + q + ":";
    if pretty {
      sum := More(buf, b0, at, done + q + ":", sum, " ");
    }
    assert Find(v.members, key) == i && GoodMember(v.members[i]);
    var value := v.members[Find(v.members, key)].value;
    sum := MoreValue(value, buf, b0, at, done + q + ":" + b, sum, level + 1, pretty, numBuf);
  }

  method MoreQuoted(s: string, buf: array?<char>, ghost b0: string, at: nat, ghost done: string, total: nat)
    returns (sum: nat)
    requires total == |done| && Partly(buf, b0, at, done) && Room(buf, at, done + Quote(s))
    modifies if buf == null then {} else {buf}
    ensures sum == |done + Quote(s)| && Partly(buf, b0, at, done + Quote(s))
  {
    hide Quote;
    ghost var b1 := Written(buf);
    var w := SerializeString(s, buf, at + total);
    if buf != null {
      PutMore(b0, b1, buf[..], at, done, Quote(s));
    }
    sum := total + w;
  }

  method SerializeNamedMember(v: JSON, i: nat, buf: array?<char>, ghost b0: string, at: nat, ghost done: string, total: nat,
                              level: nat, pretty: bool, numBuf: array?<char>)
    returns (sum: nat)
    requires v.JObj? && i < |v.members| && Good(v)
    requires total == |done| && Partly(buf, b0, at, done)
    requires Room(buf, at, done + NamedMember(v.members, i, level, pretty))
    requires buf == null ==> numBuf != null && numBuf.Length >= NUM_BUF_SIZE
    requires numBuf == null || numBuf != buf
    modifies if buf == null then {} else {buf}, if numBuf == null then {} else {numBuf}
    ensures sum == |done + NamedMember(v.members, i, level, pretty)|
    ensures Partly(buf, b0, at, done + NamedMember(v.members, i, level, pretty))
    decreases v, 0, 1
  {
    hide Text, Good, Indent, Newline, Named;
    ghost var a, t := Indent(level + 1, pretty), Named(v.members[i], level, pretty);
    ghost var c, n := Comma(i + 1 < |v.members|), Newline(pretty);
    Pieces(done, a, t, c, n);
    sum := MoreIndent(buf, b0, at, done, total, level + 1, pretty);
    sum := SerializeNamed(v, i, buf, b0, at, done + a, sum, level, pretty, numBuf);
    if i + 1 < |v.members| {
      sum := More(buf, b0, at, done + a + t, sum, ",");
    }
    sum := MoreNewline(buf, b0, at, done + a + t + c, sum, pretty);
  }

  lemma ObjectText(v: JSON, level: nat, pretty: bool)
    requires v.JObj? && v.members != []
    ensures Text(v, level, pretty) == "{" + Newline(pretty) + MembersLeft(v.members, 0, level, pretty)
  {
    hide Newline, Indent, Members;
    assert v.members[0..] == v.members;
    var n, a, x := Newline(pretty), Indent(level + 1, pretty), Members(v.members, level, pretty);
    assert "{" + n + a + x + "}" == "{" + n + (a + x + "}");
  }

  /** Through the loop: the text is what is put so far and what is left from i on. */
  lemma ObjectStep(v: JSON, i: nat, done: string, level: nat, pretty: bool)
    requires v.JObj? && i < |v.members| && done + MembersLeft(v.members, i, level, pretty) == Text(v, level, pretty)
    ensures var e := NamedMember(v.members, i, level, pretty);
            && done + e + MembersLeft(v.members, i + 1, level, pretty) == Text(v, level, pretty)
            && |done + e| < |Text(v, level, pretty)|
  {
    hide Text, Indent, Newline, MembersLeft;
    MembersLeftStep(v.members, i, level, pretty);
    var e, rest := NamedMember(v.members, i, level, pretty), MembersLeft(v.members, i + 1, level, pretty);
    assert done + (e + rest) == done + e + rest;
    LeftSome(v, i + 1, level, pretty);
  }

  method SerializeObject(v: JSON, buf: array?<char>, at: nat, level: nat, pretty: bool, numBuf: array?<char>)
    returns (written: nat)
    requires v.JObj? && Good(v) && Room(buf, at, Text(v, level, pretty))
    requires buf == null ==> numBuf != null && numBuf.Length >= NUM_BUF_SIZE
    requires numBuf == null || numBuf != buf
    modifies if buf == null then {} else {buf}, if numBuf == null then {} else {numBuf}
    ensures written == |Text(v, level, pretty)| && Done(buf, old(Written(buf)), at, Text(v, level, pretty))
    decreases v, 2
  {
    ghost var b0 := Written(buf);
    Begin(buf, at);
    var count := |v.members|;
    written := More(buf, b0, at, "", 0, "{");
    if count > 0 {
      written := SerializeMembers(v, buf, b0, at, level, pretty, numBuf);
      return;
    }
    assert "" + "{" + "}" == "{}";
    written := More(buf, b0, at, "" + "{", written, "}");
  }

  method SerializeMembers(v: JSON, buf: array?<char>, ghost b0: string, at: nat, level: nat, pretty: bool, numBuf: array?<char>)
    returns (written: nat)
    requires v.JObj? && v.members != [] && Good(v) && Room(buf, at, Text(v, level, pretty)) && Partly(buf, b0, at, "{")
    requires buf == null ==> numBuf != null && numBuf.Length >= NUM_BUF_SIZE
    requires numBuf == null || numBuf != buf
    modifies if buf == null then {} else {buf}, if numBuf == null then {} else {numBuf}
    ensures written == |Text(v, level, pretty)| && Done(buf, b0, at, Text(v, level, pretty))
    decreases v, 1
  {
    hide Text, Indent, Newline, NamedMember, MembersLeft;
    ObjectText(v, level, pretty);
    ghost var done := "{" + Newline(pretty);
    PartFits(done, MembersLeft(v.members, 0, level, pretty), Text(v, level, pretty));
    written := MoreNewline(buf, b0, at, "{", 1, pretty);
    for i := 0 to |v.members|
      invariant written == |done| && Partly(buf, b0, at, done)
      invariant done + MembersLeft(v.members, i, level, pretty) == Text(v, level, pretty)
    {
      ObjectStep(v, i, done, level, pretty);
      written := SerializeNamedMember(v, i, buf, b0, at, done, written, level, pretty, numBuf);
      done := done + NamedMember(v.members, i, level, pretty);
    }
    ObjectEnd(v, done, level, pretty);
    written := MoreIndent(buf, b0, at, done, written, level, pretty);
    written := More(buf, b0, at, done + Indent(level, pretty), written, "}");
  }

  lemma ObjectEnd(v: JSON, done: string, level: nat, pretty: bool)
    requires v.JObj? && done + MembersLeft(v.members, |v.members|, level, pretty) == Text(v, level, pretty)
    ensures done + Indent(level, pretty) + "}" == Text(v, level, pretty)
  {
    hide Text, Indent;
    assert done + (Indent(level, pretty) + "}") == done + Indent(level, pretty) + "}";
  }

  // ---------------------------------------------------------------- the two passes

  /** The measuring pass: the bytes of the text and its terminator. */
  method SerializationSize(v: JSON, pretty: bool) returns (size: nat)
    requires Good(v)
    ensures size == |Text(v, 0, pretty)| + 1
  {
    var numBuf := new char[NUM_BUF_SIZE];
    var res := SerializeR(v, null, 0, 0, pretty, numBuf);
    size := res + 1;
  }

  /** The writing pass, refused when the buffer is too small. */
  method SerializeToBuffer(v: JSON, buf: array<char>, pretty: bool) returns (ok: bool)
    requires Good(v)
    modifies buf
    ensures ok == (|Text(v, 0, pretty)| < buf.Length)
    ensures ok ==> Wrote(old(buf[..]), buf[..], 0, Text(v, 0, pretty))
    ensures !ok ==> buf[..] == old(buf[..])
  {
    var needed := SerializationSize(v, pretty);
    if buf.Length < needed {
      return false;
    }
    var written := SerializeR(v, buf, 0, 0, pretty, null);
    return true;
  }

  /** A buffer of exactly the measured size, filled to its terminator. */
  method SerializeToString(v: JSON, pretty: bool) returns (buf: array<char>)
    requires Good(v)
    ensures fresh(buf) && buf[..] == Text(v, 0, pretty) + [NUL]
  {
    var size := SerializationSize(v, pretty);
    buf := new char[size];
    var ok := SerializeToBuffer(v, buf, pretty);
    assert buf[..size] == buf[..];
    assert buf[..] == buf[..size-1] + [buf[size-1]];
  }
}
