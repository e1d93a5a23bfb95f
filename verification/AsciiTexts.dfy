/**
 The bytes of printed text are in the range of the bytes of the strings in the value: ASCII
 strings print as ASCII text, which is valid UTF-8, and C strings as a C string.
 */
module AsciiTexts {
  import opened CStrings
  import opened Utf8
  import opened Numbers
  import opened Escapes
  import opened JsonValue
  import opened JsonPrint
  import opened Grammar
  import opened RoundTrip

  /** No terminator and no byte of n or more. */
  predicate Upto(s: string, n: int) {
    forall i :: 0 <= i < |s| ==> 0 < s[i] as int < n
  }

  predicate Ascii(s: string) {
    Upto(s, 128)
  }

  ghost predicate UptoJson(v: JSON, n: int) {
    match v
    case JStr(s) => Upto(s, n)
    case JArr(xs) => forall i :: 0 <= i < |xs| ==> UptoJson(xs[i], n)
    case JObj(ms) => forall i :: 0 <= i < |ms| ==> Upto(ms[i].name, n) && UptoJson(ms[i].value, n)
    case _ => true
  }

  ghost predicate AsciiJson(v: JSON) {
    UptoJson(v, 128)
  }

  lemma UptoJoin(a: string, b: string, n: int)
    requires Upto(a, n) && Upto(b, n)
    ensures Upto(a + b, n)
  {
  }

  lemma UptoJoin3(a: string, b: string, c: string, n: int)
    requires Upto(a, n) && Upto(b, n) && Upto(c, n)
    ensures Upto(a + b + c, n)
  {
  }

  lemma UptoJoin5(a: string, b: string, c: string, d: string, e: string, n: int)
    requires Upto(a, n) && Upto(b, n) && Upto(c, n) && Upto(d, n) && Upto(e, n)
    ensures Upto(a + b + c + d + e, n)
  {
    UptoJoin3(a, b, c, n);
    UptoJoin3(a + b + c, d, e, n);
  }

  lemma {:induction false} AsciiValid(s: string)
    requires Ascii(s)
    ensures ValidUtf8(s) && IsText(s)
    decreases |s|
  {
    if s != "" {
      assert SequenceOk(s) && NumBytes(s[0]) == 1;
      AsciiValid(s[1..]);
    }
  }

  lemma {:induction false} UptoEsc(s: string, n: int)
    requires Upto(s, n) && n >= 128
    ensures Upto(EscString(s), n)
  {
    if s != "" {
      UptoEsc(s[1..], n);
      EscCharUpto(s[0], n);
      UptoJoin(EscChar(s[0]), EscString(s[1..]), n);
    }
  }

  lemma EscCharUpto(c: char, n: int)
    requires 0 < c as int < n && n >= 128
    ensures Upto(EscChar(c), n)
  {
    var e := EscChar(c);
    EscCharShape(c);
    if |e| == 6 {
      U4Hex(c as int, "");
      assert U4(c as int) + "" == U4(c as int);
    }
  }

  lemma UptoQuote(s: string, n: int)
    requires Upto(s, n) && n >= 128
    ensures Upto(Quote(s), n)
  {
    UptoEsc(s, n);
    UptoJoin("\"", EscString(s), n);
    UptoJoin("\"" + EscString(s), "\"", n);
  }

  lemma UptoLayout(level: nat, pretty: bool, more: bool, n: int)
    requires n >= 128
    ensures Upto(Newline(pretty), n) && Upto(Indent(level, pretty), n) && Upto(Between(more, level, pretty), n)
  {
    SpacesGap(level);
    SpacesGap(level + 1);
    UptoSpaces(Spaces(level), n);
    UptoSpaces(Spaces(level + 1), n);
  }

  lemma UptoSpaces(s: string, n: int)
    requires Gap(s) && n >= 128
    ensures Upto(s, n)
  {
  }

  lemma UptoInt(k: int, n: int)
    requires n >= 128
    ensures Upto(IntText(k), n)
  {
    var s := NatText(if k < 0 then -k else k);
    assert forall i :: 0 <= i < |s| ==> IsDigit(s[i]);
  }

  /** Printing adds no byte beyond ASCII. */
  lemma {:induction false} TextUpto(v: JSON, level: nat, pretty: bool, n: int)
    requires UptoJson(v, n) && n >= 128
    ensures Upto(Text(v, level, pretty), n)
    decreases v, 1
  {
    if v.JArr? {
      ArrayUpto(v.items, level, pretty, n);
    } else if v.JObj? {
      ObjectUpto(v.members, level, pretty, n);
    } else if v.JStr? {
      UptoQuote(v.s, n);
    } else if v.JNum? {
      UptoInt(v.n, n);
    }
  }

  lemma {:induction false} ArrayUpto(xs: seq<JSON>, level: nat, pretty: bool, n: int)
    requires n >= 128 && forall i :: 0 <= i < |xs| ==> UptoJson(xs[i], n)
    ensures Upto(Text(JArr(xs), level, pretty), n)
    decreases xs, 1
  {
    hide UptoJson, Items, Newline, Indent;
    ItemsUpto(xs, level, pretty, n);
    UptoLayout(level + 1, pretty, true, n);
    UptoJoin5("[", Newline(pretty), Indent(level + 1, pretty), Items(xs, level, pretty), "]", n);
  }

  lemma {:induction false} ObjectUpto(ms: seq<Member>, level: nat, pretty: bool, n: int)
    requires n >= 128 && forall i :: 0 <= i < |ms| ==> Upto(ms[i].name, n) && UptoJson(ms[i].value, n)
    ensures Upto(Text(JObj(ms), level, pretty), n)
    decreases ms, 1
  {
    hide UptoJson, Members, Newline, Indent;
    MembersUpto(ms, level, pretty, n);
    UptoLayout(level + 1, pretty, true, n);
    UptoJoin5("{", Newline(pretty), Indent(level + 1, pretty), Members(ms, level, pretty), "}", n);
  }

  lemma {:induction false} ItemsUpto(xs: seq<JSON>, level: nat, pretty: bool, n: int)
    requires n >= 128 && forall i :: 0 <= i < |xs| ==> UptoJson(xs[i], n)
    ensures Upto(Items(xs, level, pretty), n)
    decreases xs, 0
  {
    if xs != [] {
      hide Text, Between, UptoJson;
      TextUpto(xs[0], level + 1, pretty, n);
      UptoLayout(level, pretty, |xs| > 1, n);
      ItemsUpto(xs[1..], level, pretty, n);
      UptoJoin3(Text(xs[0], level + 1, pretty), Between(|xs| > 1, level, pretty), Items(xs[1..], level, pretty), n);
    }
  }

  lemma {:induction false} MembersUpto(ms: seq<Member>, level: nat, pretty: bool, n: int)
    requires n >= 128 && forall i :: 0 <= i < |ms| ==> Upto(ms[i].name, n) && UptoJson(ms[i].value, n)
    ensures Upto(Members(ms, level, pretty), n)
    decreases ms, 0
  {
    if ms != [] {
      hide Text, Between, UptoJson, Quote;
      TextUpto(ms[0].value, level + 1, pretty, n);
      NamedUpto(ms[0], level, pretty, n);
      UptoLayout(level, pretty, |ms| > 1, n);
      MembersUpto(ms[1..], level, pretty, n);
      UptoJoin3(Named(ms[0], level, pretty), Between(|ms| > 1, level, pretty), Members(ms[1..], level, pretty), n);
    }
  }

  lemma NamedUpto(m: Member, level: nat, pretty: bool, n: int)
    requires n >= 128 && Upto(m.name, n) && Upto(Text(m.value, level + 1, pretty), n)
    ensures Upto(Named(m, level, pretty), n)
  {
    hide Text, Quote;
    UptoQuote(m.name, n);
    var blank := if pretty then " " else "";
    UptoJoin3(Quote(m.name), ":", blank, n);
    UptoJoin(Quote(m.name) + ":" + blank, Text(m.value, level + 1, pretty), n);
  }

  // ---------------------------------------------------------------- the two uses

  lemma AsciiText(v: JSON, level: nat, pretty: bool)
    requires AsciiJson(v)
    ensures Ascii(Text(v, level, pretty))
  {
    hide Text, UptoJson;
    TextUpto(v, level, pretty, 128);
  }

  lemma {:induction false} GoodUpto(v: JSON)
    requires Good(v)
    ensures UptoJson(v, 256)
  {
    match v
    case JArr(xs) =>
      forall i | 0 <= i < |xs| ensures UptoJson(xs[i], 256) {
        GoodUpto(xs[i]);
      }
    case JObj(ms) =>
      forall i | 0 <= i < |ms| ensures Upto(ms[i].name, 256) && UptoJson(ms[i].value, 256) {
        assert GoodMember(ms[i]);
        GoodUpto(ms[i].value);
      }
    case _ =>
  }

  /** A printed value is a C string. */
  lemma PrintedIsText(v: JSON, level: nat, pretty: bool)
    requires Good(v)
    ensures IsText(Text(v, level, pretty))
  {
    hide Text, UptoJson, Good;
    GoodUpto(v);
    TextUpto(v, level, pretty, 256);
  }
}
