/** Printed values read back, compact or pretty, whatever may follow them. */
module RoundTrip {
  import opened CStrings
  import opened Numbers
  import opened Escapes
  import opened JsonValue
  import opened JsonPrint
  import opened JsonParse
  import opened Grammar

  // ---------------------------------------------------------------- the form of a printed value

  function NewLine(level: nat, pretty: bool): string {
    Newline(pretty) + Indent(level, pretty)
  }

  function FormOf(v: JSON, level: nat, pretty: bool): Form
    decreases v
  {
    match v
    case JStr(s) => Lit(EscString(s))
    case JArr(items) => if items == [] then NoElems("") else Elems(ElemsOf(items, level, pretty))
    case JObj(ms) => if ms == [] then NoBinds("") else Binds(BindsOf(ms, level, pretty))
    case _ => Word(v)
  }

  /** The gap behind an element: the closing bracket's line, or nothing before a comma. */
  function GapBehind(more: bool, level: nat, pretty: bool): string {
    if more then "" else NewLine(level, pretty)
  }

  function ElemsOf(items: seq<JSON>, level: nat, pretty: bool): (es: seq<Elem>)
    ensures |es| == |items|
    decreases items
  {
    if items == [] then []
    else
      [Elem(NewLine(level + 1, pretty), FormOf(items[0], level + 1, pretty), GapBehind(|items| > 1, level, pretty))]
        + ElemsOf(items[1..], level, pretty)
  }

  function BindOf(m: Member, more: bool, level: nat, pretty: bool): Bind
    decreases m
  {
    Bind(NewLine(level + 1, pretty), EscString(m.name), "",
         Elem(if pretty then " " else "", FormOf(m.value, level + 1, pretty), GapBehind(more, level, pretty)))
  }

  function BindsOf(ms: seq<Member>, level: nat, pretty: bool): (bs: seq<Bind>)
    ensures |bs| == |ms|
    decreases ms
  {
    if ms == [] then [] else [BindOf(ms[0], |ms| > 1, level, pretty)] + BindsOf(ms[1..], level, pretty)
  }

  // ---------------------------------------------------------------- it is written as printed

  lemma Bracketed(open: string, nl: string, ind: string, x: string, close: string)
    ensures open + ((nl + ind) + x + close) == open + nl + ind + x + close
  {
  }

  lemma {:induction false} FormWritten(v: JSON, level: nat, pretty: bool)
    ensures Written(FormOf(v, level, pretty)) == Text(v, level, pretty)
    decreases v, 1
  {
    hide Items, Members, WrittenElems, WrittenBinds, IntText, Indent, Newline;
    var nl, ind := Newline(pretty), Indent(level + 1, pretty);
    if v.JArr? && v.items != [] {
      ElemsWritten(v.items, level, pretty);
      Bracketed("[", nl, ind, Items(v.items, level, pretty), "]");
    } else if v.JObj? && v.members != [] {
      BindsWritten(v.members, level, pretty);
      Bracketed("{", nl, ind, Members(v.members, level, pretty), "}");
    }
  }

  /** An element between its gaps, and what follows it: the next element's line belongs to either. */
  lemma Regrouped(nl: string, t: string, ni: string, close: string, x: string)
    ensures (nl + t + "") + ("," + (ni + x)) == nl + (t + ("," + ni) + x)
    ensures nl + t + close == nl + (t + close + "")
  {
  }

  lemma LineOf(level: nat, pretty: bool)
    ensures Between(true, level, pretty) == "," + NewLine(level + 1, pretty)
    ensures Between(false, level, pretty) == NewLine(level, pretty)
  {
  }

  lemma InGaps(before: string, t: string, after: string)
    ensures before + (t + after) == before + t + after
  {
  }

  lemma {:induction false} ElemsWritten(items: seq<JSON>, level: nat, pretty: bool)
    requires items != []
    ensures WrittenElems(ElemsOf(items, level, pretty)) == NewLine(level + 1, pretty) + Items(items, level, pretty)
    decreases items, 0
  {
    var es := ElemsOf(items, level, pretty);
    var nl, t := NewLine(level + 1, pretty), Text(items[0], level + 1, pretty);
    assert es[1..] == ElemsOf(items[1..], level, pretty);
    FormWritten(items[0], level + 1, pretty);
    LineOf(level, pretty);
    Regrouped(nl, t, nl, NewLine(level, pretty), Items(items[1..], level, pretty));
    hide Text, FormOf, Written, NewLine, Between;
    if |items| > 1 {
      ElemsWritten(items[1..], level, pretty);
      InGaps(nl, t, "");
    } else {
      InGaps(nl, t, NewLine(level, pretty));
    }
  }

  lemma {:induction false} BindWritten(m: Member, more: bool, level: nat, pretty: bool)
    ensures WrittenBind(BindOf(m, more, level, pretty)) ==
            NewLine(level + 1, pretty) + Named(m, level, pretty) + GapBehind(more, level, pretty)
    decreases m, 2
  {
    FormWritten(m.value, level + 1, pretty);
    hide Text, FormOf, Written, EscString;
  }

  lemma {:induction false} BindsWritten(ms: seq<Member>, level: nat, pretty: bool)
    requires ms != []
    ensures WrittenBinds(BindsOf(ms, level, pretty)) == NewLine(level + 1, pretty) + Members(ms, level, pretty)
    decreases ms, 0
  {
    var bs := BindsOf(ms, level, pretty);
    var nl, t := NewLine(level + 1, pretty), Named(ms[0], level, pretty);
    assert bs[1..] == BindsOf(ms[1..], level, pretty);
    BindWritten(ms[0], |ms| > 1, level, pretty);
    LineOf(level, pretty);
    Regrouped(nl, t, nl, NewLine(level, pretty), Members(ms[1..], level, pretty));
    hide WrittenBind, BindOf, Named, NewLine, Between;
    if |ms| > 1 {
      BindsWritten(ms[1..], level, pretty);
    }
  }

  // ---------------------------------------------------------------- it means the value

  lemma {:induction false} SpacesGap(n: nat)
    ensures Gap(Spaces(n))
  {
    if n > 0 {
      SpacesGap(n - 1);
    }
  }

  lemma EscDecoded(s: string)
    requires IsText(s)
    ensures Closed(EscString(s)) && Decoded(EscString(s)) == s
  {
    hide EscString, Skip;
    EscStringSkips(s, "");
    assert EscString(s) + "\"" + "" == EscString(s) + "\"";
    EscStringContent(s);
    NoNulWhole(s);
  }

  lemma {:induction false} FormMeans(v: JSON, level: nat, pretty: bool)
    requires Good(v)
    ensures Proper(FormOf(v, level, pretty)) && Meaning(FormOf(v, level, pretty)) == v
    decreases v, 1
  {
    hide Closed, Decoded, EscString;
    if v.JStr? {
      EscDecoded(v.s);
    } else if v.JArr? && v.items != [] {
      ElemsMean(v.items, level, pretty);
    } else if v.JObj? && v.members != [] {
      BindsMean(v.members, level, pretty);
    }
  }

  lemma {:induction false} ElemsMean(items: seq<JSON>, level: nat, pretty: bool)
    requires forall i :: 0 <= i < |items| ==> Good(items[i])
    ensures forall i :: 0 <= i < |items| ==> ProperElem(ElemsOf(items, level, pretty)[i])
    ensures Meanings(ElemsOf(items, level, pretty)) == items
    decreases items, 0
  {
    hide Good, Proper, Meaning, FormOf;
    if items != [] {
      var es := ElemsOf(items, level, pretty);
      assert es[1..] == ElemsOf(items[1..], level, pretty);
      SpacesGap(level);
      SpacesGap(level + 1);
      FormMeans(items[0], level + 1, pretty);
      ElemsMean(items[1..], level, pretty);
    }
  }

  lemma {:induction false} BindsMean(ms: seq<Member>, level: nat, pretty: bool)
    requires forall i :: 0 <= i < |ms| ==> GoodMember(ms[i])
    ensures forall i :: 0 <= i < |ms| ==> ProperBind(BindsOf(ms, level, pretty)[i])
    ensures Bound(BindsOf(ms, level, pretty)) == ms
    decreases ms, 0
  {
    hide Good, Proper, Meaning, FormOf, Closed, Decoded, EscString;
    if ms != [] {
      var bs := BindsOf(ms, level, pretty);
      assert bs[1..] == BindsOf(ms[1..], level, pretty);
      assert GoodMember(ms[0]);
      SpacesGap(level);
      SpacesGap(level + 1);
      EscDecoded(ms[0].name);
      FormMeans(ms[0].value, level + 1, pretty);
      BindsMean(ms[1..], level, pretty);
    }
  }

  // ---------------------------------------------------------------- so it is read back

  /** Parsing printed text gives the value back and leaves what follows. */
  lemma TextBack(v: JSON, level: nat, pretty: bool, nesting: nat, rest: string)
    requires Good(v) && FitsAt(v, nesting) && Ended(v, rest)
    ensures ParseValue(Text(v, level, pretty) + rest, nesting) == Read(Parsed(v, rest))
  {
    hide *;
    FormWritten(v, level, pretty);
    FormMeans(v, level, pretty);
    FormBack(FormOf(v, level, pretty), nesting, rest);
  }

  lemma TextAlone(v: JSON, pretty: bool)
    requires Good(v) && FitsAt(v, 0)
    ensures ParseValue(Text(v, 0, pretty), 0) == Read(Parsed(v, ""))
  {
    TextBack(v, 0, pretty, 0, "");
    assert Text(v, 0, pretty) + "" == Text(v, 0, pretty);
  }

  /** Parsing the printed text of a value gives the value, with its members in order. */
  lemma PrintThenParse(v: JSON, pretty: bool)
    requires Good(v) && FitsAt(v, 0)
    ensures JsonParseString(Text(v, 0, pretty)) == Read(v)
  {
    TextAlone(v, pretty);
    NoMark(v, 0, pretty, "");
    assert Text(v, 0, pretty) + "" == Text(v, 0, pretty);
  }

  /** No printed text begins with a byte order mark. */
  lemma NoMark(v: JSON, level: nat, pretty: bool, rest: string)
    ensures !Begins(Text(v, level, pretty) + rest, [0xEF as char, 0xBB as char, 0xBF as char])
  {
    IntHead(if v.JNum? then v.n else 0);
    var t, mark := Text(v, level, pretty), [0xEF as char, 0xBB as char, 0xBF as char];
    assert t != "" && t[0] != mark[0];
    assert |t + rest| >= 3 ==> (t + rest)[..3][0] == t[0];
  }
}
