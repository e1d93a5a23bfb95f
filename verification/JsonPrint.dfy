/** The text the serializer writes, compact or pretty. */
module JsonPrint {
  import opened JsonValue
  import opened Numbers
  import opened Escapes

  function Newline(pretty: bool): string {
    if pretty then "\n" else ""
  }

  function Spaces(n: nat): string {
    if n == 0 then "" else "    " + Spaces(n - 1)
  }

  function Indent(level: nat, pretty: bool): string {
    if pretty then Spaces(level) else ""
  }

  function Text(v: JSON, level: nat, pretty: bool): string
    decreases v
  {
    match v
    case JNull => "null"
    case JBool(b) => if b then "true" else "false"
    case JNum(n) => IntText(n)
    case JStr(s) => Quote(s)
    case JArr(items) =>
      if items == [] then "[]"
      else "[" + Newline(pretty) + Indent(level + 1, pretty) + Items(items, level, pretty) + "]"
    case JObj(ms) =>
      if ms == [] then "{}"
      else "{" + Newline(pretty) + Indent(level + 1, pretty) + Members(ms, level, pretty) + "}"
  }

  /** What follows an element or member: a comma and the next line's indent, or the closing line's. */
  function Between(more: bool, level: nat, pretty: bool): string {
    if more then "," + Newline(pretty) + Indent(level + 1, pretty) else Newline(pretty) + Indent(level, pretty)
  }

  function Items(items: seq<JSON>, level: nat, pretty: bool): string
    decreases items
  {
    if items == [] then ""
    else Text(items[0], level + 1, pretty) + Between(|items| > 1, level, pretty) + Items(items[1..], level, pretty)
  }

  function Named(m: Member, level: nat, pretty: bool): string
    decreases m
  {
    Quote(m.name) + ":" + (if pretty then " " else "") + Text(m.value, level + 1, pretty)
  }

  function Members(ms: seq<Member>, level: nat, pretty: bool): string
    decreases ms
  {
    if ms == [] then ""
    else Named(ms[0], level, pretty) + Between(|ms| > 1, level, pretty) + Members(ms[1..], level, pretty)
  }
}
