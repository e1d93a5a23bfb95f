/** Messages as JSON text: an object with four numbers and, when there is one, the payload. */
module Messages {
  import opened Wrappers
  import opened CStrings
  import opened Utf8
  import opened Numbers
  import opened Escapes
  import opened JsonValue
  import opened JsonObjects
  import opened JsonPrint
  import opened JsonParse
  import opened RoundTrip
  import opened JsonSerializer
  import opened JsonParser
  import opened AsciiTexts

  datatype WireMsg = WireMsg(kind: int, userId: int, fileId: int, fileVersion: int, payload: Option<string>)

  predicate Sendable(m: WireMsg) {
    && IsInt(m.kind) && IsInt(m.userId) && IsInt(m.fileId) && IsInt(m.fileVersion)
    && (m.payload.Some? ==> IsText(m.payload.value))
  }

  // ---------------------------------------------------------------- the object of a message

  /** The payload as a value: none when there is none or it is not UTF-8. */
  function PayloadValue(p: Option<string>): Option<JSON> {
    if p.Some? && ValidUtf8(p.value) then Some(JStr(p.value)) else None
  }

  function Fields(m: WireMsg): seq<Member> {
    [Member("type", JNum(m.kind)), Member("user_id", JNum(m.userId)),
     Member("file_id", JNum(m.fileId)), Member("file_version", JNum(m.fileVersion))]
  }

  function MsgMembers(m: WireMsg): seq<Member> {
    match PayloadValue(m.payload)
    case None => Fields(m)
    case Some(v) => Fields(m) + [Member("payload", v)]
  }

  function NumberOf(v: Option<JSON>): int {
    if v.Some? && v.value.JNum? then v.value.n else 0
  }

  function StringOf(v: Option<JSON>): Option<string> {
    if v.Some? && v.value.JStr? then Some(v.value.s) else None
  }

  /**
   What becomes of a received text.  A payload that is there but no string is taken for one:
   its string is NULL, and its length is asked for.  Numbers that are no C ints are outside
   this model.
   */
  datatype Received = Arrived(msg: WireMsg) | NullPayload | Unmodelled

  predicate PayloadReadable(ms: seq<Member>) {
    var p := Get(ms, "payload");
    p.Some? ==> p.value.JStr?
  }

  /** Missing numbers read as 0, a missing payload as NULL. */
  function MsgOf(ms: seq<Member>): Received {
    if !PayloadReadable(ms) then NullPayload
    else Arrived(WireMsg(NumberOf(Get(ms, "type")), NumberOf(Get(ms, "user_id")), NumberOf(Get(ms, "file_id")),
                         NumberOf(Get(ms, "file_version")), StringOf(Get(ms, "payload"))))
  }

  function MsgText(m: WireMsg): string {
    Text(JObj(MsgMembers(m)), 0, false)
  }

  /** A text that is no object reads as one without members. */
  function ReadMsg(t: string): Received {
    match JsonParseString(t)
    case Read(v) => MsgOf(if v.JObj? then v.members else [])
    case Rejected => MsgOf([])
    case NotInt => Unmodelled
  }

  lemma MsgGood(m: WireMsg)
    requires Sendable(m)
    ensures Good(JObj(MsgMembers(m))) && FitsAt(JObj(MsgMembers(m)), 0)
  {
    MsgNames(m);
    MsgFields(m);
    hide MsgMembers, Find, GoodMember;
    assert forall i :: 0 <= i < |MsgMembers(m)| ==> GoodMember(MsgMembers(m)[i]);
  }

  lemma MsgNames(m: WireMsg)
    ensures DistinctNames(MsgMembers(m))
  {
    FieldNames();
    DistinctNamesMeans(MsgMembers(m));
    hide DistinctNames, ValidUtf8, Find;
  }

  lemma FieldTexts()
    ensures IsText("type") && IsText("user_id") && IsText("file_id") && IsText("file_version") && IsText("payload")
  {
  }

  lemma MsgFields(m: WireMsg)
    requires Sendable(m)
    ensures forall i :: 0 <= i < |MsgMembers(m)| ==> GoodMember(MsgMembers(m)[i]) && FitsAt(MsgMembers(m)[i].value, 1)
  {
    FieldTexts();
    hide IsText, ValidUtf8;
    var ms := MsgMembers(m);
    forall i | 0 <= i < |ms| ensures GoodMember(ms[i]) && FitsAt(ms[i].value, 1) {
      assert ms[i].value.JNum? || ms[i].value.JStr?;
    }
  }

  lemma FieldNames()
    ensures "type" != "user_id" && "type" != "file_id" && "type" != "file_version" && "type" != "payload"
    ensures "user_id" != "file_id" && "user_id" != "file_version" && "user_id" != "payload"
    ensures "file_id" != "file_version" && "file_id" != "payload" && "file_version" != "payload"
  {
    assert "type"[0] == 't' && "user_id"[0] == 'u' && "file_id"[0] == 'f' && "payload"[0] == 'p';
    assert |"file_id"| != |"file_version"|;
  }

  lemma MsgBack(m: WireMsg)
    ensures MsgOf(MsgMembers(m)) == Arrived(m.(payload := StringOf(PayloadValue(m.payload))))
  {
    var ms := MsgMembers(m);
    FieldNames();
    FindIs(ms, "type", 0);
    FindIs(ms, "user_id", 1);
    FindIs(ms, "file_id", 2);
    FindIs(ms, "file_version", 3);
    if |ms| == 5 {
      FindIs(ms, "payload", 4);
    } else {
      FindNone(ms, "payload");
    }
  }

  /** Sending and receiving keeps every field; the payload is lost when it is not UTF-8. */
  lemma MessageArrives(m: WireMsg)
    requires Sendable(m)
    ensures ReadMsg(MsgText(m)) ==
            Arrived(m.(payload := if m.payload.Some? && ValidUtf8(m.payload.value) then m.payload else None))
  {
    hide Text, JsonParseString, Good, FitsAt, MsgMembers, MsgOf;
    MsgGood(m);
    PrintThenParse(JObj(MsgMembers(m)), false);
    MsgBack(m);
  }

  /** So a message arrives whole exactly when its payload is NULL or valid UTF-8. */
  lemma MessageArrivesWhole(m: WireMsg)
    requires Sendable(m)
    ensures ReadMsg(MsgText(m)) == Arrived(m) <==> m.payload == None || ValidUtf8(m.payload.value)
  {
    hide MsgText, ReadMsg, ValidUtf8;
    MessageArrives(m);
  }

  // ---------------------------------------------------------------- what follows the text in the receive buffer

  /** An object is read the same whatever follows its text. */
  lemma StaleAfterObject(ms: seq<Member>, stale: string)
    requires Good(JObj(ms)) && FitsAt(JObj(ms), 0)
    ensures JsonParseString(Text(JObj(ms), 0, false) + stale) == Read(JObj(ms))
  {
    hide Text, ParseValue, Good, FitsAt;
    NoMark(JObj(ms), 0, false, stale);
    TextBack(JObj(ms), 0, false, 0, stale);
  }

  /**
   A relayed message is sent without its terminator into a buffer that is never cleared; the
   bytes left behind it make no difference.
   */
  lemma StaleBytes(m: WireMsg, stale: string)
    requires Sendable(m)
    ensures ReadMsg(MsgText(m) + stale) == ReadMsg(MsgText(m))
  {
    hide Text, JsonParseString, Good, FitsAt, MsgMembers, MsgOf, Sendable;
    MsgGood(m);
    StaleAfterObject(MsgMembers(m), stale);
    PrintThenParse(JObj(MsgMembers(m)), false);
  }

  // ---------------------------------------------------------------- a payload that is no string

  /**
   Reading the text of an object is safe exactly when it has no payload or a string for one,
   whatever its other members are and whatever follows it.
   */
  lemma ReadingSafe(ms: seq<Member>, stale: string)
    requires Good(JObj(ms)) && FitsAt(JObj(ms), 0)
    ensures ReadMsg(Text(JObj(ms), 0, false) + stale) == MsgOf(ms)
    ensures ReadMsg(Text(JObj(ms), 0, false) + stale) == NullPayload <==> Has(ms, "payload") && !Get(ms, "payload").value.JStr?
  {
    StaleAfterObject(ms, stale);
    hide Text, JsonParseString, Good, FitsAt;
  }

  /** n is the number a member of that name has, or 0 when there is none. */
  ghost predicate FieldIs(ms: seq<Member>, name: string, n: int) {
    || Member(name, JNum(n)) in ms
    || (n == 0 && forall k :: Member(name, JNum(k)) !in ms)
  }

  lemma NumberHeld(ms: seq<Member>, name: string)
    requires DistinctNames(ms)
    ensures FieldIs(ms, name, NumberOf(Get(ms, name)))
  {
    var k := Find(ms, name);
    forall n | Member(name, JNum(n)) in ms ensures k < |ms| && ms[k] == Member(name, JNum(n)) {
      var i :| 0 <= i < |ms| && ms[i] == Member(name, JNum(n));
      assert Find(ms, ms[i].name) == i;
    }
  }

  /** Each field of a message is the number of its member, and 0 when that is missing or no number. */
  lemma FieldsRead(ms: seq<Member>, stale: string)
    requires Good(JObj(ms)) && FitsAt(JObj(ms), 0) && PayloadReadable(ms)
    ensures var r := ReadMsg(Text(JObj(ms), 0, false) + stale);
            && r.Arrived?
            && FieldIs(ms, "type", r.msg.kind) && FieldIs(ms, "user_id", r.msg.userId)
            && FieldIs(ms, "file_id", r.msg.fileId) && FieldIs(ms, "file_version", r.msg.fileVersion)
            && (match r.msg.payload
                case Some(p) => Member("payload", JStr(p)) in ms
                case None => !Has(ms, "payload"))
  {
    ReadingSafe(ms, stale);
    NumberHeld(ms, "type");
    NumberHeld(ms, "user_id");
    NumberHeld(ms, "file_id");
    NumberHeld(ms, "file_version");
    hide Text, JsonParseString, ReadMsg, Good, FitsAt, FieldIs, Find;
    var k := Find(ms, "payload");
    assert k < |ms| ==> ms[k] == Member("payload", ms[k].value);
  }

  /** The text {"payload":5}. */
  lemma NumberPayload()
    ensures ReadMsg(Text(JObj([Member("payload", JNum(5))]), 0, false)) == NullPayload
  {
    var ms := [Member("payload", JNum(5))];
    FindIs(ms, "payload", 0);
    DistinctNamesMeans(ms);
    assert GoodMember(ms[0]);
    var t := Text(JObj(ms), 0, false);
    ReadingSafe(ms, "");
    assert t + "" == t;
  }

  // ---------------------------------------------------------------- the text, character by character

  lemma OneMember(m: Member, rest: seq<Member>)
    ensures Members([m] + rest, 0, false) ==
            Quote(m.name) + ":" + Text(m.value, 1, false) + (if rest == [] then "" else "," + Members(rest, 0, false))
  {
    hide Text, Quote;
    assert ([m] + rest)[1..] == rest;
  }

  function NumberText(name: string, n: int): string {
    "\"" + name + "\":" + IntText(n)
  }

  function PayloadText(p: Option<string>): string {
    if p.Some? && ValidUtf8(p.value) then ",\"payload\":" + Quote(p.value) else ""
  }

  lemma NumberMember(name: string, n: int, rest: seq<Member>)
    requires PlainText(name)
    ensures Members([Member(name, JNum(n))] + rest, 0, false) ==
            NumberText(name, n) + (if rest == [] then "" else "," + Members(rest, 0, false))
  {
    PlainQuote(name);
    OneMember(Member(name, JNum(n)), rest);
    hide Members, Quote, IntText;
  }

  function PayloadMembers(p: Option<string>): seq<Member> {
    match PayloadValue(p)
    case None => []
    case Some(v) => [Member("payload", v)]
  }

  lemma PayloadMember(p: Option<string>)
    ensures var ms := PayloadMembers(p);
            (if ms == [] then "" else "," + Members(ms, 0, false)) == PayloadText(p)
  {
    var ms := PayloadMembers(p);
    hide ValidUtf8, Members, EscString;
    PlainQuote("payload");
    if ms != [] {
      OneMember(ms[0], []);
      assert ms == [ms[0]] + [];
      assert "," + (Quote("payload") + ":" + Quote(p.value) + "") == ",\"payload\":" + Quote(p.value);
    }
  }

  lemma FiveMembers(m: WireMsg)
    ensures MsgText(m) == "{" + Members(MsgMembers(m), 0, false) + "}"
    ensures MsgMembers(m) ==
            [Member("type", JNum(m.kind))] + ([Member("user_id", JNum(m.userId))] +
              ([Member("file_id", JNum(m.fileId))] + ([Member("file_version", JNum(m.fileVersion))] + PayloadMembers(m.payload))))
  {
    hide PayloadValue, Members;
  }

  lemma NamesPlain()
    ensures PlainText("type") && PlainText("user_id") && PlainText("file_id") && PlainText("file_version")
  {
  }

  /** The text of every message: its fields in order, nothing between them, and the payload when it has one. */
  lemma MsgTextIs(m: WireMsg)
    ensures MsgText(m) ==
            "{" + (NumberText("type", m.kind) + ("," + (NumberText("user_id", m.userId) + ("," +
              (NumberText("file_id", m.fileId) + ("," + (NumberText("file_version", m.fileVersion) +
                PayloadText(m.payload)))))))) + "}"
  {
    hide *;
    FiveMembers(m);
    NamesPlain();
    var p := PayloadMembers(m.payload);
    NumberMember("type", m.kind, [Member("user_id", JNum(m.userId))] +
      ([Member("file_id", JNum(m.fileId))] + ([Member("file_version", JNum(m.fileVersion))] + p)));
    NumberMember("user_id", m.userId,
      [Member("file_id", JNum(m.fileId))] + ([Member("file_version", JNum(m.fileVersion))] + p));
    NumberMember("file_id", m.fileId, [Member("file_version", JNum(m.fileVersion))] + p);
    NumberMember("file_version", m.fileVersion, p);
    PayloadMember(m.payload);
  }

  // ---------------------------------------------------------------- JSON text as a payload

  /** JSON text carried in a message arrives as it is and still reads as its value. */
  lemma NestedArrives(v: JSON, m: WireMsg)
    requires Good(v) && FitsAt(v, 0) && AsciiJson(v)
    requires m.payload == Some(Text(v, 0, false)) && Sendable(m.(payload := None))
    ensures ReadMsg(MsgText(m)) == Arrived(m) && JsonParseString(m.payload.value) == Read(v)
  {
    hide Text, JsonParseString, ReadMsg, MsgText, Good, FitsAt, AsciiJson;
    AsciiText(v, 0, false);
    AsciiValid(m.payload.value);
    MessageArrivesWhole(m);
    PrintThenParse(v, false);
  }

  // ---------------------------------------------------------------- the code

  /** A message in memory. */
  class Message {
    var kind: int
    var userId: int
    var fileId: int
    var fileVersion: int
    var payload: Option<string>

    function Value(): WireMsg
      reads this
    {
      WireMsg(kind, userId, fileId, fileVersion, payload)
    }

    /** create_msg. */
    constructor (kind: int, userId: int, fileId: int, fileVersion: int, payload: Option<string>)
      ensures Value() == WireMsg(kind, userId, fileId, fileVersion, payload)
    {
      this.kind, this.userId, this.fileId, this.fileVersion, this.payload := kind, userId, fileId, fileVersion, payload;
    }
  }

  /** json_value_init_string: none for a string that is not UTF-8. */
  method InitString(s: string) returns (r: Option<JSON>)
    requires IsText(s)
    ensures r == PayloadValue(Some(s))
  {
    var m := s + [NUL];
    assert m[..|m|-1] == s && From(m, 0) == s;
    var ok := IsValidUtf8(m, 0, |s|);
    return if ok then Some(JStr(s)) else None;
  }

  lemma PutNew(ms: seq<Member>, name: string, v: JSON)
    requires forall i :: 0 <= i < |ms| ==> ms[i].name != name
    ensures JsonObjects.Put(ms, name, v) == ms + [Member(name, v)]
  {
    FindNone(ms, name);
  }

  lemma FourSet(a: Member, b: Member, c: Member, d: Member)
    requires a.name != b.name && a.name != c.name && a.name != d.name
    requires b.name != c.name && b.name != d.name && c.name != d.name
    ensures JsonObjects.Put([], a.name, a.value) == [a]
    ensures JsonObjects.Put([a], b.name, b.value) == [a, b]
    ensures JsonObjects.Put([a, b], c.name, c.value) == [a, b, c]
    ensures JsonObjects.Put([a, b, c], d.name, d.value) == [a, b, c, d]
  {
    hide JsonObjects.Put;
    PutNew([], a.name, a.value);
    PutNew([a], b.name, b.value);
    PutNew([a, b], c.name, c.value);
    PutNew([a, b, c], d.name, d.value);
  }

  lemma FieldsSet(m: WireMsg)
    ensures var a := JsonObjects.Put([], "type", JNum(m.kind));
            var b := JsonObjects.Put(a, "user_id", JNum(m.userId));
            var c := JsonObjects.Put(b, "file_id", JNum(m.fileId));
            JsonObjects.Put(c, "file_version", JNum(m.fileVersion)) == Fields(m)
  {
    FieldNames();
    hide JsonObjects.Put;
    FourSet(Member("type", JNum(m.kind)), Member("user_id", JNum(m.userId)),
            Member("file_id", JNum(m.fileId)), Member("file_version", JNum(m.fileVersion)));
  }

  lemma PayloadSet(m: WireMsg, v: JSON)
    ensures JsonObjects.Put(Fields(m), "payload", v) == Fields(m) + [Member("payload", v)]
  {
    FieldNames();
    PutNew(Fields(m), "payload", v);
  }

  /** The four numbers set one by one. */
  method SetFields(m: WireMsg, o: JsonObject)
    requires o.Valid() && o.Contents() == [] && o.names == null && o.values == null
    modifies o
    ensures o.Valid() && o.Contents() == Fields(m)
    ensures (o.names != null ==> fresh(o.names)) && (o.values != null ==> fresh(o.values))
  {
    hide JsonObjects.Put, Fields;
    FieldsSet(m);
    var ok := o.SetValue("type", JNum(m.kind), false);
    ok := o.SetValue("user_id", JNum(m.userId), false);
    ok := o.SetValue("file_id", JNum(m.fileId), false);
    ok := o.SetValue("file_version", JNum(m.fileVersion), false);
  }

  /** serialize_msg: the text and its terminator. */
  method SerializeMsg(msg: Message) returns (buf: array<char>)
    requires Sendable(msg.Value())
    ensures buf[..] == MsgText(msg.Value()) + [NUL]
  {
    hide Fields, JsonObjects.Put, Sendable, Good;
    var m := msg.Value();
    SendableText(m);
    var o := new JsonObject();
    SetFields(m, o);
    if m.payload != None {
      var v := InitString(m.payload.value);
      if v != None {
        PayloadSet(m, v.value);
        var ok := o.SetValue("payload", v.value, false);
      }
    }
    MsgGood(m);
    buf := SerializeToString(JObj(o.Contents()), false);
  }

  lemma SendableText(m: WireMsg)
    requires Sendable(m)
    ensures m.payload.Some? ==> IsText(m.payload.value)
  {
  }

  /** What deserialize_msg comes to: a message, or the length of a NULL payload asked for. */
  datatype Delivery = Delivered(msg: Message) | LengthOfNull | NotModelled

  /** deserialize_msg on a terminated string. */
  method DeserializeMsg(s: string) returns (r: Delivery)
    requires Terminated(s)
    ensures match ReadMsg(From(s, 0))
            case Arrived(w) => r.Delivered? && fresh(r.msg) && r.msg.Value() == w
            case NullPayload => r.LengthOfNull?
            case Unmodelled => r.NotModelled?
  {
    hide JsonParseString;
    var root := ParseStringAt(s);
    if root.NotInt? {
      return NotModelled;
    }
    var ms := if root.Read? && root.value.JObj? then root.value.members else [];
    var payload := Get(ms, "payload");
    if payload != None && !payload.value.JStr? {
      return LengthOfNull;
    }
    var msg := new Message(NumberOf(Get(ms, "type")), NumberOf(Get(ms, "user_id")), NumberOf(Get(ms, "file_id")),
                           NumberOf(Get(ms, "file_version")), StringOf(payload));
    return Delivered(msg);
  }
}
