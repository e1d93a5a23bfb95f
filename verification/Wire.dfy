/**
 The protocol's messages as they travel: a type, four numbers and a payload.  What a message
 says survives being printed as JSON text, sent and read.
 */
module Wire {
  import opened Wrappers
  import opened CStrings
  import opened Utf8
  import opened Document
  import opened Numbers
  import opened Escapes
  import opened JsonValue
  import opened Messages
  import opened AsciiTexts
  import opened Snapshots
  import opened SnapshotTexts
  import opened Replication

  // the numbering of msg_type
  const MSG_FAILED := 0
  const MSG_OK := 1
  const LOGIN := 2
  const REGISTER := 3
  const QUIT := 4
  const FILE_REQUEST := 5
  const FILE_RESPONSE := 6
  const INSERT := 10
  const INSERT_LINE := 11
  const DELETE := 12
  const MOVE_CURSOR := 13
  const ADD_CURSOR := 14
  const DELETE_CURSOR := 15

  function DirChar(dir: Dir): char {
    match dir
    case Up => '0'
    case Down => '1'
    case Left => '2'
    case Right => '3'
  }

  function DirOf(c: char): Option<Dir> {
    if c == '0' then Some(Up)
    else if c == '1' then Some(Down)
    else if c == '2' then Some(Left)
    else if c == '3' then Some(Right)
    else None
  }

  /** The first character of a payload; a C string of no characters has its terminator there. */
  function FirstChar(p: string): char {
    if p == "" then NUL else p[0]
  }

  /** The operation a message asks for, as both handlers read it. */
  function OpOf(w: WireMsg): Option<Op> {
    if w.kind == INSERT then
      match w.payload
      case None => None
      case Some(p) => Some(Insert(FirstChar(p)))
    else if w.kind == INSERT_LINE then Some(InsertLine)
    else if w.kind == DELETE then Some(Delete)
    else if w.kind == MOVE_CURSOR then
      match w.payload
      case None => None
      case Some(p) =>
        match DirOf(FirstChar(p))
        case None => None
        case Some(dir) => Some(Move(dir))
    else None
  }

  /** w is m on the wire; x are the counters a snapshot carries besides the document. */
  ghost predicate Encodes(w: WireMsg, m: Msg, x: Extra) {
    && w.userId == m.user
    && match m
       case OpMsg(_, op) => OpOf(w) == Some(op)
       case FileRequest(_) => w.kind == FILE_REQUEST
       case FileResponse(_, s) =>
         w.kind == FILE_RESPONSE && w.payload.Some? && IsText(w.payload.value) && Reads(w.payload.value, s, x)
       case AddCursorMsg(_) => w.kind == ADD_CURSOR
       case DeleteCursorMsg(_) => w.kind == DELETE_CURSOR
       case Quit(_) => w.kind == QUIT
  }

  ghost predicate EncodesAll(ws: seq<WireMsg>, ms: seq<Msg>, x: Extra) {
    |ws| == |ms| && forall i :: 0 <= i < |ws| ==> Encodes(ws[i], ms[i], x)
  }

  /** C ints and an ASCII payload. */
  predicate Clean(w: WireMsg) {
    && IsInt(w.kind) && IsInt(w.userId) && IsInt(w.fileId) && IsInt(w.fileVersion)
    && (w.payload.Some? ==> Ascii(w.payload.value))
  }

  predicate AllClean(ws: seq<WireMsg>) {
    forall i :: 0 <= i < |ws| ==> Clean(ws[i])
  }

  /** A clean message is received as it was sent, and so says the same. */
  lemma Arrives(w: WireMsg, m: Msg, x: Extra)
    requires Clean(w) && Encodes(w, m, x)
    ensures ReadMsg(MsgText(w)) == Arrived(w) && Encodes(ReadMsg(MsgText(w)).msg, m, x)
  {
    hide ReadMsg, MsgText, Encodes, Ascii;
    if w.payload.Some? {
      AsciiValid(w.payload.value);
    }
    MessageArrivesWhole(w);
  }

  /** What a client sends for an operation of its own. */
  function OpWire(u: int, op: Op, file: int, ver: int): WireMsg {
    match op
    case Insert(ch) => WireMsg(INSERT, u, file, ver, Some([ch]))
    case InsertLine => WireMsg(INSERT_LINE, u, file, ver, None)
    case Delete => WireMsg(DELETE, u, file, ver, None)
    case Move(dir) => WireMsg(MOVE_CURSOR, u, file, ver, Some([DirChar(dir)]))
  }

  /** Every typed operation arrives at the other side as itself, whatever is left in the receive buffer behind it. */
  lemma OpArrives(u: int, op: Op, file: int, ver: int, x: Extra, stale: string)
    requires TypedOp(op) && IsInt(u) && IsInt(file) && IsInt(ver)
    ensures var w := OpWire(u, op, file, ver);
            Clean(w) && Encodes(w, OpMsg(u, op), x) && ReadMsg(MsgText(w) + stale) == Arrived(w)
  {
    hide ReadMsg, MsgText;
    Arrives(OpWire(u, op, file, ver), OpMsg(u, op), x);
    StaleBytes(OpWire(u, op, file, ver), stale);
  }

  lemma OneByteValid(ch: char)
    requires 0 < ch as int < 256
    ensures ValidUtf8([ch]) <==> ch as int < 128
  {
    if ch as int < 128 {
      AsciiValid([ch]);
    }
  }

  /** A key that is no ASCII character is lost: its message arrives without a payload. */
  lemma KeyArrives(u: int, ch: char, file: int, ver: int)
    requires 0 < ch as int < 256 && IsInt(u) && IsInt(file) && IsInt(ver)
    ensures var r := ReadMsg(MsgText(OpWire(u, Insert(ch), file, ver)));
            r.Arrived? && (OpOf(r.msg) == Some(Insert(ch)) <==> ch as int < 128)
  {
    hide ReadMsg, MsgText;
    OneByteValid(ch);
    MessageArrives(OpWire(u, Insert(ch), file, ver));
  }

  lemma LatinKeyLost(u: int, file: int, ver: int)
    requires IsInt(u) && IsInt(file) && IsInt(ver)
    ensures var r := ReadMsg(MsgText(OpWire(u, Insert(0xE9 as char), file, ver)));
            r.Arrived? && r.msg.payload == None && OpOf(r.msg) == None
  {
    hide ReadMsg, MsgText;
    OneByteValid(0xE9 as char);
    MessageArrives(OpWire(u, Insert(0xE9 as char), file, ver));
  }

  // ---------------------------------------------------------------- the messages, character by character

  function TypeText(op: Op): string {
    match op
    case Insert(_) => "10"
    case InsertLine => "11"
    case Delete => "12"
    case Move(_) => "13"
  }

  function OperandText(op: Op): string {
    match op
    case Insert(ch) => ",\"payload\":" + Quote([ch])
    case Move(Up) => ",\"payload\":\"0\""
    case Move(Down) => ",\"payload\":\"1\""
    case Move(Left) => ",\"payload\":\"2\""
    case Move(Right) => ",\"payload\":\"3\""
    case _ => ""
  }

  lemma KindIs(u: int, op: Op, file: int, ver: int)
    ensures NumberText("type", OpWire(u, op, file, ver).kind) == "\"type\":" + TypeText(op)
  {
    assert NatText(1) == "1";
  }

  lemma PayloadIs(u: int, op: Op, file: int, ver: int)
    requires TypedOp(op)
    ensures PayloadText(OpWire(u, op, file, ver).payload) == OperandText(op)
  {
    match op
    case Insert(ch) => AsciiValid([ch]);
    case Move(dir) =>
      hide EscString;
      AsciiValid([DirChar(dir)]);
      PlainQuote([DirChar(dir)]);
      assert ",\"payload\":" + ("\"" + [DirChar(dir)] + "\"") == OperandText(op);
    case _ =>
  }

  lemma OpFields(u: int, op: Op, file: int, ver: int)
    ensures var w := OpWire(u, op, file, ver);
            w.userId == u && w.fileId == file && w.fileVersion == ver
  {
  }

  /** What a typed operation looks like on the wire. */
  lemma OpText(u: int, op: Op, file: int, ver: int)
    requires TypedOp(op)
    ensures MsgText(OpWire(u, op, file, ver)) ==
            "{" + ("\"type\":" + TypeText(op) + ("," + (NumberText("user_id", u) + ("," +
              (NumberText("file_id", file) + ("," + (NumberText("file_version", ver) + OperandText(op)))))))) + "}"
  {
    hide *;
    MsgTextIs(OpWire(u, op, file, ver));
    KindIs(u, op, file, ver);
    OpFields(u, op, file, ver);
    PayloadIs(u, op, file, ver);
  }
}
