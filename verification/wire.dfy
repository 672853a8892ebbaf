/** The binary node format as pure functions: what the encoder writes, and what the decoder reads as
    long as its offset only moves forward (packages/wazeko-protocol/src/encoder.ts and decoder.ts).
    reading.dfy has the decoder for every input; roundtrip.dfy proves the properties of the format. */
module Wire {
  import opened Options
  import opened Tokens
  import opened Utf8

  const TAG_LIST_EMPTY: byte := 0
  const TAG_LIST_8: byte := 1
  const TAG_LIST_16: byte := 2
  const TAG_BINARY_8: byte := 3
  const TAG_BINARY_32: byte := 4
  const TAG_STRING: byte := 5
  const TAG_TOKEN: byte := 6

  datatype Attr = Attr(key: Text, value: Text)
  datatype Content = Missing | Bytes(data: seq<byte>) | Children(nodes: seq<Node>)
  datatype Node = Node(tag: Text, attrs: seq<Attr>, content: Content)

  /** A JavaScript object holds every key once. */
  ghost predicate UniqueKeys(attrs: seq<Attr>) {
    forall i, j :: 0 <= i < j < |attrs| ==> attrs[i].key != attrs[j].key
  }

  /** The nodes that exist as JavaScript values: every attribute object has unique keys. */
  ghost predicate IsNode(n: Node) {
    && UniqueKeys(n.attrs)
    && (n.content.Children? ==> forall c :: c in n.content.nodes ==> IsNode(c))
  }

  // ---------------------------------------------------------------- encoder

  datatype EncodeError = ListTooLong(size: nat) | StringTooLong

  function ListSize(n: Node): nat {
    1 + 2 * |n.attrs| + (if n.content.Missing? then 0 else 1)
  }

  function High(size: nat): byte { (size / 256) % 256 }
  function Low(size: nat): byte { size % 256 }

  function HeaderBytes(size: nat): seq<byte> {
    if size == 0 then [TAG_LIST_EMPTY]
    else if size < 256 then [TAG_LIST_8, size]
    else [TAG_LIST_16, High(size), Low(size)]
  }

  function TextBytes(t: Text): seq<byte> {
    match GetTokenIndex(t)
    case Some(i) => [TAG_TOKEN, i]
    case None => [TAG_STRING, High(|t|), Low(|t|)] + Written(t)
  }

  /** The four length bytes; JavaScript's `>>` and `& 0xff` keep the length modulo 2^32. */
  function LengthBytes(len: nat): seq<byte> {
    [(len / 0x100_0000) % 256, (len / 0x1_0000) % 256, (len / 0x100) % 256, len % 256]
  }

  function BinaryBytes(data: seq<byte>): seq<byte> {
    (if |data| < 256 then [TAG_BINARY_8, |data|] else [TAG_BINARY_32] + LengthBytes(|data|)) + data
  }

  function AttrBytes(attrs: seq<Attr>): seq<byte> {
    if attrs == [] then []
    else TextBytes(attrs[0].key) + TextBytes(attrs[0].value) + AttrBytes(attrs[1..])
  }

  function HeadBytes(n: Node): seq<byte> {
    HeaderBytes(ListSize(n)) + TextBytes(n.tag) + AttrBytes(n.attrs)
  }

  function NodeBytes(n: Node): seq<byte>
    decreases n, 1
  {
    HeadBytes(n) + ContentBytes(n)
  }

  function ContentBytes(n: Node): seq<byte>
    decreases n, 0
  {
    match n.content
    case Missing => []
    case Bytes(data) => BinaryBytes(data)
    case Children(nodes) => HeaderBytes(|nodes|) + NodesBytes(nodes)
  }

  function NodesBytes(nodes: seq<Node>): seq<byte>
    decreases nodes
  {
    if nodes == [] then [] else NodeBytes(nodes[0]) + NodesBytes(nodes[1..])
  }

  function HeaderError(size: nat): Option<EncodeError> {
    if size < 65536 then None else Some(ListTooLong(size))
  }

  function TextError(t: Text): Option<EncodeError> {
    if GetTokenIndex(t).Some? || |t| <= 65535 then None else Some(StringTooLong)
  }

  function First<T>(a: Option<T>, b: Option<T>): Option<T> {
    if a.Some? then a else b
  }

  function AttrError(attrs: seq<Attr>): Option<EncodeError> {
    if attrs == [] then None
    else First(TextError(attrs[0].key), First(TextError(attrs[0].value), AttrError(attrs[1..])))
  }

  /** The first exception the encoder throws while it writes the node, if any. */
  function NodeError(n: Node): Option<EncodeError>
    decreases n
  {
    First(HeaderError(ListSize(n)), First(TextError(n.tag), First(AttrError(n.attrs),
      if n.content.Children?
      then First(HeaderError(|n.content.nodes|), NodesError(n.content.nodes))
      else None)))
  }

  function NodesError(nodes: seq<Node>): Option<EncodeError>
    decreases nodes
  {
    if nodes == [] then None else First(NodeError(nodes[0]), NodesError(nodes[1..]))
  }

  function Encode(n: Node): Result<seq<byte>, EncodeError> {
    match NodeError(n)
    case None => Ok(NodeBytes(n))
    case Some(e) => Err(e)
  }

  // ---------------------------------------------------------------- decoder

  /** Why reading stops. `NoByte` is the TypeError of a tag read in front of the data, `TooDeep` a
      stack overflow. `Rewinds` is no exception of the source: here the forward reader gives up, as
      a negative BINARY_32 length moves the offset back to `to`; reading.dfy goes on from there. */
  datatype Stop =
    | Eof
    | EmptyNode
    | BadListTag(tag: byte)
    | BadStringTag(tag: byte)
    | BadToken(index: byte)
    | NoByte
    | TooDeep
    | Rewinds(to: int)

  /** A read that delivers a value and the offset after it, or stops. */
  datatype Read<+T> = Done(value: T, next: nat) | Stopped(why: Stop) {
    predicate IsFailure() { Stopped? }
    function PropagateFailure<U>(): Read<U> requires Stopped? { Stopped(why) }
    function Extract(): (T, nat) requires Done? { (value, next) }
  }

  function ReadByte(d: seq<byte>, off: nat): Read<byte> {
    if off >= |d| then Stopped(Eof) else Done(d[off], off + 1)
  }

  function ReadBytes(d: seq<byte>, off: nat, len: nat): Read<seq<byte>> {
    if off + len > |d| then Stopped(Eof) else Done(d[off..off + len], off + len)
  }

  /** Two bytes, big-endian. */
  function ReadShort(d: seq<byte>, off: nat): Read<nat> {
    var (b, next) :- ReadBytes(d, off, 2);
    Done(b[0] as int * 256 + b[1], next)
  }

  function ReadListSize(d: seq<byte>, off: nat): (r: Read<nat>)
    ensures r.Done? ==> off < r.next <= |d| && r.value < 65536
  {
    var (tag, p) :- ReadByte(d, off);
    if tag == TAG_LIST_EMPTY then Done(0, p)
    else if tag == TAG_LIST_8 then ReadByte(d, p)
    else if tag == TAG_LIST_16 then ReadShort(d, p)
    else Stopped(BadListTag(tag))
  }

  const BOM: seq<byte> := [0xEF, 0xBB, 0xBF]

  predicate StartsWithBom(t: Text) { BOM <= t }

  /** `TextDecoder.decode`: it drops one leading byte order mark and repairs the rest. */
  function DecodeText(b: seq<byte>): Text {
    Repair(if StartsWithBom(b) then b[3..] else b)
  }

  function ReadText(d: seq<byte>, off: nat): (r: Read<Text>)
    ensures r.Done? ==> off + 2 <= r.next <= |d|
  {
    var (tag, p) :- ReadByte(d, off);
    if tag == TAG_TOKEN then
      var (index, q) :- ReadByte(d, p);
      match GetToken(index) {
        case Some(token) => Done(token, q)
        case None => Stopped(BadToken(index))
      }
    else if tag == TAG_STRING then
      var (len, q) :- ReadShort(d, p);
      var (b, next) :- ReadBytes(d, q, len);
      Done(DecodeText(b), next)
    else Stopped(BadStringTag(tag))
  }

  /** `(b0 << 24) | (b1 << 16) | (b2 << 8) | b3` in 32-bit two's complement. */
  function SignedLength(b: seq<byte>): (len: int)
    requires |b| == 4
  {
    var u := b[0] as int * 0x100_0000 + b[1] as int * 0x1_0000 + b[2] as int * 0x100 + b[3];
    if u >= 0x8000_0000 then u - 0x1_0000_0000 else u
  }

  /** `readBinary` on a buffer whose next byte is one of the two binary tags. */
  function ReadBinary(d: seq<byte>, off: nat): (r: Read<seq<byte>>)
    requires off < |d| && d[off] in {TAG_BINARY_8, TAG_BINARY_32}
    ensures r.Done? ==> off < r.next <= |d|
  {
    if d[off] == TAG_BINARY_8 then
      var (len, p) :- ReadByte(d, off + 1);
      ReadBytes(d, p, len)
    else
      var (b, p) :- ReadBytes(d, off + 1, 4);
      var len := SignedLength(b);
      if len < 0 then Stopped(Rewinds(p + len)) else ReadBytes(d, p, len)
  }

  /** "__proto__": assigning a string to this property of an object does nothing. */
  const PROTO: Text := [0x5F, 0x5F, 0x70, 0x72, 0x6F, 0x74, 0x6F, 0x5F, 0x5F]

  /** `attrs[key] = value`: an existing key keeps its position. */
  function SetAttr(attrs: seq<Attr>, key: Text, value: Text): seq<Attr> {
    if key == PROTO then attrs
    else if attrs == [] then [Attr(key, value)]
    else if attrs[0].key == key then [Attr(key, value)] + attrs[1..]
    else [attrs[0]] + SetAttr(attrs[1..], key, value)
  }

  function ReadAttrs(d: seq<byte>, off: nat, count: nat, attrs: seq<Attr>): (r: Read<seq<Attr>>)
    requires off <= |d|
    ensures r.Done? ==> off + 4 * count <= r.next <= |d|
    decreases count
  {
    if count == 0 then Done(attrs, off)
    else
      var (key, p) :- ReadText(d, off);
      var (value, q) :- ReadText(d, p);
      ReadAttrs(d, q, count - 1, SetAttr(attrs, key, value))
  }

  function ReadNode(d: seq<byte>, off: nat): (r: Read<Node>)
    requires off <= |d|
    ensures r.Done? ==> off < r.next <= |d|
    decreases |d| - off, 0
  {
    var (size, p) :- ReadListSize(d, off);
    if size == 0 then Stopped(EmptyNode)
    else
      var (tag, q) :- ReadText(d, p);
      var (attrs, s) :- ReadAttrs(d, q, (size - 1) / 2, []);
      if (size - 1) % 2 == 1 then
        var (content, next) :- ReadContent(d, s);
        Done(Node(tag, attrs, content), next)
      else Done(Node(tag, attrs, Missing), s)
  }

  function ReadContent(d: seq<byte>, off: nat): (r: Read<Content>)
    requires off <= |d|
    ensures r.Done? ==> off <= r.next <= |d|
    decreases |d| - off, 0
  {
    if off >= |d| then Done(Missing, off)
    else if d[off] in {TAG_LIST_EMPTY, TAG_LIST_8, TAG_LIST_16} then
      var (count, p) :- ReadListSize(d, off);
      var (nodes, next) :- ReadNodes(d, p, count, []);
      Done(Children(nodes), next)
    else if d[off] in {TAG_BINARY_8, TAG_BINARY_32} then
      var (data, next) :- ReadBinary(d, off);
      Done(Bytes(data), next)
    else
      var (text, next) :- ReadText(d, off);
      Done(Bytes(text), next)
  }

  function ReadNodes(d: seq<byte>, off: nat, count: nat, nodes: seq<Node>): (r: Read<seq<Node>>)
    requires off <= |d|
    ensures r.Done? ==> off <= r.next <= |d|
    decreases |d| - off, 1, count
  {
    if count == 0 then Done(nodes, off)
    else
      var (node, next) :- ReadNode(d, off);
      ReadNodes(d, next, count - 1, nodes + [node])
  }

  /** Reads one node from the start; trailing bytes are ignored. */
  function Decode(d: seq<byte>): Read<Node> {
    ReadNode(d, 0)
  }
}
