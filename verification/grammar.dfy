/** The binary node format as a grammar, independent of the reader: every input falls into pieces in
    one way, and what the pieces say, or why the last one fails, is what decoding gives. */
module Grammar {
  import opened Options
  import opened Tokens
  import opened Utf8
  import opened Wire
  import opened Reading
  import opened RoundTrips

  /** A piece of the input and what it says. */
  datatype Part<+T> = Part(bytes: seq<byte>, value: T)

  /** The last piece of an input that is refused. */
  datatype Failure = Failure(bytes: seq<byte>, why: Stop)

  datatype Element =
    | BadHeader(failure: Failure)
    | BadTag(header: Part<nat>, failure: Failure)
    | BadField(header: Part<nat>, tag: Part<Text>, fields: seq<Part<Text>>, failure: Failure)
    | Element(header: Part<nat>, tag: Part<Text>, fields: seq<Part<Text>>, body: Body)

  /** `Cut` is a content that is announced but not there, at the end of the input. */
  datatype Body =
    | NoBody
    | Cut
    | Data(data: Part<seq<byte>>)
    | Words(text: Part<Text>)
    | List(header: Part<nat>, children: seq<Element>)
    | BadBody(failure: Failure)

  // ---------------------------------------------------------------- single pieces

  /** The size or length in two bytes behind a tag. */
  function Pair(b: seq<byte>): nat
    requires |b| >= 3
  {
    0x100 * (b[1] as int) + b[2]
  }

  /** A list header: [0], [1, size] or [2, high, low]. */
  ghost predicate IsHeader(b: seq<byte>, size: nat) {
    || (b == [0] && size == 0)
    || (|b| == 2 && b[0] == 1 && size == b[1])
    || (|b| == 3 && b[0] == 2 && size == Pair(b))
  }

  /** `end` says that the input ends here. */
  ghost predicate HeaderFails(b: seq<byte>, why: Stop, end: bool) {
    match why
    case BadListTag(tag) => b == [tag] && tag > 2
    case Eof => end && (b == [] || b == [1] || (1 <= |b| <= 2 && b[0] == 2))
    case _ => false
  }

  /** A string field: [6, index], or [5, high, low] and as many bytes. */
  ghost predicate IsField(b: seq<byte>, text: Text) {
    || (|b| == 2 && b[0] == 6 && b[1] < 57 && text == Ascii(SINGLE_BYTE_TOKENS[b[1]]))
    || (|b| >= 3 && b[0] == 5 && |b| == 3 + Pair(b) && text == DecodeText(b[3..]))
  }

  ghost predicate FieldFails(b: seq<byte>, why: Stop, end: bool) {
    match why
    case BadToken(index) => b == [6, index] && index >= 57
    case BadStringTag(tag) => b == [tag] && tag != 5 && tag != 6
    case Eof => end && (b == [] || b == [6] || (b[0] == 5 && (|b| < 3 || |b| < 3 + Pair(b))))
    case _ => false
  }

  /** The length that stands behind a 4. */
  function Number(b: seq<byte>): nat
    requires |b| >= 5
  {
    0x100_0000 * (b[1] as int) + 0x1_0000 * (b[2] as int) + 0x100 * (b[3] as int) + b[4]
  }

  /** Binary data: [3, length] or 4 and four length bytes below 2^31, and as many bytes. */
  ghost predicate IsBinary(b: seq<byte>, data: seq<byte>) {
    || (|b| >= 2 && b[0] == 3 && |b| - 2 == b[1] && data == b[2..])
    || (|b| >= 5 && b[0] == 4 && b[1] < 128 && |b| == 5 + Number(b) && data == b[5..])
  }

  /** A length of 2^31 or more counts as negative, from the end of the length on. */
  ghost predicate BinaryFails(b: seq<byte>, why: Stop, at: nat, end: bool) {
    match why
    case Rewinds(to) => |b| == 5 && b[0] == 4 && b[1] >= 128 && to == at + 5 + Number(b) - 0x1_0000_0000
    case Eof =>
      && end && b != []
      && (|| (b[0] == 3 && (|b| == 1 || |b| - 2 < b[1]))
          || (b[0] == 4 && (|b| < 5 || (b[1] < 128 && |b| < 5 + Number(b)))))
    case _ => false
  }

  // ---------------------------------------------------------------- whole nodes

  function FieldsLength(fields: seq<Part<Text>>): nat {
    if fields == [] then 0 else |fields[0].bytes| + FieldsLength(fields[1..])
  }

  function Length(e: Element): nat
    decreases e
  {
    match e
    case BadHeader(failure) => |failure.bytes|
    case BadTag(header, failure) => |header.bytes| + |failure.bytes|
    case BadField(header, tag, fields, failure) =>
      |header.bytes| + |tag.bytes| + FieldsLength(fields) + |failure.bytes|
    case Element(header, tag, fields, body) =>
      |header.bytes| + |tag.bytes| + FieldsLength(fields) + BodyLength(body)
  }

  function BodyLength(body: Body): nat
    decreases body
  {
    match body
    case NoBody => 0
    case Cut => 0
    case Data(data) => |data.bytes|
    case Words(text) => |text.bytes|
    case List(header, children) => |header.bytes| + AllLength(children)
    case BadBody(failure) => |failure.bytes|
  }

  function AllLength(children: seq<Element>): nat
    decreases children
  {
    if children == [] then 0 else Length(children[0]) + AllLength(children[1..])
  }

  /** Keys and values alternate, and are assigned in turn. */
  function Assigned(fields: seq<Part<Text>>, attrs: seq<Attr>): seq<Attr>
    decreases |fields|
  {
    if |fields| < 2 then attrs else Assigned(fields[2..], SetAttr(attrs, fields[0].value, fields[1].value))
  }

  /** What a node decodes to: its parts, or why it is refused. */
  function Sense(e: Element): Result<Node, Stop>
    decreases e
  {
    match e
    case Element(_, tag, fields, body) =>
      (match BodySense(body)
       case Ok(content) => Ok(Node(tag.value, Assigned(fields, []), content))
       case Err(why) => Err(why))
    case _ => Err(e.failure.why)
  }

  function BodySense(body: Body): Result<Content, Stop>
    decreases body
  {
    match body
    case NoBody => Ok(Missing)
    case Cut => Ok(Missing)
    case Data(data) => Ok(Bytes(data.value))
    case Words(text) => Ok(Bytes(text.value))
    case List(_, children) =>
      (match AllSense(children)
       case Ok(nodes) => Ok(Children(nodes))
       case Err(why) => Err(why))
    case BadBody(failure) => Err(failure.why)
  }

  function AllSense(children: seq<Element>): (r: Result<seq<Node>, Stop>)
    ensures r.Ok? ==> |r.value| == |children|
    decreases children
  {
    if children == [] then Ok([])
    else match Sense(children[0])
         case Err(why) => Err(why)
         case Ok(node) =>
           match AllSense(children[1..])
           case Err(why) => Err(why)
           case Ok(nodes) => Ok([node] + nodes)
  }

  ghost predicate HeaderAt(d: seq<byte>, off: nat, p: Part<nat>) { At(d, off, p.bytes) && IsHeader(p.bytes, p.value) }

  ghost predicate FieldAt(d: seq<byte>, off: nat, p: Part<Text>) { At(d, off, p.bytes) && IsField(p.bytes, p.value) }

  ghost predicate NoHeaderAt(d: seq<byte>, off: nat, f: Failure) {
    At(d, off, f.bytes) && HeaderFails(f.bytes, f.why, off + |f.bytes| == |d|)
  }

  ghost predicate NoFieldAt(d: seq<byte>, off: nat, f: Failure) {
    At(d, off, f.bytes) && FieldFails(f.bytes, f.why, off + |f.bytes| == |d|)
  }

  ghost predicate FieldsAt(d: seq<byte>, off: nat, fields: seq<Part<Text>>)
    decreases |fields|
  {
    fields != [] ==> FieldAt(d, off, fields[0]) && FieldsAt(d, off + |fields[0].bytes|, fields[1..])
  }

  /** The pieces of `e` stand one after the other from `off` on, as many as the header of a node says:
      two fields for an attribute, and a content if the number of parts is even. */
  ghost predicate Stands(d: seq<byte>, off: nat, e: Element)
    decreases e
  {
    match e
    case BadHeader(f) => NoHeaderAt(d, off, f) || (f.why == EmptyNode && HeaderAt(d, off, Part(f.bytes, 0)))
    case BadTag(header, f) => HeaderAt(d, off, header) && header.value > 0 && NoFieldAt(d, off + |header.bytes|, f)
    case BadField(header, tag, fields, f) =>
      && HeadAt(d, off, header, tag, fields) && |fields| < (header.value - 1) / 2 * 2
      && NoFieldAt(d, off + |header.bytes| + |tag.bytes| + FieldsLength(fields), f)
    case Element(header, tag, fields, body) =>
      && HeadAt(d, off, header, tag, fields) && |fields| == (header.value - 1) / 2 * 2
      && (body.NoBody? <==> header.value % 2 == 1)
      && BodyAt(d, off + |header.bytes| + |tag.bytes| + FieldsLength(fields), body)
  }

  ghost predicate HeadAt(d: seq<byte>, off: nat, header: Part<nat>, tag: Part<Text>, fields: seq<Part<Text>>) {
    && HeaderAt(d, off, header) && header.value > 0 && FieldAt(d, off + |header.bytes|, tag)
    && FieldsAt(d, off + |header.bytes| + |tag.bytes|, fields)
  }

  /** The first byte tells the kind of a content. */
  ghost predicate BodyAt(d: seq<byte>, off: nat, body: Body)
    decreases body
  {
    match body
    case NoBody => true
    case Cut => off == |d|
    case Data(p) => At(d, off, p.bytes) && IsBinary(p.bytes, p.value)
    case Words(p) => FieldAt(d, off, p)
    case List(header, children) =>
      && HeaderAt(d, off, header)
      && |children| <= header.value && (AllSense(children).Ok? ==> |children| == header.value)
      && AllAt(d, off + |header.bytes|, children)
    case BadBody(f) =>
      && At(d, off, f.bytes) && f.bytes != []
      && var end := off + |f.bytes| == |d|;
         if f.bytes[0] <= 2 then HeaderFails(f.bytes, f.why, end)
         else if f.bytes[0] <= 4 then BinaryFails(f.bytes, f.why, off, end)
         else FieldFails(f.bytes, f.why, end)
  }

  /** Children one after the other, of which only the last may be refused. */
  ghost predicate AllAt(d: seq<byte>, off: nat, children: seq<Element>)
    decreases children
  {
    children != [] ==>
      && Stands(d, off, children[0])
      && (Sense(children[0]).Err? ==> |children| == 1)
      && AllAt(d, off + Length(children[0]), children[1..])
  }

  // ---------------------------------------------------------------- the pieces decide

  function Says<T>(p: Part<T>, off: nat): Read<T> { Done(p.value, off + |p.bytes|) }

  lemma HeaderReads(d: seq<byte>, off: nat, p: Part<nat>)
    requires HeaderAt(d, off, p)
    ensures ReadListSize(d, off) == Says(p, off)
  {
    AtIndex(d, off, p.bytes);
    assert d[off] == p.bytes[0];
    if |p.bytes| > 1 { assert d[off + 1] == p.bytes[1]; }
    if |p.bytes| > 2 { assert d[off + 2] == p.bytes[2]; }
  }

  lemma HeaderStops(d: seq<byte>, off: nat, f: Failure)
    requires NoHeaderAt(d, off, f)
    ensures ReadListSize(d, off) == Stopped(f.why)
  {
    AtIndex(d, off, f.bytes);
    if |f.bytes| > 0 { assert d[off] == f.bytes[0]; }
  }

  lemma FieldReads(d: seq<byte>, off: nat, p: Part<Text>)
    requires FieldAt(d, off, p)
    ensures ReadText(d, off) == Says(p, off)
  {
    hide DecodeText, Ascii;
    AtIndex(d, off, p.bytes);
    assert d[off] == p.bytes[0] && d[off + 1] == p.bytes[1];
    if p.bytes[0] == 6 {
      TokenAt(p.bytes[1]);
      hide SINGLE_BYTE_TOKENS;
    } else {
      assert d[off + 2] == p.bytes[2];
      assert p.bytes[..3] + p.bytes[3..] == p.bytes;
      AtSplit(d, off, p.bytes[..3], p.bytes[3..]);
    }
  }

  lemma FieldStops(d: seq<byte>, off: nat, f: Failure)
    requires NoFieldAt(d, off, f)
    ensures ReadText(d, off) == Stopped(f.why)
  {
    hide DecodeText, Ascii;
    AtIndex(d, off, f.bytes);
    if |f.bytes| > 0 { assert d[off] == f.bytes[0]; }
    if |f.bytes| > 1 { assert d[off + 1] == f.bytes[1]; }
    if |f.bytes| > 2 { assert d[off + 2] == f.bytes[2]; }
  }

  lemma BinaryReads(d: seq<byte>, off: nat, p: Part<seq<byte>>)
    requires At(d, off, p.bytes) && IsBinary(p.bytes, p.value)
    ensures off < |d| && d[off] in {3, 4} && ReadBinary(d, off) == Says(p, off)
  {
    AtIndex(d, off, p.bytes);
    assert d[off] == p.bytes[0] && d[off + 1] == p.bytes[1];
    var n := if p.bytes[0] == 3 then 2 else 5;
    assert p.bytes[..n] + p.bytes[n..] == p.bytes;
    AtSplit(d, off, p.bytes[..n], p.bytes[n..]);
    if n == 5 { NumberRead(d, off, p.bytes); }
  }

  lemma NumberRead(d: seq<byte>, off: nat, b: seq<byte>)
    requires |b| >= 5 && At(d, off, b[..5])
    ensures off + 5 <= |d|
    ensures SignedLength(d[off + 1..off + 5]) == if b[1] < 128 then Number(b) else Number(b) - 0x1_0000_0000
  {
    var e := d[off + 1..off + 5];
    assert e == d[off..off + 5][1..] == b[..5][1..];
    assert e[0] == b[1] && e[1] == b[2] && e[2] == b[3] && e[3] == b[4];
  }

  lemma BinaryStops(d: seq<byte>, off: nat, f: Failure)
    requires At(d, off, f.bytes) && f.bytes != [] && f.bytes[0] in {3, 4}
    requires BinaryFails(f.bytes, f.why, off, off + |f.bytes| == |d|)
    ensures off < |d| && d[off] in {3, 4} && ReadBinary(d, off) == Stopped(f.why)
  {
    AtIndex(d, off, f.bytes);
    assert d[off] == f.bytes[0];
    if |f.bytes| > 1 { assert d[off + 1] == f.bytes[1]; }
    if |f.bytes| >= 5 {
      assert f.bytes[..5] + f.bytes[5..] == f.bytes;
      AtSplit(d, off, f.bytes[..5], f.bytes[5..]);
      if f.bytes[0] == 4 { NumberRead(d, off, f.bytes); }
    }
  }

  lemma {:induction false} FieldsRead(d: seq<byte>, off: nat, fields: seq<Part<Text>>, count: nat, attrs: seq<Attr>)
    requires off <= |d| && FieldsAt(d, off, fields) && |fields| == 2 * count
    ensures off + FieldsLength(fields) <= |d|
    ensures ReadAttrs(d, off, count, attrs) == Done(Assigned(fields, attrs), off + FieldsLength(fields))
    decreases count
  {
    hide ReadText, FieldAt, SetAttr;
    if count > 0 {
      FieldReads(d, off, fields[0]);
      FieldReads(d, off + |fields[0].bytes|, fields[1]);
      assert fields[1..][0] == fields[1] && fields[1..][1..] == fields[2..];
      var next := off + |fields[0].bytes| + |fields[1].bytes|;
      FieldsRead(d, next, fields[2..], count - 1, SetAttr(attrs, fields[0].value, fields[1].value));
    }
  }

  lemma {:induction false} FieldsStop(d: seq<byte>, off: nat, fields: seq<Part<Text>>, f: Failure, count: nat,
                                      attrs: seq<Attr>)
    requires off <= |d| && FieldsAt(d, off, fields) && |fields| < 2 * count
    requires NoFieldAt(d, off + FieldsLength(fields), f)
    ensures ReadAttrs(d, off, count, attrs) == Stopped(f.why)
    decreases count
  {
    hide ReadText, FieldAt, NoFieldAt, SetAttr;
    if fields == [] {
      FieldStops(d, off, f);
    } else {
      FieldReads(d, off, fields[0]);
      var next := off + |fields[0].bytes|;
      if |fields| == 1 {
        FieldStops(d, next, f);
      } else {
        FieldReads(d, next, fields[1]);
        assert fields[1..][0] == fields[1] && fields[1..][1..] == fields[2..];
        FieldsStop(d, next + |fields[1].bytes|, fields[2..], f, count - 1,
                   SetAttr(attrs, fields[0].value, fields[1].value));
      }
    }
  }

  function Outcome<T>(r: Result<T, Stop>, next: nat): Read<T> {
    match r
    case Ok(value) => Done(value, next)
    case Err(why) => Stopped(why)
  }

  lemma NothingAt(d: seq<byte>, off: nat)
    ensures BodyAt(d, off, NoBody) && BodySense(NoBody) == Ok(Missing) && BodyLength(NoBody) == 0
  {}

  lemma {:induction false} ElementReads(d: seq<byte>, off: nat, e: Element)
    requires off <= |d| && Stands(d, off, e)
    ensures ReadNode(d, off) == Outcome(Sense(e), off + Length(e))
    decreases e
  {
    hide ReadListSize, ReadText, ReadAttrs, ReadContent, HeaderAt, NoHeaderAt, FieldAt, NoFieldAt, FieldsAt, BodyAt;
    hide BodySense, BodyLength;
    match e {
      case BadHeader(f) =>
        if NoHeaderAt(d, off, f) { HeaderStops(d, off, f); } else { HeaderReads(d, off, Part(f.bytes, 0)); }
      case BadTag(header, f) =>
        HeaderReads(d, off, header);
        FieldStops(d, off + |header.bytes|, f);
      case BadField(header, tag, fields, f) =>
        HeaderReads(d, off, header);
        FieldReads(d, off + |header.bytes|, tag);
        FieldsStop(d, off + |header.bytes| + |tag.bytes|, fields, f, (header.value - 1) / 2, []);
      case Element(header, tag, fields, body) =>
        HeaderReads(d, off, header);
        FieldReads(d, off + |header.bytes|, tag);
        FieldsRead(d, off + |header.bytes| + |tag.bytes|, fields, (header.value - 1) / 2, []);
        var s := off + |header.bytes| + |tag.bytes| + FieldsLength(fields);
        if body.NoBody? { NothingAt(d, s); } else { BodyReads(d, s, body); }
        WholeReads(d, off, header, tag, Assigned(fields, []), s, BodySense(body), s + BodyLength(body));
    }
  }

  lemma WholeReads(d: seq<byte>, off: nat, header: Part<nat>, tag: Part<Text>, attrs: seq<Attr>, s: nat,
                   content: Result<Content, Stop>, next: nat)
    requires ReadListSize(d, off) == Says(header, off) && header.value > 0
    requires ReadText(d, off + |header.bytes|) == Says(tag, off + |header.bytes|)
    requires ReadAttrs(d, off + |header.bytes| + |tag.bytes|, (header.value - 1) / 2, []) == Done(attrs, s)
    requires if header.value % 2 == 1 then content == Ok(Missing) && next == s
             else s <= |d| && ReadContent(d, s) == Outcome(content, next)
    ensures ReadNode(d, off) ==
            match content { case Ok(c) => Done(Node(tag.value, attrs, c), next) case Err(why) => Stopped(why) }
  {
    hide ReadListSize, ReadText, ReadAttrs, ReadContent;
    assert (header.value - 1) % 2 == 1 - header.value % 2;
  }

  lemma {:induction false} BodyReads(d: seq<byte>, off: nat, body: Body)
    requires off <= |d| && BodyAt(d, off, body) && !body.NoBody?
    ensures ReadContent(d, off) == Outcome(BodySense(body), off + BodyLength(body))
    decreases body
  {
    hide ReadListSize, ReadText, ReadBinary, ReadNodes, HeaderAt, FieldAt, At, IsHeader, IsField, IsBinary;
    match body {
      case Cut =>
      case Data(p) => BinaryReads(d, off, p);
      case Words(p) => WordsRead(d, off, p);
      case List(header, children) =>
        ListHeader(d, off, header);
        AllRead(d, off + |header.bytes|, children, header.value, []);
        assert AllSense(children).Ok? ==> [] + AllSense(children).value == AllSense(children).value;
        hide AllAt, AllSense;
      case BadBody(f) => BodyStops(d, off, f);
    }
  }

  lemma WordsRead(d: seq<byte>, off: nat, p: Part<Text>)
    requires FieldAt(d, off, p)
    ensures off < |d| && d[off] > 4 && ReadText(d, off) == Says(p, off)
  {
    FieldReads(d, off, p);
    FirstByte(d, off, p.bytes);
  }

  lemma ListHeader(d: seq<byte>, off: nat, p: Part<nat>)
    requires HeaderAt(d, off, p)
    ensures off < |d| && d[off] <= 2 && off + |p.bytes| <= |d| && ReadListSize(d, off) == Says(p, off)
  {
    HeaderReads(d, off, p);
    FirstByte(d, off, p.bytes);
  }

  lemma BodyStops(d: seq<byte>, off: nat, f: Failure)
    requires BodyAt(d, off, BadBody(f))
    ensures ReadContent(d, off) == Stopped(f.why)
  {
    hide ReadListSize, ReadText, ReadBinary, ReadNodes, HeaderFails, FieldFails, BinaryFails;
    FirstByte(d, off, f.bytes);
    if f.bytes[0] <= 2 {
      HeaderStops(d, off, f);
    } else if f.bytes[0] <= 4 {
      BinaryStops(d, off, f);
    } else {
      FieldStops(d, off, f);
    }
  }

  lemma FirstByte(d: seq<byte>, off: nat, b: seq<byte>)
    requires At(d, off, b) && b != []
    ensures off < |d| && d[off] == b[0]
  {
    AtIndex(d, off, b);
  }

  lemma {:induction false} AllRead(d: seq<byte>, off: nat, children: seq<Element>, count: nat, nodes: seq<Node>)
    requires off <= |d| && AllAt(d, off, children)
    requires |children| <= count && (AllSense(children).Ok? ==> |children| == count)
    ensures ReadNodes(d, off, count, nodes) == Outcome(Joined(nodes, AllSense(children)), off + AllLength(children))
    decreases children
  {
    hide ReadNode, Stands, Sense, Length;
    if children != [] {
      ElementReads(d, off, children[0]);
      var r := ReadNode(d, off);
      if r.Done? {
        AllRead(d, r.next, children[1..], count - 1, nodes + [r.value]);
        if AllSense(children[1..]).Ok? {
          var more := AllSense(children[1..]).value;
          assert nodes + [r.value] + more == nodes + ([r.value] + more);
        }
      }
    } else {
      assert nodes + [] == nodes;
    }
  }

  function Joined(nodes: seq<Node>, more: Result<seq<Node>, Stop>): Result<seq<Node>, Stop> {
    if more.Ok? then Ok(nodes + more.value) else more
  }

  // ---------------------------------------------------------------- every input falls into pieces

  lemma SliceAt(d: seq<byte>, off: nat, n: nat)
    requires off + n <= |d|
    ensures At(d, off, d[off..off + n])
  {}

  lemma CutHeader(d: seq<byte>, off: nat) returns (r: Result<Part<nat>, Failure>)
    requires off <= |d|
    ensures r.Ok? ==> HeaderAt(d, off, r.value) && r.value.bytes != [] && off + |r.value.bytes| <= |d|
    ensures r.Err? ==> NoHeaderAt(d, off, r.error)
    ensures off < |d| ==> (if r.Ok? then r.value.bytes else r.error.bytes) != []
  {
    var rest := d[off..];
    if rest == [] { return Err(Failure([], Eof)); }
    var tag := rest[0];
    var n := if tag == 1 then 2 else if tag == 2 then 3 else 1;
    if n > |rest| {
      SliceAt(d, off, |rest|);
      assert d[off..off + |rest|] == rest;
      assert |rest| == 1 ==> rest == [tag];
      return Err(Failure(rest, Eof));
    }
    var b := d[off..off + n];
    SliceAt(d, off, n);
    assert b[0] == tag && (n == 1 ==> b == [tag]);
    if tag > 2 { return Err(Failure(b, BadListTag(tag))); }
    return Ok(Part(b, if n == 1 then 0 else if n == 2 then b[1] else Pair(b)));
  }

  lemma CutField(d: seq<byte>, off: nat) returns (r: Result<Part<Text>, Failure>)
    requires off <= |d|
    ensures r.Ok? ==> FieldAt(d, off, r.value) && r.value.bytes != [] && off + |r.value.bytes| <= |d|
    ensures r.Err? ==> NoFieldAt(d, off, r.error)
    ensures off < |d| ==> (if r.Ok? then r.value.bytes else r.error.bytes) != []
  {
    hide DecodeText, SINGLE_BYTE_TOKENS, Ascii;
    var rest := d[off..];
    if rest == [] { return Err(Failure([], Eof)); }
    var tag := rest[0];
    var n := if tag == 6 then 2 else if tag != 5 then 1 else if |rest| < 3 then 3 else 3 + Pair(rest);
    if n > |rest| {
      SliceAt(d, off, |rest|);
      assert d[off..off + |rest|] == rest;
      assert |rest| == 1 ==> rest == [tag];
      return Err(Failure(rest, Eof));
    }
    var b := d[off..off + n];
    SliceAt(d, off, n);
    assert b[0] == tag && (n == 1 ==> b == [tag]) && (n == 2 ==> b == [tag, b[1]]);
    if tag == 6 {
      TableSize();
      if b[1] >= 57 { return Err(Failure(b, BadToken(b[1]))); }
      return Ok(Part(b, Ascii(SINGLE_BYTE_TOKENS[b[1]])));
    }
    if tag != 5 { return Err(Failure(b, BadStringTag(tag))); }
    return Ok(Part(b, DecodeText(b[3..])));
  }

  lemma TableSize()
    ensures |SINGLE_BYTE_TOKENS| == 57
  {}

  lemma CutBinary(d: seq<byte>, off: nat) returns (r: Result<Part<seq<byte>>, Failure>)
    requires off < |d| && d[off] in {3, 4}
    ensures r.Ok? ==> At(d, off, r.value.bytes) && IsBinary(r.value.bytes, r.value.value)
    ensures r.Err? ==> At(d, off, r.error.bytes) && r.error.bytes != [] && r.error.bytes[0] in {3, 4}
    ensures r.Err? ==> BinaryFails(r.error.bytes, r.error.why, off, off + |r.error.bytes| == |d|)
  {
    var rest := d[off..];
    var short := rest[0] == 3;
    var m := if short then 2 else 5;
    var n := if |rest| < m then m
             else if short then 2 + rest[1] as int
             else if rest[1] < 128 then 5 + Number(rest) else 5;
    var b := d[off..off + (if n > |rest| then |rest| else n)];
    SliceAt(d, off, |b|);
    assert b == rest[..|b|];
    if n > |rest| { return Err(Failure(b, Eof)); }
    if !short && rest[1] >= 128 { return Err(Failure(b, Rewinds(off + 5 + Number(rest) - 0x1_0000_0000))); }
    return Ok(Part(b, b[m..]));
  }

  lemma {:induction false} CutFields(d: seq<byte>, off: nat, count: nat)
      returns (fields: seq<Part<Text>>, f: Option<Failure>)
    requires off <= |d|
    ensures FieldsAt(d, off, fields) && off + FieldsLength(fields) <= |d|
    ensures if f.Some? then |fields| < count && NoFieldAt(d, off + FieldsLength(fields), f.value) else |fields| == count
    decreases count
  {
    hide FieldAt, NoFieldAt;
    fields, f := [], None;
    if count > 0 {
      var first := CutField(d, off);
      if first.Err? { return [], Some(first.error); }
      FieldReads(d, off, first.value);
      var more;
      more, f := CutFields(d, off + |first.value.bytes|, count - 1);
      fields := [first.value] + more;
      assert fields[1..] == more;
    }
  }

  /** Every input has its pieces. */
  lemma {:induction false} CutElement(d: seq<byte>, off: nat) returns (e: Element)
    requires off <= |d|
    ensures Stands(d, off, e)
    decreases |d| - off, 1
  {
    hide HeaderAt, NoHeaderAt, FieldAt, NoFieldAt, BodyAt, FieldsAt;
    var header := CutHeader(d, off);
    if header.Err? { return BadHeader(header.error); }
    if header.value.value == 0 { return BadHeader(Failure(header.value.bytes, EmptyNode)); }
    var tag := CutField(d, off + |header.value.bytes|);
    if tag.Err? { return BadTag(header.value, tag.error); }
    e := CutParts(d, off, header.value, tag.value);
  }

  lemma {:induction false} CutParts(d: seq<byte>, off: nat, header: Part<nat>, tag: Part<Text>) returns (e: Element)
    requires HeaderAt(d, off, header) && header.value > 0 && FieldAt(d, off + |header.bytes|, tag)
    requires header.bytes != [] && off + |header.bytes| + |tag.bytes| <= |d|
    ensures Stands(d, off, e)
    decreases |d| - off, 0
  {
    hide HeaderAt, FieldAt, NoFieldAt, BodyAt, FieldsAt;
    var q, count := off + |header.bytes| + |tag.bytes|, (header.value - 1) / 2 * 2;
    var fields, f := CutFields(d, q, count);
    if f.Some? { return BadField(header, tag, fields, f.value); }
    if header.value % 2 == 1 {
      NothingAt(d, q + FieldsLength(fields));
      return Element(header, tag, fields, NoBody);
    }
    var body := CutBody(d, q + FieldsLength(fields));
    return Element(header, tag, fields, body);
  }

  /** A failing piece where a content of its kind begins. */
  lemma Refused(d: seq<byte>, off: nat, f: Failure)
    requires f.bytes != [] && off < |d|
    requires (d[off] > 4 && NoFieldAt(d, off, f)) || (d[off] <= 2 && NoHeaderAt(d, off, f))
    ensures BodyAt(d, off, BadBody(f))
  {
    FirstByte(d, off, f.bytes);
    hide FieldFails, HeaderFails;
  }

  lemma {:induction false} CutBody(d: seq<byte>, off: nat) returns (body: Body)
    requires off <= |d|
    ensures BodyAt(d, off, body) && !body.NoBody?
    decreases |d| - off, 2
  {
    hide HeaderAt, NoHeaderAt, FieldAt, NoFieldAt, Stands;
    if off == |d| { return Cut; }
    if d[off] > 4 {
      var text := CutField(d, off);
      if text.Ok? { return Words(text.value); }
      Refused(d, off, text.error);
      return BadBody(text.error);
    }
    if d[off] > 2 {
      var data := CutBinary(d, off);
      if data.Ok? { return Data(data.value); }
      return BadBody(data.error);
    }
    var header := CutHeader(d, off);
    if header.Err? {
      Refused(d, off, header.error);
      return BadBody(header.error);
    }
    ListHeader(d, off, header.value);
    var children := CutAll(d, off + |header.value.bytes|, header.value.value);
    return List(header.value, children);
  }

  lemma {:induction false} CutAll(d: seq<byte>, off: nat, count: nat) returns (children: seq<Element>)
    requires off <= |d|
    ensures AllAt(d, off, children) && |children| <= count && (AllSense(children).Ok? ==> |children| == count)
    decreases |d| - off, 3, count
  {
    hide Stands, Sense, Length;
    children := [];
    if count > 0 {
      var first := CutElement(d, off);
      if Sense(first).Ok? { ElementEnds(d, off, first); }
      hide AllAt, AllSense;
      if Sense(first).Ok? { children := CutAll(d, off + Length(first), count - 1); }
      MoreAt(d, off, first, children);
      children := [first] + children;
    }
  }

  lemma ElementEnds(d: seq<byte>, off: nat, e: Element)
    requires off <= |d| && Stands(d, off, e) && Sense(e).Ok?
    ensures off < off + Length(e) <= |d|
  {
    hide ReadNode, Stands, Sense, Length;
    ElementReads(d, off, e);
  }

  lemma MoreAt(d: seq<byte>, off: nat, first: Element, more: seq<Element>)
    requires Stands(d, off, first)
    requires if Sense(first).Ok? then AllAt(d, off + Length(first), more) else more == []
    ensures AllAt(d, off, [first] + more)
    ensures AllSense([first] + more).Ok? ==> Sense(first).Ok? && AllSense(more).Ok?
  {
    hide Stands, Sense, Length;
    assert ([first] + more)[1..] == more;
  }

  // ---------------------------------------------------------------- attributes

  /** The value of the last pair with the key. */
  function LastValue(fields: seq<Part<Text>>, key: Text): Option<Text>
    decreases |fields|
  {
    if |fields| < 2 then None
    else
      var later := LastValue(fields[2..], key);
      if later.Some? then later else if fields[0].value == key then Some(fields[1].value) else None
  }

  lemma {:induction false} SetAttrMeans(attrs: seq<Attr>, key: Text, value: Text, a: Attr)
    requires UniqueKeys(attrs)
    ensures a in SetAttr(attrs, key, value) <==> if a.key == key != PROTO then a.value == value else a in attrs
  {
    if key != PROTO && attrs != [] {
      assert attrs == [attrs[0]] + attrs[1..];
      if attrs[0].key == key {
        assert forall b :: b in attrs[1..] ==> b.key != key;
      } else {
        SetAttrMeans(attrs[1..], key, value, a);
      }
    }
  }

  /** The attributes of a node: of the pairs with one key the last one counts, and "__proto__" never
      does. */
  lemma {:induction false} AssignedMeans(fields: seq<Part<Text>>, attrs: seq<Attr>, a: Attr)
    requires UniqueKeys(attrs)
    ensures a in Assigned(fields, attrs) <==>
            if a.key != PROTO && LastValue(fields, a.key).Some? then LastValue(fields, a.key) == Some(a.value)
            else a in attrs
    decreases |fields|
  {
    if |fields| >= 2 {
      var key, value := fields[0].value, fields[1].value;
      SetAttrUnique(attrs, key, value);
      SetAttrMeans(attrs, key, value, a);
      hide SetAttr, UniqueKeys;
      AssignedMeans(fields[2..], SetAttr(attrs, key, value), a);
    }
  }

  // ---------------------------------------------------------------- what decoding gives

  /** The pieces decide: decoding gives what they say or refuses for the reason they give, unless the
      offset moves back. */
  lemma DecodesAsPieces(d: seq<byte>, e: Element)
    requires Stands(d, 0, e)
    ensures Decode(d) == Outcome(Sense(e), Length(e))
    ensures Sense(e).Ok? || !Sense(e).error.Rewinds? ==>
              Decoded(d) == Lift(Outcome(Sense(e), Length(e)), Decoded(d).log)
  {
    hide NodeAt, ReadNode, Decoded, Stands, Sense, Length, MovedBack, AllGenuine;
    ElementReads(d, 0, e);
    MovesBackExactly(d, |d| + 1);
  }

  /** An input is accepted as a node, up to an offset, if and only if it begins with such pieces of it. */
  lemma AcceptedExactly(d: seq<byte>, n: Node, next: nat)
    ensures Decode(d) == Done(n, next) <==> exists e :: Stands(d, 0, e) && Sense(e) == Ok(n) && Length(e) == next
  {
    hide Decode, Stands, Sense, Length;
    var e := CutElement(d, 0);
    DecodesAsPieces(d, e);
    forall other | Stands(d, 0, other) ensures Outcome(Sense(other), Length(other)) == Decode(d) {
      DecodesAsPieces(d, other);
    }
  }

  /** It is refused for a reason if and only if it begins with pieces of which the last one fails for
      that reason. */
  lemma RefusedExactly(d: seq<byte>, why: Stop)
    ensures Decode(d) == Stopped(why) <==> exists e :: Stands(d, 0, e) && Sense(e) == Err(why)
  {
    hide Decode, Stands, Sense, Length;
    var e := CutElement(d, 0);
    DecodesAsPieces(d, e);
    forall other | Stands(d, 0, other) ensures Outcome(Sense(other), Length(other)) == Decode(d) {
      DecodesAsPieces(d, other);
    }
  }

  /** Every input that is accepted, also by moving back, begins with 1 or 2; any other first byte but 0
      is refused as a list tag. */
  lemma FirstTag(d: seq<byte>)
    ensures Decoded(d).Reached? ==> d != [] && d[0] in {1, 2}
    ensures d != [] && d[0] > 2 ==> Decoded(d).Halted? && Decoded(d).why == BadListTag(d[0])
    ensures d != [] && d[0] == 0 ==> Decoded(d).Halted? && Decoded(d).why == EmptyNode
    ensures d == [] ==> Decoded(d).Halted? && Decoded(d).why == Eof
  {
    if d == [] || d[0] !in {1, 2} {
      var b := d[..if d == [] then 0 else 1];
      assert d[0..|b|] == b && (d != [] ==> b == [d[0]]);
      var e := BadHeader(Failure(b, if d == [] then Eof else if d[0] == 0 then EmptyNode else BadListTag(d[0])));
      assert Stands(d, 0, e);
      hide Decoded, Stands;
      DecodesAsPieces(d, e);
    }
  }
}
