/** What the format guarantees: the encoder's limits, what comes back of every node, and the exact
    condition for a round trip. */
module RoundTrips {
  import opened Options
  import opened Tokens
  import opened Wire
  import opened Reading
  import opened Utf8

  // ---------------------------------------------------------------- limits

  ghost predicate TextFits(t: Text) {
    GetTokenIndex(t).Some? || |t| <= 65535
  }

  /** Every list size, child count and string length of the tree is within its limit. */
  ghost predicate Fits(n: Node) {
    && ListSize(n) <= 65535
    && TextFits(n.tag)
    && (forall a :: a in n.attrs ==> TextFits(a.key) && TextFits(a.value))
    && (n.content.Children? ==>
          |n.content.nodes| <= 65535 && forall c :: c in n.content.nodes ==> Fits(c))
  }

  lemma {:induction false} AttrsFit(attrs: seq<Attr>)
    ensures AttrError(attrs).None? <==> forall a :: a in attrs ==> TextFits(a.key) && TextFits(a.value)
  {
    if attrs != [] {
      assert attrs == [attrs[0]] + attrs[1..];
      AttrsFit(attrs[1..]);
    }
  }

  lemma {:induction false} NodesFit(nodes: seq<Node>)
    ensures NodesError(nodes).None? <==> forall c :: c in nodes ==> Fits(c)
    decreases nodes
  {
    if nodes != [] {
      assert nodes == [nodes[0]] + nodes[1..];
      EncoderLimits(nodes[0]);
      NodesFit(nodes[1..]);
    }
  }

  /** The encoder succeeds exactly when every limit holds. */
  lemma {:induction false} EncoderLimits(n: Node)
    ensures Encode(n).Ok? <==> Fits(n)
    decreases n
  {
    AttrsFit(n.attrs);
    if n.content.Children? { NodesFit(n.content.nodes); }
  }

  /** The limits in the order in which the encoder meets them, each with what breaking it throws. */
  function Limits(n: Node): seq<Option<EncodeError>>
    decreases n
  {
    [CountLimit(1 + 2 * |n.attrs| + (if n.content.Missing? then 0 else 1)), TextLimit(n.tag)] + AttrLimits(n.attrs)
    + if n.content.Children? then [CountLimit(|n.content.nodes|)] + AllLimits(n.content.nodes) else []
  }

  function CountLimit(size: nat): Option<EncodeError> { if size > 65535 then Some(ListTooLong(size)) else None }

  function TextLimit(t: Text): Option<EncodeError> {
    if |t| > 65535 && GetTokenIndex(t).None? then Some(StringTooLong) else None
  }

  function AttrLimits(attrs: seq<Attr>): seq<Option<EncodeError>> {
    if attrs == [] then [] else [TextLimit(attrs[0].key), TextLimit(attrs[0].value)] + AttrLimits(attrs[1..])
  }

  function AllLimits(nodes: seq<Node>): seq<Option<EncodeError>>
    decreases nodes
  {
    if nodes == [] then [] else Limits(nodes[0]) + AllLimits(nodes[1..])
  }

  function FirstBroken(limits: seq<Option<EncodeError>>): Option<EncodeError> {
    if limits == [] then None else if limits[0].Some? then limits[0] else FirstBroken(limits[1..])
  }

  lemma {:induction false} BrokenConcat(a: seq<Option<EncodeError>>, b: seq<Option<EncodeError>>)
    ensures FirstBroken(a + b) == First(FirstBroken(a), FirstBroken(b))
  {
    if a == [] {
      assert a + b == b;
    } else {
      assert (a + b)[1..] == a[1..] + b;
      BrokenConcat(a[1..], b);
    }
  }

  lemma {:induction false} AttrsBroken(attrs: seq<Attr>)
    ensures FirstBroken(AttrLimits(attrs)) == AttrError(attrs)
  {
    hide GetTokenIndex;
    if attrs != [] {
      var both := [TextLimit(attrs[0].key), TextLimit(attrs[0].value)];
      BrokenConcat(both, AttrLimits(attrs[1..]));
      AttrsBroken(attrs[1..]);
      assert both[1..] == [both[1]] && both[1..][1..] == [];
    }
  }

  lemma {:induction false} NodesBroken(nodes: seq<Node>)
    ensures FirstBroken(AllLimits(nodes)) == NodesError(nodes)
    decreases nodes
  {
    hide Limits, NodeError;
    if nodes != [] {
      BrokenConcat(Limits(nodes[0]), AllLimits(nodes[1..]));
      NodeBroken(nodes[0]);
      NodesBroken(nodes[1..]);
    }
  }

  lemma {:induction false} NodeBroken(n: Node)
    ensures FirstBroken(Limits(n)) == NodeError(n)
    decreases n
  {
    hide GetTokenIndex;
    var size := CountLimit(1 + 2 * |n.attrs| + (if n.content.Missing? then 0 else 1));
    var head := [size, TextLimit(n.tag)];
    var rest := if n.content.Children? then [CountLimit(|n.content.nodes|)] + AllLimits(n.content.nodes) else [];
    BrokenConcat(head + AttrLimits(n.attrs), rest);
    BrokenConcat(head, AttrLimits(n.attrs));
    AttrsBroken(n.attrs);
    assert head[1..] == [head[1]] && head[1..][1..] == [];
    if n.content.Children? {
      assert rest[1..] == AllLimits(n.content.nodes);
      NodesBroken(n.content.nodes);
    }
  }

  /** The encoder throws for the first limit that is broken, in writing order, and never else. */
  lemma EncoderError(n: Node)
    ensures match FirstBroken(Limits(n)) {
      case None => Encode(n).Ok?
      case Some(e) => Encode(n) == Err(e)
    }
  {
    NodeBroken(n);
    hide NodeError, Limits, NodeBytes;
  }

  // ---------------------------------------------------------------- positions

  /** The bytes `e` stand at offset `off` of `d`. */
  ghost predicate At(d: seq<byte>, off: nat, e: seq<byte>) {
    off + |e| <= |d| && d[off..off + |e|] == e
  }

  lemma AtSplit(d: seq<byte>, off: nat, a: seq<byte>, b: seq<byte>)
    requires At(d, off, a + b)
    ensures At(d, off, a) && At(d, off + |a|, b)
  {
    var e := d[off..off + |a + b|];
    assert e[..|a|] == a && e[|a|..] == b;
    assert e[..|a|] == d[off..off + |a|] && e[|a|..] == d[off + |a|..off + |a| + |b|];
  }

  lemma AtIndex(d: seq<byte>, off: nat, e: seq<byte>)
    requires At(d, off, e)
    ensures forall i {:trigger e[i]} :: 0 <= i < |e| ==> d[off + i] == e[i]
  {
    forall i | 0 <= i < |e| ensures d[off + i] == e[i] {
      assert d[off..off + |e|][i] == e[i];
    }
  }

  // ---------------------------------------------------------------- one field

  lemma ShortRead(d: seq<byte>, off: nat, size: nat)
    requires size < 65536 && At(d, off, [High(size), Low(size)])
    ensures ReadShort(d, off) == Done(size, off + 2)
  {
    AtIndex(d, off, [High(size), Low(size)]);
  }

  lemma HeaderRead(d: seq<byte>, off: nat, size: nat)
    requires size < 65536 && At(d, off, HeaderBytes(size))
    ensures ReadListSize(d, off) == Done(size, off + |HeaderBytes(size)|)
  {
    AtIndex(d, off, HeaderBytes(size));
    assert d[off] == HeaderBytes(size)[0];
    if 0 < size < 256 {
      assert d[off + 1] == HeaderBytes(size)[1];
    } else if size >= 256 {
      AtSplit(d, off, [TAG_LIST_16], [High(size), Low(size)]);
      ShortRead(d, off + 1, size);
      hide ReadShort;
    }
  }

  lemma StringRead(d: seq<byte>, off: nat, t: Text)
    requires |t| <= 65535 && At(d, off, [TAG_STRING, High(|t|), Low(|t|)] + t)
    ensures ReadText(d, off) == Done(DecodeText(t), off + 3 + |t|)
  {
    AtSplit(d, off, [TAG_STRING, High(|t|), Low(|t|)], t);
    AtSplit(d, off, [TAG_STRING], [High(|t|), Low(|t|)]);
    AtIndex(d, off, [TAG_STRING]);
    ShortRead(d, off + 1, |t|);
    assert ReadBytes(d, off + 3, |t|) == Done(t, off + 3 + |t|);
  }

  /** What comes back of a string: a token unchanged, any other string without a leading byte order
      mark and with U+FFFD for a lone surrogate. */
  function ReceivedText(t: Text): Text {
    if GetTokenIndex(t).Some? then t else DecodeText(Written(t))
  }

  lemma TextRead(d: seq<byte>, off: nat, t: Text)
    requires TextFits(t) && At(d, off, TextBytes(t))
    ensures ReadText(d, off) == Done(ReceivedText(t), off + |TextBytes(t)|)
  {
    hide GetToken, IndexBelow, DecodeText, Written;
    match GetTokenIndex(t) {
      case Some(i) => AtIndex(d, off, [TAG_TOKEN, i]);
      case None => StringRead(d, off, Written(t));
    }
  }

  lemma QuotientSteps(len: nat)
    ensures len / 0x1_0000 == len / 0x100 / 0x100
    ensures len / 0x100_0000 == len / 0x100 / 0x100 / 0x100
    ensures len / 0x1_0000_0000 == len / 0x100 / 0x100 / 0x100 / 0x100
  {}

  lemma LengthRead(len: nat)
    ensures var u := len % 0x1_0000_0000;
            SignedLength(LengthBytes(len)) == if u < 0x8000_0000 then u else u - 0x1_0000_0000
  {
    QuotientSteps(len);
    var q0 := len / 0x100;
    var q1 := q0 / 0x100;
    var q2 := q1 / 0x100;
    var q3 := q2 / 0x100;
    var low := 0x100_0000 * (q2 % 0x100) + 0x1_0000 * (q1 % 0x100) + 0x100 * (q0 % 0x100) + len % 0x100;
    assert len == 0x1_0000_0000 * q3 + low;
    assert len % 0x1_0000_0000 == low;
    var b := LengthBytes(len);
    assert b[0] == q2 % 0x100 && b[1] == q1 % 0x100 && b[2] == q0 % 0x100 && b[3] == len % 0x100;
  }

  lemma LengthShort(len: nat)
    ensures var read := SignedLength(LengthBytes(len)); if len < 0x8000_0000 then read == len else read < len
  {
    LengthRead(len);
    hide SignedLength, LengthBytes;
    if len < 0x8000_0000 { assert len % 0x1_0000_0000 == len; }
  }

  /** Binary content comes back exactly when its length is below 2^31. */
  lemma BinaryRead(d: seq<byte>, off: nat, data: seq<byte>)
    requires At(d, off, BinaryBytes(data))
    ensures off < |d| && d[off] in {TAG_BINARY_8, TAG_BINARY_32}
    ensures |data| < 0x8000_0000 ==> ReadBinary(d, off) == Done(data, off + |BinaryBytes(data)|)
    ensures |data| >= 0x8000_0000 && ReadBinary(d, off).Done? ==> ReadBinary(d, off).value != data
  {
    if |data| < 256 {
      AtSplit(d, off, [TAG_BINARY_8, |data|], data);
      AtIndex(d, off, [TAG_BINARY_8, |data|]);
    } else {
      LongBinaryRead(d, off, data);
    }
  }

  /** The parts of a long binary. */
  lemma LongBinaryParts(d: seq<byte>, off: nat, data: seq<byte>)
    requires At(d, off, [TAG_BINARY_32] + LengthBytes(|data|) + data)
    ensures off + 5 + |data| <= |d| && d[off] == TAG_BINARY_32
    ensures ReadBytes(d, off + 1, 4) == Done(LengthBytes(|data|), off + 5)
    ensures d[off + 5..off + 5 + |data|] == data
  {
    var length := LengthBytes(|data|);
    assert |length| == 4;
    hide LengthBytes;
    AtSplit(d, off, [TAG_BINARY_32] + length, data);
    AtSplit(d, off, [TAG_BINARY_32], length);
    AtIndex(d, off, [TAG_BINARY_32]);
  }

  lemma LongBinaryRead(d: seq<byte>, off: nat, data: seq<byte>)
    requires At(d, off, [TAG_BINARY_32] + LengthBytes(|data|) + data)
    ensures off < |d| && d[off] == TAG_BINARY_32
    ensures |data| < 0x8000_0000 ==> ReadBinary(d, off) == Done(data, off + 5 + |data|)
    ensures |data| >= 0x8000_0000 && ReadBinary(d, off).Done? ==> |ReadBinary(d, off).value| < |data|
  {
    LengthShort(|data|);
    LongBinaryParts(d, off, data);
    hide SignedLength, LengthBytes, At, ReadBytes;
    var len := SignedLength(LengthBytes(|data|));
    assert ReadBinary(d, off) == if len < 0 then Stopped(Rewinds(off + 5 + len)) else ReadBytes(d, off + 5, len);
    if len >= 0 { ReadLength(d, off + 5, len); }
    hide ReadBinary;
  }

  lemma ReadLength(d: seq<byte>, off: nat, len: nat)
    ensures ReadBytes(d, off, len).Done? ==> |ReadBytes(d, off, len).value| == len
    ensures 0 <= len <= |d| - off ==> ReadBytes(d, off, len) == Done(d[off..off + len], off + len)
  {}

  // ---------------------------------------------------------------- what comes back

  ghost predicate AttrsWithin(attrs: seq<Attr>) {
    forall a :: a in attrs ==> TextFits(a.key) && TextFits(a.value)
  }

  function ReceivedAttrs(attrs: seq<Attr>, done: seq<Attr>): seq<Attr>
    decreases |attrs|
  {
    if attrs == [] then done
    else ReceivedAttrs(attrs[1..], SetAttr(done, ReceivedText(attrs[0].key), ReceivedText(attrs[0].value)))
  }

  /** What decoding gives of an encoded node. */
  function Received(n: Node): Node
    decreases n, 1
  {
    Node(ReceivedText(n.tag), ReceivedAttrs(n.attrs, []), ReceivedContent(n))
  }

  function ReceivedContent(n: Node): Content
    decreases n, 0
  {
    if n.content.Children? then Children(ReceivedAll(n.content.nodes)) else n.content
  }

  function ReceivedAll(nodes: seq<Node>): (r: seq<Node>)
    ensures |r| == |nodes|
    decreases nodes
  {
    if nodes == [] then [] else [Received(nodes[0])] + ReceivedAll(nodes[1..])
  }

  ghost predicate SmallBinaries(n: Node) {
    && (n.content.Bytes? ==> |n.content.data| < 0x8000_0000)
    && (n.content.Children? ==> forall c :: c in n.content.nodes ==> SmallBinaries(c))
  }

  lemma {:induction false} AttrsRead(d: seq<byte>, off: nat, attrs: seq<Attr>, done: seq<Attr>)
    requires AttrsWithin(attrs) && At(d, off, AttrBytes(attrs))
    ensures ReadAttrs(d, off, |attrs|, done) == Done(ReceivedAttrs(attrs, done), off + |AttrBytes(attrs)|)
    decreases |attrs|
  {
    hide ReadText, TextBytes, TextFits, SetAttr, ReceivedText, At;
    if attrs != [] {
      var a, rest := attrs[0], attrs[1..];
      assert attrs == [a] + rest;
      var k, v := TextBytes(a.key), TextBytes(a.value);
      AtSplit(d, off, k + v, AttrBytes(rest));
      AtSplit(d, off, k, v);
      TextRead(d, off, a.key);
      TextRead(d, off + |k|, a.value);
      AttrsRead(d, off + |k + v|, rest, SetAttr(done, ReceivedText(a.key), ReceivedText(a.value)));
    }
  }

  /** The head of an encoded node, read back. */
  lemma HeadRead(n: Node, d: seq<byte>, off: nat) returns (p: nat, q: nat)
    requires ListSize(n) <= 65535 && TextFits(n.tag) && AttrsWithin(n.attrs) && At(d, off, HeadBytes(n))
    ensures ReadListSize(d, off) == Done(ListSize(n), p)
    ensures ReadText(d, p) == Done(ReceivedText(n.tag), q) && q <= |d|
    ensures ReadAttrs(d, q, |n.attrs|, []) == Done(ReceivedAttrs(n.attrs, []), off + |HeadBytes(n)|)
  {
    hide ReadText, TextBytes, ReadListSize, HeaderBytes, TextFits, AttrBytes, ReceivedAttrs;
    var header, text, pairs := HeaderBytes(ListSize(n)), TextBytes(n.tag), AttrBytes(n.attrs);
    AtSplit(d, off, header + text, pairs);
    AtSplit(d, off, header, text);
    HeaderRead(d, off, ListSize(n));
    p := off + |header|;
    TextRead(d, p, n.tag);
    q := p + |text|;
    AttrsRead(d, q, n.attrs, []);
  }

  /** The header of an encoded list of children, read back. */
  lemma ListRead(nodes: seq<Node>, d: seq<byte>, off: nat)
    requires |nodes| <= 65535 && At(d, off, HeaderBytes(|nodes|) + NodesBytes(nodes))
    ensures off < |d| && d[off] in {TAG_LIST_EMPTY, TAG_LIST_8, TAG_LIST_16}
    ensures ReadListSize(d, off) == Done(|nodes|, off + |HeaderBytes(|nodes|)|)
    ensures At(d, off + |HeaderBytes(|nodes|)|, NodesBytes(nodes))
  {
    hide NodesBytes;
    AtSplit(d, off, HeaderBytes(|nodes|), NodesBytes(nodes));
    HeaderRead(d, off, |nodes|);
    hide ReadListSize;
    AtIndex(d, off, HeaderBytes(|nodes|));
  }

  lemma {:induction false} ContentRead(n: Node, d: seq<byte>, off: nat)
    requires Fits(n) && SmallBinaries(n) && !n.content.Missing? && At(d, off, ContentBytes(n))
    ensures ReadContent(d, off) == Done(ReceivedContent(n), off + |ContentBytes(n)|)
    decreases n, 0
  {
    hide ReadText, ReadNodes, NodesBytes, BinaryBytes, ReadBinary, ReadListSize, TextFits, HeaderBytes, At;
    match n.content {
      case Bytes(data) =>
        BinaryRead(d, off, data);
      case Children(nodes) =>
        ListRead(nodes, d, off);
        assert [] + ReceivedAll(nodes) == ReceivedAll(nodes);
        NodesRead(nodes, d, off + |HeaderBytes(|nodes|)|, []);
    }
  }

  lemma {:induction false} NodesRead(nodes: seq<Node>, d: seq<byte>, off: nat, done: seq<Node>)
    requires forall c :: c in nodes ==> Fits(c) && SmallBinaries(c)
    requires At(d, off, NodesBytes(nodes))
    ensures ReadNodes(d, off, |nodes|, done) == Done(done + ReceivedAll(nodes), off + |NodesBytes(nodes)|)
    decreases nodes
  {
    hide ReadNode, NodeBytes, Fits, SmallBinaries, Received, At;
    if nodes == [] {
      assert done + ReceivedAll(nodes) == done;
    } else {
      var n, rest := nodes[0], nodes[1..];
      assert nodes == [n] + rest;
      AtSplit(d, off, NodeBytes(n), NodesBytes(rest));
      NodeRead(n, d, off);
      assert (done + [Received(n)]) + ReceivedAll(rest) == done + ReceivedAll(nodes);
      NodesRead(rest, d, off + |NodeBytes(n)|, done + [Received(n)]);
    }
  }

  /** Reading an encoded node with small binaries, wherever it stands, gives what comes back of it and
      stops right behind it. */
  lemma {:induction false} NodeRead(n: Node, d: seq<byte>, off: nat)
    requires Fits(n) && SmallBinaries(n) && At(d, off, NodeBytes(n))
    ensures ReadNode(d, off) == Done(Received(n), off + |NodeBytes(n)|)
    decreases n, 1
  {
    hide ReadText, ReadListSize, ReadContent, ReadAttrs, HeadBytes, ReceivedAttrs, ReceivedText, TextFits, At;
    AtSplit(d, off, HeadBytes(n), ContentBytes(n));
    var p, q := HeadRead(n, d, off);
    if !n.content.Missing? { ContentRead(n, d, off + |HeadBytes(n)|); }
  }

  /** So does the decoder, if its stack is large enough. */
  lemma NodeReached(n: Node, d: seq<byte>, off: nat, depth: nat, log: seq<Binary>)
    requires Fits(n) && SmallBinaries(n) && At(d, off, NodeBytes(n))
    ensures var r := NodeAt(d, off, depth, log); !Deep(r) ==> r == Reached(Received(n), off + |NodeBytes(n)|, r.log)
  {
    hide NodeAt, ReadNode, NodeBytes, Fits, SmallBinaries, Received, MovedBack;
    if !Deep(NodeAt(d, off, depth, log)) {
      NodeRead(n, d, off);
      NodeAgrees(d, off, depth + |d| + 1, log);
      DeeperNode(d, off, depth, depth + |d| + 1, log);
    }
  }

  // ---------------------------------------------------------------- what stays the same

  /** A string that comes back as it is. */
  ghost predicate TextKept(t: Text) {
    GetTokenIndex(t).Some? || (Valid(t) && !StartsWithBom(t))
  }

  ghost predicate AttrsKept(attrs: seq<Attr>) {
    forall a :: a in attrs ==> a.key != PROTO && TextKept(a.key) && TextKept(a.value)
  }

  /** No untokenised string of the tree has a lone surrogate or starts with a byte order mark, and no
      attribute is called "__proto__". */
  ghost predicate StringsKept(n: Node) {
    && TextKept(n.tag)
    && AttrsKept(n.attrs)
    && (n.content.Children? ==> forall c :: c in n.content.nodes ==> StringsKept(c))
  }

  /** No string of the tree has a lone surrogate. */
  ghost predicate StringsValid(n: Node) {
    && Valid(n.tag) && (forall a :: a in n.attrs ==> Valid(a.key) && Valid(a.value))
    && (n.content.Children? ==> forall c :: c in n.content.nodes ==> StringsValid(c))
  }

  /** What the format preserves: such strings, and binaries below 2^31 bytes. */
  ghost predicate Kept(n: Node) { StringsKept(n) && SmallBinaries(n) }

  lemma TextKeptExactly(t: Text)
    ensures ReceivedText(t) == t <==> TextKept(t)
  {
    hide GetTokenIndex;
    if !Valid(t) {
      RepairMeans(if StartsWithBom(Written(t)) then Written(t)[3..] else Written(t));
      return;
    }
    WrittenSame(t);
    hide Written;
    if StartsWithBom(t) {
      assert t == BOM + t[3..];
      ValidRest(BOM, t[3..]);
      RepairMeans(t[3..]);
    } else {
      RepairMeans(t);
    }
  }

  lemma {:induction false} SetAttrGrows(attrs: seq<Attr>, key: Text, value: Text)
    ensures |attrs| <= |SetAttr(attrs, key, value)| <= |attrs| + 1
    ensures |SetAttr(attrs, key, value)| == |attrs| + 1 ==>
              key != PROTO && SetAttr(attrs, key, value) == attrs + [Attr(key, value)]
    ensures key != PROTO && (forall a :: a in attrs ==> a.key != key) ==>
              SetAttr(attrs, key, value) == attrs + [Attr(key, value)]
  {
    if key != PROTO && attrs != [] && attrs[0].key != key {
      SetAttrGrows(attrs[1..], key, value);
      assert [attrs[0]] + attrs[1..] == attrs;
    }
  }

  lemma {:induction false} SetAttrUnique(attrs: seq<Attr>, key: Text, value: Text)
    requires UniqueKeys(attrs)
    ensures UniqueKeys(SetAttr(attrs, key, value))
    ensures forall a :: a in SetAttr(attrs, key, value) ==> (key != PROTO && a == Attr(key, value)) || a in attrs
  {
    if key != PROTO && attrs != [] && attrs[0].key != key {
      SetAttrUnique(attrs[1..], key, value);
      forall a | a in SetAttr(attrs[1..], key, value) ensures a.key != attrs[0].key {
        assert a != Attr(key, value) ==> a in attrs[1..];
      }
    }
  }

  /** Attributes come back at most one for one, and are only appended when all of them do. */
  lemma {:induction false} ReceivedAttrsGrow(attrs: seq<Attr>, done: seq<Attr>)
    ensures var r := ReceivedAttrs(attrs, done);
            |r| <= |done| + |attrs| && (|r| == |done| + |attrs| ==> done <= r)
    decreases |attrs|
  {
    hide SetAttr, ReceivedText;
    if attrs != [] {
      var key, value := ReceivedText(attrs[0].key), ReceivedText(attrs[0].value);
      SetAttrGrows(done, key, value);
      ReceivedAttrsGrow(attrs[1..], SetAttr(done, key, value));
    }
  }

  lemma {:induction false} AttrsKeptExactly(attrs: seq<Attr>, done: seq<Attr>)
    requires UniqueKeys(done + attrs)
    ensures ReceivedAttrs(attrs, done) == done + attrs <==> AttrsKept(attrs)
    decreases |attrs|
  {
    hide ReceivedText, TextKept, SetAttr;
    if attrs == [] {
      assert done + attrs == done;
    } else {
      var a, rest := attrs[0], attrs[1..];
      assert attrs == [a] + rest;
      TextKeptExactly(a.key);
      TextKeptExactly(a.value);
      var read := Attr(ReceivedText(a.key), ReceivedText(a.value));
      SetAttrGrows(done, read.key, read.value);
      ReceivedAttrsGrow(rest, SetAttr(done, read.key, read.value));
      if read == a && a.key != PROTO {
        NewKey(done, a, rest);
        assert (done + [a]) + rest == done + attrs;
        AttrsKeptExactly(rest, done + [a]);
      } else {
        assert (done + attrs)[|done|] == a;
      }
    }
  }

  lemma NewKey(done: seq<Attr>, a: Attr, rest: seq<Attr>)
    requires UniqueKeys(done + ([a] + rest))
    ensures forall b :: b in done ==> b.key != a.key
  {
    forall b | b in done ensures b.key != a.key {
      var i :| 0 <= i < |done| && done[i] == b;
      assert (done + ([a] + rest))[i] == b && (done + ([a] + rest))[|done|] == a;
    }
  }

  /** A node comes back as it is exactly when its strings are kept. */
  lemma {:induction false} ReceivedExactly(n: Node)
    requires IsNode(n)
    ensures Received(n) == n <==> StringsKept(n)
    decreases n
  {
    hide ReceivedText, TextKept, ReceivedAttrs, Valid, UniqueKeys;
    TextKeptExactly(n.tag);
    assert [] + n.attrs == n.attrs;
    AttrsKeptExactly(n.attrs, []);
    if n.content.Children? { AllReceivedExactly(n.content.nodes); }
  }

  lemma {:induction false} AllReceivedExactly(nodes: seq<Node>)
    requires forall c :: c in nodes ==> IsNode(c)
    ensures ReceivedAll(nodes) == nodes <==> forall c :: c in nodes ==> StringsKept(c)
    decreases nodes
  {
    hide Received, IsNode, StringsKept;
    if nodes != [] {
      ReceivedExactly(nodes[0]);
      AllReceivedExactly(nodes[1..]);
      assert nodes == [nodes[0]] + nodes[1..];
    }
  }

  // ---------------------------------------------------------------- round trips

  /** The offset is in the data, or the data is too short for `subarray` to count from its end back
      to the whole of a binary of 2^31 bytes. */
  ghost predicate Plain(d: seq<byte>, next: int) { next >= 0 || |d| < 0x1_0000_0000 }

  lemma BinaryReadBack(d: seq<byte>, off: nat, data: seq<byte>, log: seq<Binary>)
    requires At(d, off, BinaryBytes(data))
    ensures off < |d| && d[off] in {TAG_BINARY_8, TAG_BINARY_32}
    ensures var r := BinaryAt(d, off, log);
            r.Reached? && r.value == data && Plain(d, r.next) ==> |data| < 0x8000_0000
  {
    BinaryRead(d, off, data);
    if |data| >= 0x8000_0000 {
      LengthRead(|data|);
      LongBinaryParts(d, off, data);
      assert |LengthBytes(|data|)| == 4;
      hide SignedLength, LengthBytes, At;
      assert BinaryAt(d, off, log) == DataAt(d, off, off + 5, SignedLength(LengthBytes(|data|)), log);
    }
  }

  lemma {:induction false} NodesAtExtends(d: seq<byte>, off: int, count: nat, nodes: seq<Node>, depth: nat,
                                          log: seq<Binary>)
    requires NodesAt(d, off, count, nodes, depth, log).Reached?
    ensures nodes <= NodesAt(d, off, count, nodes, depth, log).value
    ensures |NodesAt(d, off, count, nodes, depth, log).value| == |nodes| + count
    decreases count
  {
    hide NodeAt;
    if count > 0 {
      var r := NodeAt(d, off, depth, log);
      NodesAtExtends(d, r.next, count - 1, nodes + [r.value], depth, r.log);
    }
  }

  lemma NodesInData(d: seq<byte>, off: int, count: nat, nodes: seq<Node>, depth: nat, log: seq<Binary>)
    requires count > 0 && NodesAt(d, off, count, nodes, depth, log).Reached?
    ensures off >= 0
  {}

  /** A node that comes back has small binaries, whatever is read in between. */
  lemma {:induction false} NodeReadBack(n: Node, d: seq<byte>, off: nat, depth: nat, log: seq<Binary>)
    requires Fits(n) && At(d, off, NodeBytes(n))
    ensures var r := NodeAt(d, off, depth, log); r.Reached? && r.value == n && Plain(d, r.next) ==> SmallBinaries(n)
    decreases n, 1
  {
    hide ReadText, ReadListSize, ContentAt, ReadAttrs, HeadBytes, ReceivedAttrs, ReceivedText, TextFits, At;
    if depth > 0 {
      AtSplit(d, off, HeadBytes(n), ContentBytes(n));
      var p, q := HeadRead(n, d, off);
      if !n.content.Missing? { ContentReadBack(n, d, off + |HeadBytes(n)|, depth, log); }
    }
  }

  lemma {:induction false} ContentReadBack(n: Node, d: seq<byte>, off: nat, depth: nat, log: seq<Binary>)
    requires Fits(n) && !n.content.Missing? && At(d, off, ContentBytes(n)) && depth > 0
    ensures var r := ContentAt(d, off, depth, log);
            r.Reached? && r.value == n.content && Plain(d, r.next) ==> SmallBinaries(n)
    decreases n, 0
  {
    hide ReadText, NodesAt, NodesBytes, BinaryBytes, BinaryAt, ReadListSize, TextFits, HeaderBytes, At;
    match n.content {
      case Bytes(data) =>
        BinaryReadBack(d, off, data, log);
      case Children(nodes) =>
        ListRead(nodes, d, off);
        assert [] + nodes == nodes;
        NodesReadBack(nodes, d, off + |HeaderBytes(|nodes|)|, [], depth - 1, log);
    }
  }

  lemma {:induction false} NodesReadBack(nodes: seq<Node>, d: seq<byte>, off: nat, done: seq<Node>, depth: nat,
                                         log: seq<Binary>)
    requires forall c :: c in nodes ==> Fits(c)
    requires At(d, off, NodesBytes(nodes))
    ensures var r := NodesAt(d, off, |nodes|, done, depth, log);
            r.Reached? && r.value == done + nodes && Plain(d, r.next) ==> forall c :: c in nodes ==> SmallBinaries(c)
    decreases nodes
  {
    hide NodeAt, NodeBytes, SmallBinaries, Fits, Received, At;
    var all := NodesAt(d, off, |nodes|, done, depth, log);
    if nodes != [] && all.Reached? && all.value == done + nodes && Plain(d, all.next) {
      var n, rest := nodes[0], nodes[1..];
      assert nodes == [n] + rest;
      AtSplit(d, off, NodeBytes(n), NodesBytes(rest));
      var r := NodeAt(d, off, depth, log);
      NodesAtExtends(d, r.next, |rest|, done + [r.value], depth, r.log);
      assert (done + nodes)[|done|] == n;
      if rest != [] { NodesInData(d, r.next, |rest|, done + [r.value], depth, r.log); }
      NodeReadBack(n, d, off, depth, log);
      NodeReached(n, d, off, depth, log);
      assert (done + [n]) + rest == done + nodes;
      NodesReadBack(rest, d, r.next, done + [n], depth, r.log);
    }
  }

  ghost predicate Gives(d: seq<byte>, n: Node, next: int) {
    Decoded(d).Reached? && Decoded(d).value == n && Decoded(d).next == next
  }

  /** What comes back: for every node the encoder accepts whose binaries are shorter than 2^31, and
      every following bytes, decoding gives the node with its strings as received and stops at the end
      of its encoding. */
  lemma ComesBack(n: Node, rest: seq<byte>)
    requires Encode(n).Ok? && SmallBinaries(n)
    ensures Gives(Encode(n).value + rest, Received(n), |Encode(n).value|)
  {
    EncoderLimits(n);
    var d := NodeBytes(n) + rest;
    assert d[0..|NodeBytes(n)|] == NodeBytes(n);
    hide NodeAt, ReadNode, NodeBytes, Received, SmallBinaries, Fits, Decoded, MovedBack, AllGenuine;
    NodeRead(n, d, 0);
    MovesBackExactly(d, |d| + 1);
  }

  /** Round trip in any context: for every node the encoder accepts and every following bytes,
      decoding gives the node back and stops at the end of its encoding if and only if no untokenised
      string has a lone surrogate or starts with a byte order mark, no attribute is called "__proto__",
      and every binary is shorter than 2^31. On data below 2^32 bytes that is also exactly when it
      gives the node back at all. */
  lemma RoundTrip(n: Node, rest: seq<byte>)
    requires IsNode(n) && Encode(n).Ok?
    ensures var d := Encode(n).value + rest;
            && (Gives(d, n, |Encode(n).value|) <==> Kept(n))
            && (Decoded(d).Reached? && Decoded(d).value == n && Plain(d, Decoded(d).next) ==> Kept(n))
  {
    EncoderLimits(n);
    ReceivedExactly(n);
    var d := NodeBytes(n) + rest;
    assert d[0..|NodeBytes(n)|] == NodeBytes(n);
    hide NodeAt, NodeBytes, Received, SmallBinaries, StringsKept, Fits, IsNode, Decoded;
    if SmallBinaries(n) {
      ComesBack(n, rest);
    } else if Decoded(d).Reached? {
      var depth := DecodedFrom(d);
      NodeReadBack(n, d, 0, depth, []);
    }
  }

  /** A node that is encoded and decoded without an exception, but not to itself: its tag is a byte
      order mark and a letter, and only the letter comes back. */
  lemma MarkIsDropped()
    ensures var n := Node(BOM + [0x61], [], Missing);
            IsNode(n) && Encode(n).Ok? && !Kept(n) && Gives(Encode(n).value, Node([0x61], [], Missing), 9)
  {
    var n := Node(BOM + [0x61], [], Missing);
    NotAToken(n.tag, 0);
    EncoderLimits(n);
    ComesBack(n, []);
    assert NodeBytes(n) + [] == NodeBytes(n) && |NodeBytes(n)| == 9;
    AsciiValid([0x61]);
    RepairMeans([0x61]);
    ValidRest(BOM, [0x61]);
    WrittenSame(n.tag);
    assert (BOM + [0x61])[3..] == [0x61];
    hide GetTokenIndex, Repair, Written, Valid, NodeBytes, Decoded;
  }

  /** Another one: a lone surrogate comes back as U+FFFD. */
  lemma SurrogateIsReplaced()
    ensures var n := Node([0xED, 0xA0, 0x80], [], Missing);
            IsNode(n) && Encode(n).Ok? && !Kept(n) && Gives(Encode(n).value, Node(REPLACEMENT, [], Missing), 8)
  {
    var t: Text := [0xED, 0xA0, 0x80];
    var n := Node(t, [], Missing);
    NotAToken(t, 0);
    EncoderLimits(n);
    ComesBack(n, []);
    SurrogateWritten(0x80);
    assert NodeBytes(n) + [] == NodeBytes(n) && |NodeBytes(n)| == 8;
    ValidRest(REPLACEMENT, []);
    assert REPLACEMENT + [] == REPLACEMENT;
    RepairMeans(REPLACEMENT);
    hide GetTokenIndex, Repair, Written, NodeBytes, Decoded;
  }

  lemma SurrogateWritten(last: byte)
    requires Trail(last)
    ensures var t: Text := [0xED, 0xA0, last]; Written(t) == REPLACEMENT && !Valid(t)
  {
    var t: Text := [0xED, 0xA0, last];
    assert t[3..] == [] && REPLACEMENT + [] == REPLACEMENT;
  }

  /** Another one: an attribute called "__proto__" does not come back. */
  lemma ProtoIsDropped(value: Text)
    requires |value| <= 65535
    ensures var n := Node([], [Attr(PROTO, value)], Missing);
            IsNode(n) && Encode(n).Ok? && !Kept(n) && Gives(Encode(n).value, Node([], [], Missing), |Encode(n).value|)
  {
    hide ReceivedText, Valid, NodeBytes, Decoded, GetTokenIndex;
    var n := Node([], [Attr(PROTO, value)], Missing);
    ProtoPlain();
    EncoderLimits(n);
    ComesBack(n, []);
    assert NodeBytes(n) + [] == NodeBytes(n);
    assert n.attrs[1..] == [];
    assert ReceivedAttrs(n.attrs, []) == ReceivedAttrs([], []);
  }

  lemma ProtoPlain()
    ensures ReceivedText(PROTO) == PROTO && ReceivedText([]) == []
  {
    AsciiValid(PROTO);
    TextKeptExactly(PROTO);
    TextKeptExactly([]);
    hide GetTokenIndex;
  }

  /** The bound is sharp: followed by enough bytes to make up 2^32 in all, a binary of 2^31 bytes or
      more is returned after all, with the offset in front of the data. */
  lemma GiantComesBack(data: seq<byte>, rest: seq<byte>)
    requires 0x8000_0000 <= |data| < 0x1_0000_0000 && rest != []
    requires |NodeBytes(Node([], [], Bytes(data))) + rest| == 0x1_0000_0000
    ensures var n := Node([], [], Bytes(data));
            !Kept(n) && Decoded(NodeBytes(n) + rest).Reached? && Decoded(NodeBytes(n) + rest).value == n
            && Decoded(NodeBytes(n) + rest).next < 0
  {
    var n := Node([], [], Bytes(data));
    var d := NodeBytes(n) + rest;
    var length := LengthBytes(|data|);
    GiantParts(d, data, rest);
    ProtoPlain();
    hide ReadText, TextBytes, SignedLength, LengthBytes, HeadBytes, ReceivedText, At, NodeBytes, NodeAt, ContentAt;
    var p, q := HeadRead(n, d, 0);
    GiantData(d, |HeadBytes(n)|, data);
    NodeWithContent(d, 0, 1, [], p, q, |HeadBytes(n)|);
    DecodedIs(d, 1);
  }

  /** A node with content is its head and its content. */
  lemma NodeWithContent(d: seq<byte>, off: nat, depth: nat, log: seq<Binary>, p: nat, q: nat, s: nat)
    requires depth > 0 && q <= |d| && ReadListSize(d, off).Done? && ReadListSize(d, off).value % 2 == 0
    requires ReadListSize(d, off).value > 0 && ReadListSize(d, off).next == p
    requires ReadText(d, p).Done? && ReadText(d, p).next == q
    requires var r := ReadAttrs(d, q, (ReadListSize(d, off).value - 1) / 2, []); r.Done? && r.next == s
    ensures var tag, attrs := ReadText(d, p).value, ReadAttrs(d, q, (ReadListSize(d, off).value - 1) / 2, []).value;
            NodeAt(d, off, depth, log) ==
            match ContentAt(d, s, depth, log) {
              case Reached(content, next, l) => Reached(Node(tag, attrs, content), next, l)
              case Halted(why, l) => Halted(why, l)
            }
  {
    hide ReadListSize, ReadText, ReadAttrs, ContentAt;
  }

  lemma GiantParts(d: seq<byte>, data: seq<byte>, rest: seq<byte>)
    requires |data| >= 0x8000_0000 && d == NodeBytes(Node([], [], Bytes(data))) + rest
    ensures var head := HeadBytes(Node([], [], Bytes(data)));
            && At(d, 0, head) && At(d, |head|, [TAG_BINARY_32] + LengthBytes(|data|) + data)
            && |d| == |head| + 5 + |data| + |rest|
  {
    var head := HeadBytes(Node([], [], Bytes(data)));
    var length := LengthBytes(|data|);
    assert |length| == 4;
    hide LengthBytes, HeadBytes;
    assert d == head + ([TAG_BINARY_32] + length + data) + rest;
  }

  lemma GiantData(d: seq<byte>, off: nat, data: seq<byte>)
    requires 0x8000_0000 <= |data| < 0x1_0000_0000 && |d| == 0x1_0000_0000
    requires At(d, off, [TAG_BINARY_32] + LengthBytes(|data|) + data)
    requires off + 5 + |data| < |d|
    ensures var r := ContentAt(d, off, 1, []); r.Reached? && r.value == Bytes(data) && r.next < 0
  {
    LengthRead(|data|);
    LongBinaryParts(d, off, data);
    assert |LengthBytes(|data|)| == 4;
    hide SignedLength, LengthBytes, At;
    assert SignedLength(LengthBytes(|data|)) == |data| - 0x1_0000_0000;
  }

  lemma NodeNotEmpty(n: Node)
    ensures |NodeBytes(n)| >= |HeadBytes(n)| >= 4
  {}
}
