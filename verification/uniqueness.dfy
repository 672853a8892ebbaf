/** Every encoding is of one node only, none is a prefix of another, and streams of them split in one
    way; lone surrogates, which are written as U+FFFD, count as that. */
module Uniqueness {
  import opened Options
  import opened Tokens
  import opened Wire
  import opened RoundTrips
  import opened Utf8

  /** Every binary is shorter than 2^32, the range of the length that is written. */
  ghost predicate LengthsFit(n: Node) {
    && (n.content.Bytes? ==> |n.content.data| < 0x1_0000_0000)
    && (n.content.Children? ==> forall c :: c in n.content.nodes ==> LengthsFit(c))
  }

  function WrittenAttrs(attrs: seq<Attr>): (r: seq<Attr>)
    ensures |r| == |attrs|
    decreases |attrs|
  {
    if attrs == [] then []
    else [Attr(Written(attrs[0].key), Written(attrs[0].value))] + WrittenAttrs(attrs[1..])
  }

  /** The node with its strings as they are written. */
  function WrittenNode(n: Node): Node
    decreases n, 1
  {
    Node(Written(n.tag), WrittenAttrs(n.attrs), WrittenContent(n))
  }

  function WrittenContent(n: Node): Content
    decreases n, 0
  {
    if n.content.Children? then Children(WrittenAll(n.content.nodes)) else n.content
  }

  function WrittenAll(nodes: seq<Node>): (r: seq<Node>)
    ensures |r| == |nodes|
    decreases nodes
  {
    if nodes == [] then [] else [WrittenNode(nodes[0])] + WrittenAll(nodes[1..])
  }

  lemma {:induction false} AttrsWritten(attrs: seq<Attr>)
    requires forall a :: a in attrs ==> Valid(a.key) && Valid(a.value)
    ensures WrittenAttrs(attrs) == attrs
  {
    hide Written, Valid;
    if attrs != [] {
      assert attrs == [attrs[0]] + attrs[1..];
      WrittenSame(attrs[0].key);
      WrittenSame(attrs[0].value);
      AttrsWritten(attrs[1..]);
    }
  }

  /** Without lone surrogates a node is written as it is. */
  lemma {:induction false} ValidWritten(n: Node)
    requires StringsValid(n)
    ensures WrittenNode(n) == n
    decreases n, 1
  {
    hide Written, Valid, WrittenAttrs;
    WrittenSame(n.tag);
    AttrsWritten(n.attrs);
    if n.content.Children? { AllWritten(n.content.nodes); }
  }

  lemma {:induction false} AllWritten(nodes: seq<Node>)
    requires forall c :: c in nodes ==> StringsValid(c)
    ensures WrittenAll(nodes) == nodes
    decreases nodes
  {
    hide WrittenNode, StringsValid;
    if nodes != [] {
      assert nodes == [nodes[0]] + nodes[1..];
      ValidWritten(nodes[0]);
      AllWritten(nodes[1..]);
    }
  }

  lemma SameText(d: seq<byte>, off: nat, s: Text, t: Text)
    requires TextFits(s) && TextFits(t) && At(d, off, TextBytes(s)) && At(d, off, TextBytes(t))
    ensures Written(s) == Written(t) && TextBytes(s) == TextBytes(t)
  {
    hide Written;
    AtIndex(d, off, TextBytes(s));
    AtIndex(d, off, TextBytes(t));
    assert d[off] == TextBytes(s)[0] && d[off] == TextBytes(t)[0];
    hide GetToken, IndexBelow;
    if GetTokenIndex(s).Some? {
      assert d[off + 1] == TextBytes(s)[1] && d[off + 1] == TextBytes(t)[1];
    } else {
      SameString(d, off, Written(s), Written(t));
    }
  }

  lemma SameString(d: seq<byte>, off: nat, s: Text, t: Text)
    requires |s| <= 65535 && At(d, off, [TAG_STRING, High(|s|), Low(|s|)] + s)
    requires |t| <= 65535 && At(d, off, [TAG_STRING, High(|t|), Low(|t|)] + t)
    ensures s == t
  {
    StringParts(d, off, s);
    StringParts(d, off, t);
  }

  lemma StringParts(d: seq<byte>, off: nat, s: Text)
    requires |s| <= 65535 && At(d, off, [TAG_STRING, High(|s|), Low(|s|)] + s)
    ensures ReadShort(d, off + 1) == Done(|s|, off + 3) && At(d, off + 3, s)
  {
    AtSplit(d, off, [TAG_STRING, High(|s|), Low(|s|)], s);
    AtSplit(d, off, [TAG_STRING], [High(|s|), Low(|s|)]);
    ShortRead(d, off + 1, |s|);
  }

  lemma {:induction false} SameAttrs(d: seq<byte>, off: nat, a: seq<Attr>, b: seq<Attr>)
    requires |a| == |b| && AttrsWithin(a) && AttrsWithin(b) && At(d, off, AttrBytes(a)) && At(d, off, AttrBytes(b))
    ensures WrittenAttrs(a) == WrittenAttrs(b) && AttrBytes(a) == AttrBytes(b)
    decreases |a|
  {
    hide TextBytes, TextFits, At, Written;
    if a != [] {
      SameFirst(d, off, a, b);
      var first := TextBytes(a[0].key) + TextBytes(a[0].value);
      AtSplit(d, off, first, AttrBytes(a[1..]));
      AtSplit(d, off, first, AttrBytes(b[1..]));
      SameAttrs(d, off + |first|, a[1..], b[1..]);
    }
  }

  lemma SameFirst(d: seq<byte>, off: nat, a: seq<Attr>, b: seq<Attr>)
    requires a != [] && b != []
    requires AttrsWithin(a) && AttrsWithin(b) && At(d, off, AttrBytes(a)) && At(d, off, AttrBytes(b))
    ensures Written(a[0].key) == Written(b[0].key) && Written(a[0].value) == Written(b[0].value)
    ensures TextBytes(a[0].key) == TextBytes(b[0].key) && TextBytes(a[0].value) == TextBytes(b[0].value)
  {
    hide TextBytes, TextFits, At;
    assert a[0] in a && b[0] in b;
    FirstAt(d, off, a);
    FirstAt(d, off, b);
    SameText(d, off, a[0].key, b[0].key);
    SameText(d, off + |TextBytes(a[0].key)|, a[0].value, b[0].value);
  }

  lemma FirstAt(d: seq<byte>, off: nat, a: seq<Attr>)
    requires a != [] && At(d, off, AttrBytes(a))
    ensures var k, v := TextBytes(a[0].key), TextBytes(a[0].value); At(d, off, k) && At(d, off + |k|, v)
  {
    hide TextBytes, At;
    var k, v, rest := TextBytes(a[0].key), TextBytes(a[0].value), AttrBytes(a[1..]);
    assert AttrBytes(a) == (k + v) + rest;
    hide AttrBytes;
    AtSplit(d, off, k + v, rest);
    AtSplit(d, off, k, v);
  }

  lemma SameBinary(d: seq<byte>, off: nat, a: seq<byte>, b: seq<byte>)
    requires |a| < 0x1_0000_0000 && |b| < 0x1_0000_0000 && At(d, off, BinaryBytes(a)) && At(d, off, BinaryBytes(b))
    ensures a == b
  {
    AtIndex(d, off, BinaryBytes(a));
    AtIndex(d, off, BinaryBytes(b));
    assert d[off] == BinaryBytes(a)[0] && d[off] == BinaryBytes(b)[0];
    if |a| < 256 {
      assert d[off + 1] == BinaryBytes(a)[1] && d[off + 1] == BinaryBytes(b)[1];
      AtSplit(d, off, [TAG_BINARY_8, |a|], a);
      AtSplit(d, off, [TAG_BINARY_8, |b|], b);
    } else {
      SameLong(d, off, a, b);
    }
  }

  lemma SameLong(d: seq<byte>, off: nat, a: seq<byte>, b: seq<byte>)
    requires |a| < 0x1_0000_0000 && At(d, off, [TAG_BINARY_32] + LengthBytes(|a|) + a)
    requires |b| < 0x1_0000_0000 && At(d, off, [TAG_BINARY_32] + LengthBytes(|b|) + b)
    ensures a == b
  {
    hide LengthBytes, At, ReadBytes;
    LongBinaryParts(d, off, a);
    LongBinaryParts(d, off, b);
    LengthDecides(|a|, |b|);
  }

  lemma LengthDecides(a: nat, b: nat)
    requires a < 0x1_0000_0000 && b < 0x1_0000_0000 && LengthBytes(a) == LengthBytes(b)
    ensures a == b
  {
    LengthRead(a);
    LengthRead(b);
    hide LengthBytes, SignedLength;
    assert a % 0x1_0000_0000 == a && b % 0x1_0000_0000 == b;
  }

  lemma HeadParts(n: Node, d: seq<byte>, off: nat)
    requires At(d, off, HeadBytes(n))
    ensures var header := HeaderBytes(ListSize(n));
            && At(d, off, header) && At(d, off + |header|, TextBytes(n.tag))
            && At(d, off + |header| + |TextBytes(n.tag)|, AttrBytes(n.attrs))
  {
    var header, text, pairs := HeaderBytes(ListSize(n)), TextBytes(n.tag), AttrBytes(n.attrs);
    hide HeaderBytes, TextBytes, AttrBytes, At;
    AtSplit(d, off, header + text, pairs);
    AtSplit(d, off, header, text);
  }

  lemma SameHead(n: Node, m: Node, d: seq<byte>, off: nat)
    requires ListSize(n) <= 65535 && TextFits(n.tag) && AttrsWithin(n.attrs) && At(d, off, HeadBytes(n))
    requires ListSize(m) <= 65535 && TextFits(m.tag) && AttrsWithin(m.attrs) && At(d, off, HeadBytes(m))
    ensures Written(n.tag) == Written(m.tag) && WrittenAttrs(n.attrs) == WrittenAttrs(m.attrs)
    ensures HeadBytes(n) == HeadBytes(m) && (n.content.Missing? <==> m.content.Missing?)
  {
    hide ListSize, TextBytes, HeaderBytes, AttrBytes, TextFits, AttrsWithin, At, Written, WrittenAttrs;
    HeadParts(n, d, off);
    HeadParts(m, d, off);
    SameSize(d, off, ListSize(n), ListSize(m));
    SizeDecides(n, m);
    var p := off + |HeaderBytes(ListSize(n))|;
    SameText(d, p, n.tag, m.tag);
    SameAttrs(d, p + |TextBytes(n.tag)|, n.attrs, m.attrs);
  }

  lemma SizeDecides(n: Node, m: Node)
    requires ListSize(n) == ListSize(m)
    ensures |n.attrs| == |m.attrs| && (n.content.Missing? <==> m.content.Missing?)
  {}

  lemma HeadDepends(n: Node, m: Node)
    requires n.tag == m.tag && n.attrs == m.attrs && (n.content.Missing? <==> m.content.Missing?)
    ensures HeadBytes(n) == HeadBytes(m)
  {
    hide HeaderBytes, TextBytes, AttrBytes;
  }

  lemma SameSize(d: seq<byte>, off: nat, a: nat, b: nat)
    requires a <= 65535 && b <= 65535 && At(d, off, HeaderBytes(a)) && At(d, off, HeaderBytes(b))
    ensures a == b
  {
    hide HeaderBytes, At, ReadListSize;
    HeaderRead(d, off, a);
    HeaderRead(d, off, b);
  }

  /** Two encodings that stand at the same place are of the same node. */
  lemma {:induction false} SameNode(n: Node, m: Node, d: seq<byte>, off: nat)
    requires Fits(n) && LengthsFit(n) && At(d, off, NodeBytes(n))
    requires Fits(m) && LengthsFit(m) && At(d, off, NodeBytes(m))
    ensures WrittenNode(n) == WrittenNode(m) && NodeBytes(n) == NodeBytes(m)
    decreases n, 1
  {
    hide HeadBytes, ContentBytes, WrittenContent, WrittenNode, TextFits, At, Written, WrittenAttrs;
    AtSplit(d, off, HeadBytes(n), ContentBytes(n));
    AtSplit(d, off, HeadBytes(m), ContentBytes(m));
    hide NodeBytes;
    SameHead(n, m, d, off);
    if !n.content.Missing? { SameContent(n, m, d, off + |HeadBytes(n)|); }
    PartsDecide(n, m);
  }

  lemma PartsDecide(n: Node, m: Node)
    requires Written(n.tag) == Written(m.tag) && WrittenAttrs(n.attrs) == WrittenAttrs(m.attrs)
    requires HeadBytes(n) == HeadBytes(m) && (n.content.Missing? <==> m.content.Missing?)
    requires !n.content.Missing? ==> WrittenContent(n) == WrittenContent(m) && ContentBytes(n) == ContentBytes(m)
    ensures WrittenNode(n) == WrittenNode(m) && NodeBytes(n) == NodeBytes(m)
  {
    hide HeadBytes, Written, WrittenAttrs, BinaryBytes, NodesBytes, HeaderBytes, WrittenAll;
  }

  lemma {:induction false} SameContent(n: Node, m: Node, d: seq<byte>, off: nat)
    requires Fits(n) && LengthsFit(n) && !n.content.Missing? && At(d, off, ContentBytes(n))
    requires Fits(m) && LengthsFit(m) && !m.content.Missing? && At(d, off, ContentBytes(m))
    ensures WrittenContent(n) == WrittenContent(m) && ContentBytes(n) == ContentBytes(m)
    decreases n, 0
  {
    hide TextFits, HeaderBytes, BinaryBytes, NodesBytes, At, ReadListSize;
    if n.content.Bytes? { BinaryFirst(d, off, n.content.data); } else { ListRead(n.content.nodes, d, off); }
    if m.content.Bytes? { BinaryFirst(d, off, m.content.data); } else { ListRead(m.content.nodes, d, off); }
    if n.content.Bytes? {
      SameBinary(d, off, n.content.data, m.content.data);
    } else {
      SameNodes(n.content.nodes, m.content.nodes, d, off + |HeaderBytes(|n.content.nodes|)|);
    }
  }

  lemma BinaryFirst(d: seq<byte>, off: nat, data: seq<byte>)
    requires At(d, off, BinaryBytes(data))
    ensures off < |d| && d[off] in {TAG_BINARY_8, TAG_BINARY_32}
  {
    AtIndex(d, off, BinaryBytes(data));
    assert d[off] == BinaryBytes(data)[0];
  }

  lemma {:induction false} SameNodes(ns: seq<Node>, ms: seq<Node>, d: seq<byte>, off: nat)
    requires |ns| == |ms| && At(d, off, NodesBytes(ns)) && At(d, off, NodesBytes(ms))
    requires forall c :: c in ns ==> Fits(c) && LengthsFit(c)
    requires forall c :: c in ms ==> Fits(c) && LengthsFit(c)
    ensures WrittenAll(ns) == WrittenAll(ms) && NodesBytes(ns) == NodesBytes(ms)
    decreases ns
  {
    hide NodeBytes, Fits, LengthsFit, At, WrittenNode;
    if ns != [] {
      AtSplit(d, off, NodeBytes(ns[0]), NodesBytes(ns[1..]));
      AtSplit(d, off, NodeBytes(ms[0]), NodesBytes(ms[1..]));
      SameNode(ns[0], ms[0], d, off);
      SameNodes(ns[1..], ms[1..], d, off + |NodeBytes(ns[0])|);
    }
  }

  /** Encodings are unique and prefix-free: of all nodes the encoder accepts whose binaries are
      shorter than 2^32, no encoding is a prefix of that of another node, but for nodes that differ
      only in what is written for lone surrogates. */
  lemma PrefixFree(n: Node, m: Node)
    requires Encode(n).Ok? && LengthsFit(n) && Encode(m).Ok? && LengthsFit(m)
    requires Encode(n).value <= Encode(m).value
    ensures Encode(n) == Encode(m) && WrittenNode(n) == WrittenNode(m)
    ensures StringsValid(n) && StringsValid(m) ==> n == m
  {
    EncoderLimits(n);
    EncoderLimits(m);
    var d := NodeBytes(m);
    assert d[0..|NodeBytes(n)|] == NodeBytes(n) && d[0..|d|] == d;
    hide NodeBytes, Fits, LengthsFit, WrittenNode, StringsValid;
    SameNode(n, m, d, 0);
    if StringsValid(n) && StringsValid(m) {
      ValidWritten(n);
      ValidWritten(m);
    }
  }

  /** Such nodes exist: two lone surrogates are written alike. */
  lemma SurrogatesCollide()
    ensures var n, m := Node([0xED, 0xA0, 0x80], [], Missing), Node([0xED, 0xA0, 0x81], [], Missing);
            n != m && IsNode(n) && IsNode(m) && Encode(n).Ok? && Encode(n) == Encode(m)
  {
    var s, t: Text := [0xED, 0xA0, 0x80], [0xED, 0xA0, 0x81];
    SurrogateWritten(0x80);
    SurrogateWritten(0x81);
    NotAToken(s, 0);
    NotAToken(t, 0);
    hide GetTokenIndex, Written;
    assert s[2] != t[2];
  }

  /** A concatenation of such encodings splits back in one way only. */
  lemma {:induction false} StreamsSplitUniquely(ns: seq<Node>, ms: seq<Node>)
    requires forall n :: n in ns ==> Encode(n).Ok? && LengthsFit(n)
    requires forall m :: m in ms ==> Encode(m).Ok? && LengthsFit(m)
    requires NodesBytes(ns) == NodesBytes(ms)
    ensures WrittenAll(ns) == WrittenAll(ms)
    ensures (forall n :: n in ns ==> StringsValid(n)) && (forall m :: m in ms ==> StringsValid(m)) ==> ns == ms
  {
    hide HeadBytes, ContentBytes, NodeError, LengthsFit, StringsValid, WrittenNode;
    if ns == [] || ms == [] {
      if ns != [] { NodeNotEmpty(ns[0]); }
      if ms != [] { NodeNotEmpty(ms[0]); }
    } else {
      var n, m := ns[0], ms[0];
      var a, b := NodeBytes(n) + NodesBytes(ns[1..]), NodeBytes(m) + NodesBytes(ms[1..]);
      if |NodeBytes(n)| <= |NodeBytes(m)| {
        assert NodeBytes(n) == a[..|NodeBytes(n)|] == NodeBytes(m)[..|NodeBytes(n)|];
        PrefixFree(n, m);
      } else {
        assert NodeBytes(m) == b[..|NodeBytes(m)|] == NodeBytes(n)[..|NodeBytes(m)|];
        PrefixFree(m, n);
      }
      assert NodesBytes(ns[1..]) == a[|NodeBytes(n)|..] == b[|NodeBytes(m)|..] == NodesBytes(ms[1..]);
      StreamsSplitUniquely(ns[1..], ms[1..]);
      assert ns == [n] + ns[1..] && ms == [m] + ms[1..];
    }
  }

  /** The bound is needed: lengths are written modulo 2^32, so 2^32 more bytes give an encoding that
      begins with the other. */
  lemma GiantPrefix(data: seq<byte>, more: seq<byte>)
    requires |data| >= 256 && |more| == 0x1_0000_0000
    ensures var n, m := Node([], [], Bytes(data)), Node([], [], Bytes(data + more));
            n != m && Encode(n).Ok? && Encode(m).Ok? && Encode(n).value <= Encode(m).value
  {
    var n, m := Node([], [], Bytes(data)), Node([], [], Bytes(data + more));
    EncoderLimits(n);
    EncoderLimits(m);
    assert |data + more| != |data|;
    hide LengthBytes, HeadBytes, NodeBytes;
    LengthWraps(|data|);
    HeadDepends(n, m);
    var start := HeadBytes(n) + ([TAG_BINARY_32] + LengthBytes(|data|));
    LongBytes(n, data);
    LongBytes(m, data + more);
    assert start + (data + more) == (start + data) + more;
  }

  lemma LengthWraps(len: nat)
    ensures LengthBytes(len + 0x1_0000_0000) == LengthBytes(len)
  {
    var more := len + 0x1_0000_0000;
    assert more / 0x100_0000 == len / 0x100_0000 + 0x100;
    assert more / 0x1_0000 == len / 0x1_0000 + 0x1_0000;
    assert more / 0x100 == len / 0x100 + 0x100_0000;
    WrapsAt(len / 0x100_0000, 1);
    WrapsAt(len / 0x1_0000, 0x100);
    WrapsAt(len / 0x100, 0x1_0000);
    WrapsAt(len, 0x100_0000);
  }

  lemma WrapsAt(x: nat, k: nat)
    ensures (x + 0x100 * k) % 0x100 == x % 0x100
  {}

  lemma LongBytes(n: Node, data: seq<byte>)
    requires n.content == Bytes(data) && |data| >= 256
    ensures NodeBytes(n) == HeadBytes(n) + ([TAG_BINARY_32] + LengthBytes(|data|)) + data
  {
    hide HeadBytes, LengthBytes;
  }
}
