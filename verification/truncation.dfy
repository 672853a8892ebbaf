/** What the decoder makes of the proper prefixes of an encoding. A node's spine is the node
    itself, its last child, that node's last child, and so on. */
module Truncation {
  import opened Options
  import opened Tokens
  import opened Wire
  import opened Reading
  import opened RoundTrips
  import opened Utf8

  function Spine(n: Node): (spine: seq<Node>)
    ensures |spine| > 0
    decreases n
  {
    if n.content.Children? && n.content.nodes != []
    then [n] + Spine(n.content.nodes[|n.content.nodes| - 1])
    else [n]
  }

  /** `n` with the content of its `j`-th spine node erased. */
  function Erase(n: Node, j: nat): Node
    decreases n
  {
    if j == 0 || !n.content.Children? || n.content.nodes == [] then n.(content := Missing)
    else
      var k := |n.content.nodes| - 1;
      n.(content := Children(n.content.nodes[..k] + [Erase(n.content.nodes[k], j - 1)]))
  }

  /** The length of the prefix that ends right before the content of the `j`-th spine node. */
  function Cut(n: Node, j: nat): int
    requires j < |Spine(n)|
  {
    |NodeBytes(n)| - |ContentBytes(Spine(n)[j])|
  }

  /** What reading the first `i` bytes of the encoding of `n` gives; strings come back as received. */
  function Truncated(n: Node, i: nat): Option<Node>
    decreases n
  {
    if n.content.Missing? || i < |HeadBytes(n)| then None
    else if i == |HeadBytes(n)| then Some(Received(n).(content := Missing))
    else if n.content.Children? && n.content.nodes != [] then
      var k := |n.content.nodes| - 1;
      var last := n.content.nodes[k];
      var start := |NodeBytes(n)| - |NodeBytes(last)|;
      if i < start then None
      else match Truncated(last, i - start) {
        case Some(m) => Some(Received(n).(content := Children(ReceivedAll(n.content.nodes[..k]) + [m])))
        case None => None
      }
    else None
  }

  // ---------------------------------------------------------------- truncated fields

  /** From `off` on, `d` is a proper prefix of `e`. */
  ghost predicate EndsIn(d: seq<byte>, off: nat, e: seq<byte>) {
    off <= |d| && d[off..] < e
  }

  lemma EndsInSplit(d: seq<byte>, off: nat, a: seq<byte>, b: seq<byte>)
    requires EndsIn(d, off, a + b)
    ensures EndsIn(d, off, a) || (At(d, off, a) && EndsIn(d, off + |a|, b))
  {
    var p := d[off..];
    if |p| < |a| {
      assert p == (a + b)[..|p|] == a[..|p|];
    } else {
      assert p[..|a|] == (a + b)[..|a|] == a;
      assert p[..|a|] == d[off..off + |a|] && p[|a|..] == d[off + |a|..];
      assert p[|a|..] == (a + b)[..|p|][|a|..] == b[..|p| - |a|];
    }
  }

  lemma EndsInIndex(d: seq<byte>, off: nat, e: seq<byte>)
    requires EndsIn(d, off, e)
    ensures |d| < off + |e| && forall i {:trigger e[i]} :: 0 <= i < |d| - off ==> d[off + i] == e[i]
  {
    forall i | 0 <= i < |d| - off ensures d[off + i] == e[i] {
      assert d[off..][i] == e[i];
    }
  }

  lemma HeaderTruncated(d: seq<byte>, off: nat, size: nat)
    requires EndsIn(d, off, HeaderBytes(size))
    ensures ReadListSize(d, off) == Stopped(Eof)
  {
    EndsInIndex(d, off, HeaderBytes(size));
  }

  lemma TextTruncated(d: seq<byte>, off: nat, t: Text)
    requires TextFits(t) && EndsIn(d, off, TextBytes(t))
    ensures ReadText(d, off) == Stopped(Eof)
  {
    hide GetToken, IndexBelow, Written;
    EndsInIndex(d, off, TextBytes(t));
    if GetTokenIndex(t).None? {
      EndsInSplit(d, off, [TAG_STRING, High(|t|), Low(|t|)], Written(t));
      if At(d, off, [TAG_STRING, High(|t|), Low(|t|)]) {
        AtSplit(d, off, [TAG_STRING], [High(|t|), Low(|t|)]);
        ShortRead(d, off + 1, |t|);
      }
    }
  }

  lemma BinaryTruncated(d: seq<byte>, off: nat, data: seq<byte>)
    requires |data| < 0x8000_0000 && off < |d| && EndsIn(d, off, BinaryBytes(data))
    ensures d[off] in {TAG_BINARY_8, TAG_BINARY_32} && ReadBinary(d, off) == Stopped(Eof)
  {
    EndsInIndex(d, off, BinaryBytes(data));
    if |data| >= 256 && off + 5 <= |d| {
      EndsInSplit(d, off, [TAG_BINARY_32] + LengthBytes(|data|), data);
      LongBinaryTruncated(d, off, data);
    }
  }

  lemma LongBinaryTruncated(d: seq<byte>, off: nat, data: seq<byte>)
    requires |data| < 0x8000_0000 && At(d, off, [TAG_BINARY_32] + LengthBytes(|data|))
    requires EndsIn(d, off + 5, data)
    ensures ReadBinary(d, off) == Stopped(Eof)
  {
    hide SignedLength;
    var length := LengthBytes(|data|);
    AtSplit(d, off, [TAG_BINARY_32], length);
    AtIndex(d, off, [TAG_BINARY_32]);
    assert ReadBytes(d, off + 1, 4) == Done(length, off + 5);
    LengthRead(|data|);
    EndsInIndex(d, off + 5, data);
  }

  lemma {:induction false} AttrsTruncated(d: seq<byte>, off: nat, attrs: seq<Attr>, done: seq<Attr>)
    requires AttrsWithin(attrs) && EndsIn(d, off, AttrBytes(attrs))
    ensures ReadAttrs(d, off, |attrs|, done) == Stopped(Eof)
    decreases |attrs|
  {
    hide ReadText, TextBytes, TextFits;
    if attrs != [] {
      var a, rest := attrs[0], attrs[1..];
      assert attrs == [a] + rest;
      var k, v := TextBytes(a.key), TextBytes(a.value);
      EndsInSplit(d, off, k + v, AttrBytes(rest));
      if EndsIn(d, off, k + v) {
        EndsInSplit(d, off, k, v);
        if EndsIn(d, off, k) {
          TextTruncated(d, off, a.key);
        } else {
          TextRead(d, off, a.key);
          TextTruncated(d, off + |k|, a.value);
        }
      } else {
        AtSplit(d, off, k, v);
        TextRead(d, off, a.key);
        TextRead(d, off + |k|, a.value);
        AttrsTruncated(d, off + |k + v|, rest, SetAttr(done, ReadText(d, off).value, ReadText(d, off + |k|).value));
      }
    }
  }

  lemma HeadTruncated(n: Node, d: seq<byte>, off: nat)
    requires Fits(n) && EndsIn(d, off, HeadBytes(n))
    ensures ReadNode(d, off) == Stopped(Eof)
  {
    hide ReadText, ReadListSize, TextBytes, HeaderBytes, ReadContent, AttrBytes, TextFits;
    var header, text, pairs := HeaderBytes(ListSize(n)), TextBytes(n.tag), AttrBytes(n.attrs);
    EndsInSplit(d, off, header + text, pairs);
    if EndsIn(d, off, header + text) {
      EndsInSplit(d, off, header, text);
      if EndsIn(d, off, header) {
        HeaderTruncated(d, off, ListSize(n));
      } else {
        HeaderRead(d, off, ListSize(n));
        TextTruncated(d, off + |header|, n.tag);
      }
    } else {
      AtSplit(d, off, header, text);
      HeaderRead(d, off, ListSize(n));
      TextRead(d, off + |header|, n.tag);
      AttrsTruncated(d, off + |header + text|, n.attrs, []);
    }
  }

  // ---------------------------------------------------------------- truncated nodes

  ghost predicate Good(n: Node) {
    Fits(n) && SmallBinaries(n)
  }

  function Outcome(m: Option<Node>, next: nat): Read<Node> {
    match m
    case Some(v) => Done(v, next)
    case None => Stopped(Eof)
  }

  lemma {:induction false} NodeTruncated(n: Node, d: seq<byte>, off: nat)
    requires Good(n) && EndsIn(d, off, NodeBytes(n))
    ensures ReadNode(d, off) == Outcome(Truncated(n, |d| - off), |d|)
    decreases n, 1
  {
    hide ReadText, ReadListSize, ReadContent, ReadAttrs, HeadBytes, ContentBytes, TextFits, ReceivedText, ReceivedAttrs;
    hide ReceivedContent;
    EndsInSplit(d, off, HeadBytes(n), ContentBytes(n));
    if EndsIn(d, off, HeadBytes(n)) {
      HeadTruncated(n, d, off);
    } else {
      var p, q := HeadRead(n, d, off);
      ContentTruncated(n, d, off + |HeadBytes(n)|);
    }
  }

  /** The truncated content of a node whose head was read completely. */
  lemma {:induction false} ContentTruncated(n: Node, d: seq<byte>, off: nat)
    requires Good(n) && EndsIn(d, off, ContentBytes(n))
    ensures !n.content.Missing?
    ensures match Truncated(n, |HeadBytes(n)| + |d| - off)
            case Some(m) => m == Received(n).(content := m.content) && ReadContent(d, off) == Done(m.content, |d|)
            case None => ReadContent(d, off) == Stopped(Eof)
    decreases n, 0
  {
    hide ReadText, ReadListSize, ReadNodes, ReadBinary, HeadBytes, BinaryBytes, TextFits, Received;
    if off == |d| {
    } else if n.content.Bytes? {
      BinaryTruncated(d, off, n.content.data);
    } else {
      var nodes := n.content.nodes;
      var header := HeaderBytes(|nodes|);
      EndsInSplit(d, off, header, NodesBytes(nodes));
      EndsInIndex(d, off, header + NodesBytes(nodes));
      LastInside(n);
      if EndsIn(d, off, header) {
        HeaderTruncated(d, off, |nodes|);
      } else {
        HeaderRead(d, off, |nodes|);
        NodesTruncated(nodes, d, off + |header|, []);
        assert [] + ReceivedAll(nodes[..|nodes| - 1]) == ReceivedAll(nodes[..|nodes| - 1]);
      }
    }
  }

  lemma {:induction false} LastOfNodes(nodes: seq<Node>)
    requires nodes != []
    ensures |NodeBytes(nodes[|nodes| - 1])| <= |NodesBytes(nodes)|
  {
    hide NodeBytes;
    if |nodes| > 1 { LastOfNodes(nodes[1..]); }
  }

  /** The last child's bytes lie behind the head and the list header. */
  lemma LastInside(n: Node)
    requires n.content.Children?
    ensures |NodeBytes(n)| == |HeadBytes(n)| + |HeaderBytes(|n.content.nodes|)| + |NodesBytes(n.content.nodes)|
    ensures n.content.nodes != [] ==>
              |NodeBytes(n.content.nodes[|n.content.nodes| - 1])| <= |NodesBytes(n.content.nodes)|
  {
    hide HeadBytes, HeaderBytes;
    if n.content.nodes != [] { LastOfNodes(n.content.nodes); }
  }

  lemma {:induction false} NodesTruncated(nodes: seq<Node>, d: seq<byte>, off: nat, done: seq<Node>)
    requires (forall c :: c in nodes ==> Good(c)) && EndsIn(d, off, NodesBytes(nodes))
    ensures nodes != []
    ensures var k := |nodes| - 1;
            var start := |NodesBytes(nodes)| - |NodeBytes(nodes[k])|;
            var i := |d| - off - start;
            match if i < 0 then None else Truncated(nodes[k], i)
            case Some(m) => ReadNodes(d, off, |nodes|, done) == Done(done + ReceivedAll(nodes[..k]) + [m], |d|)
            case None => ReadNodes(d, off, |nodes|, done) == Stopped(Eof)
    decreases nodes
  {
    hide ReadNode, NodeBytes, Good, Truncated, Received;
    if nodes != [] {
      var n, rest := nodes[0], nodes[1..];
      assert nodes == [n] + rest;
      EndsInSplit(d, off, NodeBytes(n), NodesBytes(rest));
      LastOfNodes(nodes);
      if rest != [] { LastOfNodes(rest); }
      if EndsIn(d, off, NodeBytes(n)) {
        NodeTruncated(n, d, off);
        EndOfInput(d);
        if rest != [] && ReadNode(d, off).Done? {
          assert ReadNodes(d, |d|, |rest|, done + [ReadNode(d, off).value]) == Stopped(Eof);
        }
        assert nodes[..0] == [] && done + [] == done;
      } else {
        GoodRead(n, d, off);
        NodesTruncated(rest, d, off + |NodeBytes(n)|, done + [Received(n)]);
        assert nodes[..|nodes| - 1][1..] == rest[..|rest| - 1];
        assert done + [Received(n)] + ReceivedAll(rest[..|rest| - 1]) == done + ReceivedAll(nodes[..|nodes| - 1]);
      }
    }
  }

  lemma GoodRead(n: Node, d: seq<byte>, off: nat)
    requires Good(n) && At(d, off, NodeBytes(n))
    ensures ReadNode(d, off) == Done(Received(n), off + |NodeBytes(n)|)
  {
    NodeRead(n, d, off);
  }

  lemma EndOfInput(d: seq<byte>)
    ensures ReadNode(d, |d|) == Stopped(Eof)
  {}

  // ---------------------------------------------------------------- the spine

  /** A cut right before the content of a spine node erases exactly that content. */
  lemma {:induction false} CutErases(n: Node, j: nat)
    requires j < |Spine(n)| && !Spine(n)[j].content.Missing?
    ensures |HeadBytes(n)| <= Cut(n, j) < |NodeBytes(n)|
    ensures Truncated(n, Cut(n, j)) == Some(Erase(Received(n), j))
    decreases j
  {
    hide HeadBytes, HeaderBytes, ReceivedText, ReceivedAttrs;
    ContentNotEmpty(Spine(n)[j]);
    if j > 0 {
      var k := |n.content.nodes| - 1;
      LastInside(n);
      NodeNotEmpty(n.content.nodes[k]);
      HeaderNotEmpty(|n.content.nodes|);
      CutErases(n.content.nodes[k], j - 1);
      ReceivedLast(n.content.nodes);
    }
  }

  lemma {:induction false} ReceivedLast(nodes: seq<Node>)
    requires nodes != []
    ensures var k := |nodes| - 1; ReceivedAll(nodes) == ReceivedAll(nodes[..k]) + [Received(nodes[k])]
  {
    hide Received;
    var k := |nodes| - 1;
    if k > 0 {
      ReceivedLast(nodes[1..]);
      assert nodes[..k][1..] == nodes[1..][..k - 1];
    }
  }

  lemma HeaderNotEmpty(size: nat)
    ensures |HeaderBytes(size)| > 0
  {}

  lemma ContentNotEmpty(n: Node)
    ensures n.content.Missing? <==> ContentBytes(n) == []
  {}

  /** Conversely, an accepted prefix is such a cut. */
  lemma {:induction false} TruncatedIsCut(n: Node, i: nat) returns (j: nat)
    requires i < |NodeBytes(n)| && Truncated(n, i).Some?
    ensures j < |Spine(n)| && !Spine(n)[j].content.Missing? && i == Cut(n, j)
    decreases n
  {
    hide HeadBytes, HeaderBytes, Received, ReceivedAll;
    if i == |HeadBytes(n)| {
      j := 0;
    } else {
      var k := |n.content.nodes| - 1;
      var start := |NodeBytes(n)| - |NodeBytes(n.content.nodes[k])|;
      var l := TruncatedIsCut(n.content.nodes[k], i - start);
      j := l + 1;
    }
  }

  /** Different spine nodes are cut at different places, outer ones earlier. */
  lemma {:induction false} CutsIncrease(n: Node, i: nat, j: nat)
    requires i < j < |Spine(n)|
    ensures Cut(n, i) < Cut(n, j)
    decreases i
  {
    hide HeadBytes, HeaderBytes;
    var k := |n.content.nodes| - 1;
    var last := n.content.nodes[k];
    LastInside(n);
    NodeNotEmpty(last);
    HeaderNotEmpty(|n.content.nodes|);
    if i == 0 {
      SpineInside(last, j - 1);
    } else {
      CutsIncrease(last, i - 1, j - 1);
    }
  }

  lemma {:induction false} SpineInside(n: Node, j: nat)
    requires j < |Spine(n)|
    ensures 0 < Cut(n, j)
    decreases j
  {
    hide HeadBytes, HeaderBytes;
    NodeNotEmpty(n);
    if j > 0 {
      LastInside(n);
      SpineInside(n.content.nodes[|n.content.nodes| - 1], j - 1);
    }
  }

  /** On a truncated encoding the decoder never moves back. */
  lemma TruncatedForward(n: Node, d: seq<byte>)
    requires Good(n) && EndsIn(d, 0, NodeBytes(n))
    ensures var r := Decoded(d); r == Lift(Outcome(Truncated(n, |d|), |d|), r.log)
  {
    hide NodeAt, ReadNode, Decoded, Truncated, MovedBack, AllGenuine, NodeBytes, Good;
    NodeTruncated(n, d, 0);
    MovesBackExactly(d, |d| + 1);
  }

  /** The exact truncation behaviour: a proper prefix of an encoding is accepted if and only if
      it ends right before the content of a content-bearing spine node; it then decodes to what comes
      back of the node with exactly that content erased, consuming every byte. Every other proper
      prefix is rejected with an unexpected end of input. */
  lemma TruncationExact(n: Node, i: nat)
    requires Encode(n).Ok? && SmallBinaries(n) && i < |Encode(n).value|
    ensures var r := Decoded(Encode(n).value[..i]);
            && (r.Reached? <==> exists j: nat :: j < |Spine(n)| && !Spine(n)[j].content.Missing? && i == Cut(n, j))
            && (forall j: nat :: j < |Spine(n)| && !Spine(n)[j].content.Missing? && i == Cut(n, j) ==>
                  r == Reached(Erase(Received(n), j), i, r.log))
            && (r.Halted? ==> r.why == Eof)
  {
    EncoderLimits(n);
    assert Good(n);
    hide Decoded, Truncated, NodeBytes, Spine, Erase, Good, ContentBytes, Fits, SmallBinaries, Received;
    var d := NodeBytes(n)[..i];
    assert d[0..] == d;
    TruncatedForward(n, d);
    forall j: nat | j < |Spine(n)| && !Spine(n)[j].content.Missing? && i == Cut(n, j)
      ensures Decoded(d) == Reached(Erase(Received(n), j), i, Decoded(d).log)
    {
      CutErases(n, j);
    }
    if Truncated(n, i).Some? {
      var j := TruncatedIsCut(n, i);
    }
  }
}
