/** What the decoder guarantees on every input: its results can be encoded again, and as long as its
    offset does not move back it makes progress within a fixed bound. */
module Decoding {
  import opened Options
  import opened Tokens
  import opened Wire
  import opened Utf8
  import opened Reading
  import opened RoundTrips

  // ---------------------------------------------------------------- accepted inputs

  ghost predicate ListsFit(n: Node) {
    && ListSize(n) <= 65535
    && (n.content.Children? ==>
          |n.content.nodes| <= 65535 && forall c :: c in n.content.nodes ==> ListsFit(c))
  }

  ghost predicate StringsFit(n: Node) {
    && TextFits(n.tag) && AttrsWithin(n.attrs)
    && (n.content.Children? ==> forall c :: c in n.content.nodes ==> StringsFit(c))
  }

  lemma {:induction false} FitsMeans(n: Node)
    ensures Fits(n) <==> ListsFit(n) && StringsFit(n)
    decreases n
  {
    if n.content.Children? {
      forall c | c in n.content.nodes ensures Fits(c) <==> ListsFit(c) && StringsFit(c) {
        FitsMeans(c);
      }
    }
  }

  /** Wherever the data has the form of a string field of more than 21845 bytes, it is well-formed, so
      no field can grow over the limit when it is repaired. */
  ghost predicate FieldsFit(d: seq<byte>) {
    forall p :: 0 <= p && p + 3 + FieldLength(d, p) <= |d| && d[p] == TAG_STRING ==>
      FieldLength(d, p) <= 21845 || Valid(d[p + 3..p + 3 + FieldLength(d, p)])
  }

  function FieldLength(d: seq<byte>, p: nat): nat {
    if p + 3 <= |d| then d[p + 1] as int * 256 + d[p + 2] else 0
  }

  lemma TokenValid(index: nat)
    requires GetToken(index).Some?
    ensures Valid(GetToken(index).value) && |GetToken(index).value| <= 16
  {
    TokenInverse(index);
    hide GetToken;
    TokenPlain(GetToken(index).value);
    AsciiValid(GetToken(index).value);
  }

  lemma DecodedTextFits(b: seq<byte>)
    ensures Valid(DecodeText(b)) && |DecodeText(b)| <= 3 * |b| && (Valid(b) ==> |DecodeText(b)| <= |b|)
  {
    RepairMeans(if StartsWithBom(b) then b[3..] else b);
    if StartsWithBom(b) {
      assert b == BOM + b[3..];
      ValidRest(BOM, b[3..]);
    }
  }

  lemma TextReadFits(d: seq<byte>, off: nat)
    requires ReadText(d, off).Done?
    ensures var t := ReadText(d, off).value; Valid(t) && |t| <= 196605 && (FieldsFit(d) ==> TextFits(t))
  {
    hide Valid, DecodeText, GetToken, GetTokenIndex;
    if d[off] == TAG_TOKEN {
      TokenValid(d[off + 1]);
    } else {
      var len := FieldLength(d, off);
      assert ReadShort(d, off + 1) == Done(len, off + 3);
      DecodedTextFits(d[off + 3..off + 3 + len]);
    }
  }

  ghost predicate AttrsSound(attrs: seq<Attr>, d: seq<byte>) {
    && UniqueKeys(attrs)
    && (forall a :: a in attrs ==> a.key != PROTO && Valid(a.key) && Valid(a.value))
    && (FieldsFit(d) ==> AttrsWithin(attrs))
  }

  lemma SetAttrSound(attrs: seq<Attr>, key: Text, value: Text, d: seq<byte>)
    requires AttrsSound(attrs, d) && Valid(key) && Valid(value)
    requires FieldsFit(d) ==> TextFits(key) && TextFits(value)
    ensures AttrsSound(SetAttr(attrs, key, value), d)
  {
    hide UniqueKeys, TextFits, FieldsFit, Valid, SetAttr;
    SetAttrUnique(attrs, key, value);
  }

  lemma {:induction false} AttrsReadFit(d: seq<byte>, off: nat, count: nat, attrs: seq<Attr>)
    requires off <= |d| && AttrsSound(attrs, d)
    ensures var r := ReadAttrs(d, off, count, attrs);
            r.Done? ==> AttrsSound(r.value, d) && |r.value| <= |attrs| + count
    decreases count
  {
    hide ReadText, AttrsSound, TextFits, FieldsFit, Valid, SetAttr;
    if count > 0 && ReadAttrs(d, off, count, attrs).Done? {
      var key := ReadText(d, off);
      var value := ReadText(d, key.next);
      TextReadFits(d, off);
      TextReadFits(d, key.next);
      SetAttrGrows(attrs, key.value, value.value);
      SetAttrSound(attrs, key.value, value.value, d);
      AttrsReadFit(d, value.next, count - 1, SetAttr(attrs, key.value, value.value));
    }
  }

  /** No attribute is called "__proto__". */
  ghost predicate NoProto(n: Node) {
    && (forall a :: a in n.attrs ==> a.key != PROTO)
    && (n.content.Children? ==> forall c :: c in n.content.nodes ==> NoProto(c))
  }

  /** What a tree is that was read from `d`. */
  ghost predicate Wellformed(n: Node, d: seq<byte>) {
    && IsNode(n) && StringsValid(n) && NoProto(n) && ListsFit(n)
    && (FieldsFit(d) ==> StringsFit(n))
    && (|d| <= 0x8000_0000 ==> SmallBinaries(n))
  }

  lemma {:induction false} NodeReadWellformed(d: seq<byte>, off: int, depth: nat, log: seq<Binary>)
    requires NodeAt(d, off, depth, log).Reached?
    ensures Wellformed(NodeAt(d, off, depth, log).value, d)
    decreases depth, 1, 0
  {
    hide ReadText, ReadAttrs, ContentAt, TextFits, UniqueKeys, FieldsFit, Valid;
    var size := ReadListSize(d, off);
    var tag := ReadText(d, size.next);
    TextReadFits(d, size.next);
    var attrs := ReadAttrs(d, tag.next, (size.value - 1) / 2, []);
    EmptySound(d);
    AttrsReadFit(d, tag.next, (size.value - 1) / 2, []);
    if (size.value - 1) % 2 == 1 {
      ContentReadWellformed(d, attrs.next, depth, log);
    }
  }

  lemma EmptySound(d: seq<byte>)
    ensures AttrsSound([], d)
  {}

  ghost predicate ContentWellformed(c: Content, d: seq<byte>) {
    && (c.Bytes? ==> |d| <= 0x8000_0000 ==> |c.data| < 0x8000_0000)
    && (c.Children? ==> |c.nodes| <= 65535 && forall n :: n in c.nodes ==> Wellformed(n, d))
  }

  lemma {:induction false} ContentReadWellformed(d: seq<byte>, off: nat, depth: nat, log: seq<Binary>)
    requires depth > 0 && ContentAt(d, off, depth, log).Reached?
    ensures ContentWellformed(ContentAt(d, off, depth, log).value, d)
    decreases depth, 0, 0
  {
    hide NodesAt, ReadText, BinaryAt, Wellformed;
    if off < |d| {
      if d[off] in {TAG_LIST_EMPTY, TAG_LIST_8, TAG_LIST_16} {
        var count := ReadListSize(d, off);
        NodesReadWellformed(d, count.next, count.value, [], depth - 1, log);
      } else if d[off] in {TAG_BINARY_8, TAG_BINARY_32} {
        BinaryReadSmall(d, off, log);
      } else {
        TextReadFits(d, off);
      }
    }
  }

  lemma BinaryReadSmall(d: seq<byte>, off: nat, log: seq<Binary>)
    requires off < |d| && d[off] in {TAG_BINARY_8, TAG_BINARY_32} && BinaryAt(d, off, log).Reached?
    ensures |BinaryAt(d, off, log).value| < |d|
  {
    hide SignedLength;
  }

  lemma {:induction false} NodesReadWellformed(d: seq<byte>, off: int, count: nat, nodes: seq<Node>, depth: nat,
                                               log: seq<Binary>)
    requires NodesAt(d, off, count, nodes, depth, log).Reached?
    requires forall n :: n in nodes ==> Wellformed(n, d)
    ensures var result := NodesAt(d, off, count, nodes, depth, log).value;
            |result| == |nodes| + count && forall n :: n in result ==> Wellformed(n, d)
    decreases depth, 2, count
  {
    hide NodeAt, Wellformed;
    if count > 0 {
      var r := NodeAt(d, off, depth, log);
      NodeReadWellformed(d, off, depth, log);
      NodesReadWellformed(d, r.next, count - 1, nodes + [r.value], depth, r.log);
    }
  }

  /** Canonicalisation: whatever the decoder accepts can be encoded again if and only if every string
      of it fits, as all do if every long string field is well-formed. The new encoding decodes to the
      same node if and only if no string of it (still) starts with a byte order mark and every binary
      is shorter than 2^31, which on input of up to 2^31 bytes it is. */
  lemma Canonical(d: seq<byte>)
    requires Decoded(d).Reached?
    ensures var n := Decoded(d).value;
            && IsNode(n) && StringsValid(n) && NoProto(n)
            && (Encode(n).Ok? <==> StringsFit(n))
            && (FieldsFit(d) ==> StringsFit(n))
            && (Encode(n).Ok? ==>
                  (Gives(Encode(n).value, n, |Encode(n).value|) <==> StringsKept(n) && SmallBinaries(n)))
            && (|d| <= 0x8000_0000 ==> SmallBinaries(n))
  {
    var depth := DecodedFrom(d);
    var n := Decoded(d).value;
    NodeReadWellformed(d, 0, depth, []);
    hide Decoded, NodeAt, StringsKept, SmallBinaries, Fits, IsNode, NodeBytes, FieldsFit;
    EncoderLimits(n);
    FitsMeans(n);
    if Encode(n).Ok? {
      RoundTrip(n, []);
      assert Encode(n).value + [] == Encode(n).value;
    }
  }

  /** Reading a node that is nothing but its tag. */
  lemma TagOnly(d: seq<byte>, tag: Text)
    requires |d| >= 2 && d[..2] == [TAG_LIST_8, 1] && ReadText(d, 2) == Done(tag, |d|)
    ensures Gives(d, Node(tag, [], Missing), |d|)
  {
    assert d[0] == d[..2][0] && d[1] == d[..2][1];
    hide ReadText, Decoded;
    assert NodeAt(d, 0, 1, []) == Reached(Node(tag, [], Missing), |d|, []);
    DecodedIs(d, 1);
  }

  /** Input that is accepted although re-encoding its node does not give it back: a tag with two byte
      order marks, of which one is left. */
  lemma MarkIsLeft()
    ensures var d: seq<byte> := [1, 1, 5, 0, 6, 0xEF, 0xBB, 0xBF, 0xEF, 0xBB, 0xBF];
            Gives(d, Node(BOM, [], Missing), |d|) && !StringsKept(Node(BOM, [], Missing))
  {
    var d: seq<byte> := [1, 1, 5, 0, 6, 0xEF, 0xBB, 0xBF, 0xEF, 0xBB, 0xBF];
    var t: Text := BOM + BOM;
    assert High(6) == 0 && Low(6) == 6;
    assert d == [1, 1] + ([TAG_STRING, High(|t|), Low(|t|)] + t);
    DoubleMark();
    NotAToken(BOM, 0);
    hide GetTokenIndex, DecodeText, ReadText, Decoded;
    StringRead(d, 2, t);
    TagOnly(d, BOM);
  }

  lemma DoubleMark()
    ensures DecodeText(BOM + BOM) == BOM
  {
    assert (BOM + BOM)[3..] == BOM;
    ValidRest(BOM, []);
    assert BOM + [] == BOM;
    RepairMeans(BOM);
    hide Repair;
  }

  /** Input that is accepted although its node cannot be encoded again: a tag of 21846 bytes that are
      no text, each of which is replaced by three. */
  lemma TooLongAgain()
    ensures var d: seq<byte> := [1, 1, 5, 0x55, 0x56] + seq(21846, _ => 0xFF);
            Decoded(d).Reached? && Encode(Decoded(d).value) == Err(StringTooLong)
  {
    var field: seq<byte> := seq(21846, _ => 0xFF);
    var d := [1, 1, 5, 0x55, 0x56] + field;
    assert d[5..5 + 21846] == field;
    assert d[2] == 5 && d[3] == 0x55 && d[4] == 0x56 && d[..2] == [1, 1];
    RepairGrows(21846);
    var tag := DecodeText(field);
    hide Repair, DecodeText;
    assert ReadShort(d, 3) == Done(21846, 5) by { assert d[3..5] == [0x55, 0x56]; }
    assert ReadText(d, 2) == Done(tag, |d|);
    TagOnly(d, tag);
    LongIsNoToken(tag);
    hide GetTokenIndex, Decoded, ReadText;
  }

  lemma LongIsNoToken(t: Text)
    requires |t| > 16
    ensures GetTokenIndex(t).None?
  {
    if GetTokenIndex(t).Some? { TokenInverse(GetTokenIndex(t).value); }
  }

  // ---------------------------------------------------------------- progress and cost

  /** Nodes plus attribute pairs of a tree. */
  ghost function Cost(n: Node): nat
    decreases n
  {
    1 + |n.attrs| + if n.content.Children? then CostAll(n.content.nodes) else 0
  }

  ghost function CostAll(nodes: seq<Node>): nat
    decreases nodes
  {
    if nodes == [] then 0 else Cost(nodes[0]) + CostAll(nodes[1..])
  }

  lemma {:induction false} CostAppend(nodes: seq<Node>, n: Node)
    ensures CostAll(nodes + [n]) == CostAll(nodes) + Cost(n)
  {
    if nodes == [] {
      assert nodes + [n] == [n];
    } else {
      assert (nodes + [n])[1..] == nodes[1..] + [n];
      CostAppend(nodes[1..], n);
    }
  }

  /** Attribute reading adds at most one entry a pair. */
  lemma {:induction false} ReadAttrsGrows(d: seq<byte>, off: nat, count: nat, attrs: seq<Attr>)
    requires off <= |d|
    ensures var r := ReadAttrs(d, off, count, attrs); r.Done? ==> |r.value| <= |attrs| + count
    decreases count
  {
    hide ReadText, SetAttr;
    if count > 0 && ReadAttrs(d, off, count, attrs).Done? {
      var key := ReadText(d, off);
      var value := ReadText(d, key.next);
      SetAttrGrows(attrs, key.value, value.value);
      ReadAttrsGrows(d, value.next, count - 1, SetAttr(attrs, key.value, value.value));
    }
  }

  /** A node costs at least four bytes, and so does each of its attribute pairs. */
  lemma {:induction false} NodeReadCost(d: seq<byte>, off: nat)
    requires off <= |d| && ReadNode(d, off).Done?
    ensures off + 4 * Cost(ReadNode(d, off).value) <= ReadNode(d, off).next <= |d|
    decreases |d| - off, 0
  {
    hide ReadText, ReadContent, ReadAttrs, CostAll;
    var size := ReadListSize(d, off);
    var tag := ReadText(d, size.next);
    var attrs := ReadAttrs(d, tag.next, (size.value - 1) / 2, []);
    ReadAttrsGrows(d, tag.next, (size.value - 1) / 2, []);
    if (size.value - 1) % 2 == 1 {
      ContentReadCost(d, attrs.next);
    }
  }

  lemma {:induction false} ContentReadCost(d: seq<byte>, off: nat)
    requires off <= |d| && ReadContent(d, off).Done?
    ensures var c := ReadContent(d, off);
            off + 4 * (if c.value.Children? then CostAll(c.value.nodes) else 0) <= c.next <= |d|
    decreases |d| - off, 0
  {
    hide ReadNodes, ReadText, ReadBinary;
    if off < |d| && d[off] in {TAG_LIST_EMPTY, TAG_LIST_8, TAG_LIST_16} {
      var count := ReadListSize(d, off);
      NodesReadCost(d, count.next, count.value, []);
    }
  }

  lemma {:induction false} NodesReadCost(d: seq<byte>, off: nat, count: nat, nodes: seq<Node>)
    requires off <= |d| && ReadNodes(d, off, count, nodes).Done?
    ensures var r := ReadNodes(d, off, count, nodes);
            off + 4 * (CostAll(r.value) - CostAll(nodes)) <= r.next <= |d|
    decreases |d| - off, 1, count
  {
    hide ReadNode, Cost, CostAll;
    if count > 0 {
      var r := ReadNode(d, off);
      NodeReadCost(d, off);
      CostAppend(nodes, r.value);
      NodesReadCost(d, r.next, count - 1, nodes + [r.value]);
    }
  }

  /** A BINARY_32 length moves the offset back exactly when its top bit is set. */
  lemma RewindsExactly(d: seq<byte>, off: nat, log: seq<Binary>)
    requires off + 5 <= |d| && d[off] == TAG_BINARY_32
    ensures var r := BinaryAt(d, off, log); (r.Reached? && r.next < off + 5) <==> d[off + 1] >= 128
  {
    var b := d[off + 1..off + 5];
    assert ReadBytes(d, off + 1, 4) == Done(b, off + 5) && b[0] == d[off + 1];
  }

  /** Progress: unless the offset moves back, decoding returns, never leaves the data, and has read
      at least four bytes for every node and every attribute pair it returns. */
  lemma ForwardBound(d: seq<byte>, depth: nat)
    requires depth > |d| && !MovedBack(NodeAt(d, 0, depth, []).log)
    ensures Decoded(d) == NodeAt(d, 0, depth, []) && !Deep(Decoded(d))
    ensures var r := Decoded(d); r.Reached? ==> 0 < 4 * Cost(r.value) <= r.next <= |d|
  {
    MovesBackExactly(d, depth);
    NodeAgrees(d, 0, depth, []);
    if Decode(d).Done? { NodeReadCost(d, 0); }
  }

  /** What a caller can check: without a byte 4 in front of a byte of 128 or more, it never does. */
  lemma SafeBytes(d: seq<byte>, depth: nat)
    requires depth > |d|
    requires forall i :: 0 <= i < |d| - 1 ==> !(d[i] == TAG_BINARY_32 && d[i + 1] >= 128)
    ensures !MovedBack(NodeAt(d, 0, depth, []).log)
  {
    MovesBackExactly(d, depth);
    hide NodeAt;
    forall b | b in NodeAt(d, 0, depth, []).log ensures !(d[b.at] == TAG_BINARY_32 && d[b.at + 1] >= 128) {
      assert Genuine(d, b);
    }
  }

  // ---------------------------------------------------------------- inputs that move the offset back

  /** A node with `count` children, of which the first stands at offset 6 and has a BINARY_32 content
      with the given last length byte. */
  function Looping(count: byte, last: byte): seq<byte> {
    [1, 2, 6, 1, 1, count, 1, 2, 6, 1, 4, 0xFF, 0xFF, 0xFF, last]
  }

  /** The child: its content is empty, and behind it the offset is 256 - last bytes further back. */
  lemma LoopingChild(count: byte, last: byte, depth: nat, log: seq<Binary>)
    requires last >= 128 && depth > 0
    ensures NodeAt(Looping(count, last), 6, depth, log) ==
            Reached(Node(Ascii("xmlstreamstart"), [], Bytes([])), last - 241, log + [Binary(10, 15, last - 241)])
  {
    var d := Looping(count, last);
    assert GetToken(1) == Some(Ascii("xmlstreamstart"));
    assert ReadListSize(d, 6) == Done(2, 8);
    assert ReadText(d, 8) == Done(Ascii("xmlstreamstart"), 10);
    hide ReadListSize, ReadText, Ascii;
  }

  /** Its parent is read as one child after the other. */
  lemma LoopingParent(count: byte, last: byte, depth: nat, log: seq<Binary>)
    requires last >= 128 && depth > 0
    ensures var d := Looping(count, last);
            var r := NodesAt(d, 6, count, [], depth - 1, log);
            NodeAt(d, 0, depth, log) ==
            (match r
             case Reached(nodes, next, log') => Reached(Node(Ascii("xmlstreamstart"), [], Children(nodes)), next, log')
             case Halted(why, log') => Halted(why, log'))
  {
    var d := Looping(count, last);
    assert GetToken(1) == Some(Ascii("xmlstreamstart"));
    assert ReadListSize(d, 0) == Done(2, 2) && ReadListSize(d, 4) == Done(count, 6);
    assert ReadText(d, 2) == Done(Ascii("xmlstreamstart"), 4) && d[4] == TAG_LIST_8;
    hide Looping, NodesAt, ReadListSize, ReadText, Ascii;
  }

  /** An input that is decoded for ever: the length is -15, so the second child is the whole node
      again, and no stack is large enough. */
  lemma {:induction false} NeverReturns(depth: nat, log: seq<Binary>)
    ensures Deep(NodeAt(Looping(2, 0xF1), 0, depth, log))
  {
    hide Looping, NodeAt, NodesAt;
    var d := Looping(2, 0xF1);
    if depth == 0 {
      NoStack(d, 0, log);
    } else {
      LoopingParent(2, 0xF1, depth, log);
      TwoNodes(d, 6, depth - 1, log);
      if depth == 1 {
        NoStack(d, 6, log);
      } else {
        LoopingChild(2, 0xF1, depth - 1, log);
        NeverReturns(depth - 1, NodeAt(d, 6, depth - 1, log).log);
      }
    }
  }

  lemma NoStack(d: seq<byte>, off: int, log: seq<Binary>)
    ensures Deep(NodeAt(d, off, 0, log))
  {}

  /** A list of two nodes needs as deep a stack as each of them. */
  lemma TwoNodes(d: seq<byte>, off: int, depth: nat, log: seq<Binary>)
    ensures var r := NodeAt(d, off, depth, log);
            Deep(r) || (r.Reached? && Deep(NodeAt(d, r.next, depth, r.log))) ==>
              Deep(NodesAt(d, off, 2, [], depth, log))
  {
    hide NodeAt;
    var r := NodeAt(d, off, depth, log);
    if r.Reached? {
      assert NodesAt(d, off, 2, [], depth, log) == NodesAt(d, r.next, 1, [] + [r.value], depth, r.log);
    }
  }

  lemma {:induction false} Rereads(count: byte, k: nat, nodes: seq<Node>, depth: nat, log: seq<Binary>)
    requires depth > 0
    ensures var r := NodesAt(Looping(count, 0xF7), 6, k, nodes, depth, log);
            r.Reached? && r.next == 6 && CostAll(r.value) == CostAll(nodes) + k
    decreases k
  {
    hide Looping, NodeAt, Cost, CostAll;
    if k > 0 {
      LoopingChild(count, 0xF7, depth, log);
      var r := NodeAt(Looping(count, 0xF7), 6, depth, log);
      ChildCost(r.value);
      CostAppend(nodes, r.value);
      Rereads(count, k - 1, nodes + [r.value], depth, r.log);
    }
  }

  lemma ChildCost(n: Node)
    requires n.attrs == [] && !n.content.Children?
    ensures Cost(n) == 1
  {}

  /** An input whose second child stands in front of the data: the length is -16. */
  lemma InFront()
    ensures Decoded(Looping(2, 0xF0)).Halted? && Decoded(Looping(2, 0xF0)).why == NoByte
  {
    var d := Looping(2, 0xF0);
    hide Looping, Decoded;
    LoopingParent(2, 0xF0, 2, []);
    LoopingChild(2, 0xF0, 1, []);
    var r := NodeAt(d, 6, 1, []);
    assert NodeAt(d, -1, 1, r.log) == Halted(NoByte, r.log);
    hide NodeAt;
    assert NodesAt(d, 6, 2, [], 1, []) == NodesAt(d, -1, 1, [] + [r.value], 1, r.log) == Halted(NoByte, r.log);
    DecodedIs(d, 2);
  }

  /** An input that is decoded to more nodes than it has bytes: the length is -9, so every child is
      read from the same nine bytes. */
  lemma CostUnbounded(count: byte)
    ensures var r := Decoded(Looping(count, 0xF7));
            r.Reached? && r.next == 6 && Cost(r.value) == 1 + count as int
  {
    LoopingParent(count, 0xF7, 2, []);
    Rereads(count, count, [], 1, []);
    assert CostAll([]) == 0;
    hide Looping, NodeAt, NodesAt, CostAll;
    DecodedIs(Looping(count, 0xF7), 2);
  }
}
