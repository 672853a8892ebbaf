/** The decoder on every input (packages/wazeko-protocol/src/decoder.ts). The four bytes of a
    BINARY_32 length are put together with signed shifts, so a length can be negative and the offset
    move backwards; offsets are integers here. `depth` is the number of nested `readNode` calls the
    stack has room for. Where no length is negative this decoder is the forward reader of wire.dfy. */
module Reading {
  import opened Options
  import opened Tokens
  import opened Wire

  /** One completed `readBinary`: called at `at`, with its data at `from`, it left the offset at `to`. */
  datatype Binary = Binary(at: nat, from: nat, to: int)

  /** Where a read leads: to a value and an offset, or to an exception. `log` is history. */
  datatype Reach<+T> = Reached(value: T, next: int, log: seq<Binary>) | Halted(why: Stop, log: seq<Binary>) {
    predicate IsFailure() { Halted? }
    function PropagateFailure<U>(): Reach<U> requires Halted? { Halted(why, log) }
    function Extract(): (T, int, seq<Binary>) requires Reached? { (value, next, log) }
  }

  /** A read that only moves forward. */
  function Lift<T>(r: Read<T>, log: seq<Binary>): Reach<T> {
    match r
    case Done(value, next) => Reached(value, next, log)
    case Stopped(why) => Halted(why, log)
  }

  /** Positions of `subarray` are clamped, negative ones count from the end. */
  function Position(length: nat, i: int): nat {
    if i > length then length else if i >= 0 then i else if length + i >= 0 then length + i else 0
  }

  function SubArray(d: seq<byte>, begin: int, end: int): seq<byte> {
    var from, to := Position(|d|, begin), Position(|d|, end);
    if from < to then d[from..to] else []
  }

  /** What `subarray` cuts out, behind a place in the data: up to an end behind that place; nothing up
      to one between 0 and that place; and up to a negative end counted from the end of the data. */
  lemma SubArrayMeans(d: seq<byte>, begin: nat, end: int)
    requires begin <= |d|
    ensures begin <= end <= |d| ==> SubArray(d, begin, end) == d[begin..end]
    ensures 0 <= end < begin ==> SubArray(d, begin, end) == []
    ensures end < 0 ==> SubArray(d, begin, end) == if begin < |d| + end then d[begin..|d| + end] else []
  {}

  function DataAt(d: seq<byte>, at: nat, from: nat, len: int, log: seq<Binary>): Reach<seq<byte>> {
    if from + len > |d| then Halted(Eof, log)
    else Reached(SubArray(d, from, from + len), from + len, log + [Binary(at, from, from + len)])
  }

  /** `readBinary` on a buffer whose next byte is one of the two binary tags. */
  function BinaryAt(d: seq<byte>, off: nat, log: seq<Binary>): Reach<seq<byte>>
    requires off < |d| && d[off] in {TAG_BINARY_8, TAG_BINARY_32}
  {
    if d[off] == TAG_BINARY_8 then
      var (len, from, _) :- Lift(ReadByte(d, off + 1), log);
      DataAt(d, off, from, len, log)
    else
      var (b, from, _) :- Lift(ReadBytes(d, off + 1, 4), log);
      DataAt(d, off, from, SignedLength(b), log)
  }

  /** `readNode`. In front of the data the byte read is undefined, and the list tag check throws. */
  function NodeAt(d: seq<byte>, off: int, depth: nat, log: seq<Binary>): Reach<Node>
    decreases depth, 1, 0
  {
    if depth == 0 then Halted(TooDeep, log)
    else if off < 0 then Halted(NoByte, log)
    else
      var (size, p, _) :- Lift(ReadListSize(d, off), log);
      if size == 0 then Halted(EmptyNode, log)
      else
        var (tag, q, _) :- Lift(ReadText(d, p), log);
        var (attrs, s, _) :- Lift(ReadAttrs(d, q, (size - 1) / 2, []), log);
        if (size - 1) % 2 == 1 then
          var (content, next, log') :- ContentAt(d, s, depth, log);
          Reached(Node(tag, attrs, content), next, log')
        else Reached(Node(tag, attrs, Missing), s, log)
  }

  function ContentAt(d: seq<byte>, off: nat, depth: nat, log: seq<Binary>): Reach<Content>
    requires depth > 0
    decreases depth, 0, 0
  {
    if off >= |d| then Reached(Missing, off, log)
    else if d[off] in {TAG_LIST_EMPTY, TAG_LIST_8, TAG_LIST_16} then
      var (count, p, _) :- Lift(ReadListSize(d, off), log);
      var (nodes, next, log') :- NodesAt(d, p, count, [], depth - 1, log);
      Reached(Children(nodes), next, log')
    else if d[off] in {TAG_BINARY_8, TAG_BINARY_32} then
      var (data, next, log') :- BinaryAt(d, off, log);
      Reached(Bytes(data), next, log')
    else
      var (text, next, _) :- Lift(ReadText(d, off), log);
      Reached(Bytes(text), next, log)
  }

  function NodesAt(d: seq<byte>, off: int, count: nat, nodes: seq<Node>, depth: nat, log: seq<Binary>): Reach<seq<Node>>
    decreases depth, 2, count
  {
    if count == 0 then Reached(nodes, off, log)
    else
      var (node, next, log') :- NodeAt(d, off, depth, log);
      NodesAt(d, next, count - 1, nodes + [node], depth, log')
  }

  // ---------------------------------------------------------------- the depth of the stack

  ghost predicate Deep<T>(r: Reach<T>) { r.Halted? && r.why == TooDeep }

  lemma {:induction false} DeeperNode(d: seq<byte>, off: int, depth: nat, more: nat, log: seq<Binary>)
    requires depth <= more && !Deep(NodeAt(d, off, depth, log))
    ensures NodeAt(d, off, more, log) == NodeAt(d, off, depth, log)
    decreases depth, 1, 0
  {
    hide ReadText, ReadListSize, ReadAttrs, ContentAt;
    if depth > 0 && off >= 0 {
      var size := ReadListSize(d, off);
      if size.Done? && size.value > 0 {
        var tag := ReadText(d, size.next);
        if tag.Done? {
          var attrs := ReadAttrs(d, tag.next, (size.value - 1) / 2, []);
          if attrs.Done? && (size.value - 1) % 2 == 1 { DeeperContent(d, attrs.next, depth, more, log); }
        }
      }
    }
  }

  lemma {:induction false} DeeperContent(d: seq<byte>, off: nat, depth: nat, more: nat, log: seq<Binary>)
    requires 0 < depth <= more && !Deep(ContentAt(d, off, depth, log))
    ensures ContentAt(d, off, more, log) == ContentAt(d, off, depth, log)
    decreases depth, 0, 0
  {
    hide ReadText, ReadListSize, BinaryAt, NodesAt;
    if off < |d| && d[off] in {TAG_LIST_EMPTY, TAG_LIST_8, TAG_LIST_16} {
      var count := ReadListSize(d, off);
      if count.Done? { DeeperNodes(d, count.next, count.value, [], depth - 1, more - 1, log); }
    }
  }

  lemma {:induction false} DeeperNodes(d: seq<byte>, off: int, count: nat, nodes: seq<Node>, depth: nat, more: nat,
                                       log: seq<Binary>)
    requires depth <= more && !Deep(NodesAt(d, off, count, nodes, depth, log))
    ensures NodesAt(d, off, count, nodes, more, log) == NodesAt(d, off, count, nodes, depth, log)
    decreases depth, 2, count
  {
    hide NodeAt;
    if count > 0 {
      DeeperNode(d, off, depth, more, log);
      var r := NodeAt(d, off, depth, log);
      if r.Reached? { DeeperNodes(d, r.next, count - 1, nodes + [r.value], depth, more, r.log); }
    }
  }

  ghost predicate Returns(d: seq<byte>, depth: nat) { !Deep(NodeAt(d, 0, depth, [])) }

  /** `BinaryDecoder.decode` with as large a stack as it takes; the stack overflows when none is
      large enough. */
  ghost function Decoded(d: seq<byte>): Reach<Node> {
    if exists depth: nat :: Returns(d, depth)
    then var depth: nat :| Returns(d, depth); NodeAt(d, 0, depth, [])
    else Halted(TooDeep, [])
  }

  /** The size of the stack changes nothing but whether it overflows. */
  lemma DecodedIs(d: seq<byte>, depth: nat)
    requires Returns(d, depth)
    ensures Decoded(d) == NodeAt(d, 0, depth, [])
  {
    hide NodeAt;
    var other: nat :| Returns(d, other) && Decoded(d) == NodeAt(d, 0, other, []);
    if depth <= other { DeeperNode(d, 0, depth, other, []); } else { DeeperNode(d, 0, other, depth, []); }
  }

  lemma DecodedFrom(d: seq<byte>) returns (depth: nat)
    ensures !Deep(Decoded(d)) ==> Decoded(d) == NodeAt(d, 0, depth, [])
  {
    hide NodeAt;
    depth := 0;
    if exists k: nat :: Returns(d, k) {
      depth :| Returns(d, depth);
      DecodedIs(d, depth);
    }
  }

  // ---------------------------------------------------------------- moving back

  /** Some `readBinary` left the offset before the place where it looked for its data. */
  ghost predicate MovedBack(log: seq<Binary>) {
    exists b :: b in log && b.to < b.from
  }

  /** What a log entry says is what stands in the data. */
  ghost predicate Genuine(d: seq<byte>, b: Binary) {
    && b.at < b.from <= |d|
    && if d[b.at] == TAG_BINARY_32
       then b.from == b.at + 5 && b.to == b.from + SignedLength(d[b.at + 1..b.from])
       else b.from == b.at + 2 && b.to == b.from + d[b.at + 1]
  }

  ghost predicate AllGenuine(d: seq<byte>, log: seq<Binary>) {
    forall b :: b in log ==> Genuine(d, b)
  }

  lemma BinaryLog(d: seq<byte>, off: nat, log: seq<Binary>)
    requires off < |d| && d[off] in {TAG_BINARY_8, TAG_BINARY_32}
    ensures var r := BinaryAt(d, off, log); log <= r.log && (AllGenuine(d, log) ==> AllGenuine(d, r.log))
  {
    hide SignedLength, SubArray;
  }

  lemma {:induction false} NodeLog(d: seq<byte>, off: int, depth: nat, log: seq<Binary>)
    ensures var r := NodeAt(d, off, depth, log); log <= r.log && (AllGenuine(d, log) ==> AllGenuine(d, r.log))
    decreases depth, 1, 0
  {
    hide ReadText, ReadListSize, ReadAttrs, ContentAt, AllGenuine;
    if depth > 0 && off >= 0 {
      var size := ReadListSize(d, off);
      if size.Done? && size.value > 0 {
        var tag := ReadText(d, size.next);
        if tag.Done? {
          var attrs := ReadAttrs(d, tag.next, (size.value - 1) / 2, []);
          if attrs.Done? && (size.value - 1) % 2 == 1 { ContentLog(d, attrs.next, depth, log); }
        }
      }
    }
  }

  lemma {:induction false} ContentLog(d: seq<byte>, off: nat, depth: nat, log: seq<Binary>)
    requires depth > 0
    ensures var r := ContentAt(d, off, depth, log); log <= r.log && (AllGenuine(d, log) ==> AllGenuine(d, r.log))
    decreases depth, 0, 0
  {
    hide ReadText, ReadListSize, BinaryAt, NodesAt, AllGenuine;
    if off < |d| {
      if d[off] in {TAG_LIST_EMPTY, TAG_LIST_8, TAG_LIST_16} {
        var count := ReadListSize(d, off);
        if count.Done? { NodesLog(d, count.next, count.value, [], depth - 1, log); }
      } else if d[off] in {TAG_BINARY_8, TAG_BINARY_32} {
        BinaryLog(d, off, log);
      }
    }
  }

  lemma {:induction false} NodesLog(d: seq<byte>, off: int, count: nat, nodes: seq<Node>, depth: nat, log: seq<Binary>)
    ensures var r := NodesAt(d, off, count, nodes, depth, log);
            log <= r.log && (AllGenuine(d, log) ==> AllGenuine(d, r.log))
    decreases depth, 2, count
  {
    hide NodeAt, AllGenuine;
    if count > 0 {
      NodeLog(d, off, depth, log);
      var r := NodeAt(d, off, depth, log);
      if r.Reached? { NodesLog(d, r.next, count - 1, nodes + [r.value], depth, r.log); }
    }
  }

  // ---------------------------------------------------------------- the forward reader

  ghost predicate Rewound<T>(read: Read<T>) { read.Stopped? && read.why.Rewinds? }

  ghost predicate Forward<T>(read: Read<T>) { read.Stopped? ==> !read.why.Rewinds? && read.why != TooDeep }

  /** The forward reader gives up exactly when the offset moves back; else both lead to the same. */
  ghost predicate Agree<T>(read: Read<T>, reach: Reach<T>, log: seq<Binary>) {
    if Rewound(read) then MovedBack(reach.log)
    else (MovedBack(reach.log) <==> MovedBack(log)) && reach == Lift(read, reach.log) && !Deep(reach)
  }

  lemma Grown(log: seq<Binary>, more: seq<Binary>)
    requires log <= more && MovedBack(log)
    ensures MovedBack(more)
  {
    var b :| b in log && b.to < b.from;
    assert b in more;
  }

  lemma BinaryAgrees(d: seq<byte>, off: nat, log: seq<Binary>)
    requires off < |d| && d[off] in {TAG_BINARY_8, TAG_BINARY_32}
    ensures Agree(ReadBinary(d, off), BinaryAt(d, off, log), log)
  {
    hide SignedLength;
    var r := BinaryAt(d, off, log);
    if r.Reached? {
      var b := r.log[|log|];
      assert r.log == log + [b];
      assert MovedBack(r.log) <==> MovedBack(log) || b.to < b.from;
      if b.from <= b.to { assert SubArray(d, b.from, b.to) == d[b.from..b.to]; }
    }
  }

  lemma {:induction false} NodeAgrees(d: seq<byte>, off: nat, depth: nat, log: seq<Binary>)
    requires off <= |d| && depth > |d| - off
    ensures Agree(ReadNode(d, off), NodeAt(d, off, depth, log), log)
    decreases depth, 1, 0
  {
    hide ReadText, ReadListSize, ReadAttrs, ContentAt, ReadContent, MovedBack;
    var size := ReadListSize(d, off);
    if size.Done? && size.value > 0 {
      var tag := ReadText(d, size.next);
      if tag.Done? {
        var attrs := ReadAttrs(d, tag.next, (size.value - 1) / 2, []);
        if attrs.Done? && (size.value - 1) % 2 == 1 { ContentAgrees(d, attrs.next, depth, log); }
        if attrs.Stopped? { AttrsForward(d, tag.next, (size.value - 1) / 2, []); }
      } else {
        TextForward(d, size.next);
      }
    } else {
      ListForward(d, off);
    }
  }

  lemma ListForward(d: seq<byte>, off: nat)
    ensures Forward(ReadListSize(d, off))
  {}

  lemma TextForward(d: seq<byte>, off: nat)
    ensures Forward(ReadText(d, off))
  {}

  lemma {:induction false} AttrsForward(d: seq<byte>, off: nat, count: nat, attrs: seq<Attr>)
    requires off <= |d|
    ensures Forward(ReadAttrs(d, off, count, attrs))
    decreases count
  {
    hide ReadText;
    if count > 0 {
      TextForward(d, off);
      var key := ReadText(d, off);
      if key.Done? {
        TextForward(d, key.next);
        var value := ReadText(d, key.next);
        if value.Done? { AttrsForward(d, value.next, count - 1, SetAttr(attrs, key.value, value.value)); }
      }
    }
  }

  lemma {:induction false} ContentAgrees(d: seq<byte>, off: nat, depth: nat, log: seq<Binary>)
    requires off <= |d| && depth > |d| - off
    ensures Agree(ReadContent(d, off), ContentAt(d, off, depth, log), log)
    decreases depth, 0, 0
  {
    hide ReadText, ReadListSize, ReadBinary, BinaryAt, NodesAt, ReadNodes, MovedBack;
    if off < |d| {
      if d[off] in {TAG_LIST_EMPTY, TAG_LIST_8, TAG_LIST_16} {
        var count := ReadListSize(d, off);
        ListForward(d, off);
        if count.Done? { NodesAgree(d, count.next, count.value, [], depth - 1, log); }
      } else if d[off] in {TAG_BINARY_8, TAG_BINARY_32} {
        BinaryAgrees(d, off, log);
      } else {
        TextForward(d, off);
      }
    }
  }

  lemma {:induction false} NodesAgree(d: seq<byte>, off: nat, count: nat, nodes: seq<Node>, depth: nat,
                                      log: seq<Binary>)
    requires off <= |d| && depth > |d| - off
    ensures Agree(ReadNodes(d, off, count, nodes), NodesAt(d, off, count, nodes, depth, log), log)
    decreases depth, 2, count
  {
    hide ReadNode, NodeAt, MovedBack;
    if count > 0 {
      NodeAgrees(d, off, depth, log);
      var r := NodeAt(d, off, depth, log);
      if r.Reached? {
        NodesLog(d, r.next, count - 1, nodes + [r.value], depth, r.log);
        if Rewound(ReadNode(d, off)) {
          Grown(r.log, NodesAt(d, off, count, nodes, depth, log).log);
        } else {
          NodesAgree(d, r.next, count - 1, nodes + [r.value], depth, r.log);
        }
      }
    }
  }

  // ---------------------------------------------------------------- what decode does on every input

  lemma BackMeans(d: seq<byte>, log: seq<Binary>)
    requires AllGenuine(d, log)
    ensures MovedBack(log) <==> exists b :: b in log && d[b.at] == TAG_BINARY_32 && d[b.at + 1] >= 128
  {
    forall b | b in log ensures b.to < b.from <==> d[b.at] == TAG_BINARY_32 && d[b.at + 1] >= 128 {
      assert Genuine(d, b);
      if d[b.at] == TAG_BINARY_32 { assert d[b.at + 1..b.from][0] == d[b.at + 1]; }
    }
  }

  /** On every input, and with every stack of more calls than there are bytes, the offset moves
      back if and only if a BINARY_32 that is reached has a first length byte of 128 or more, and
      that is when the forward reader gives up. Otherwise the two agree on value, offset and
      exception. */
  lemma MovesBackExactly(d: seq<byte>, depth: nat)
    requires depth > |d|
    ensures var r := NodeAt(d, 0, depth, []);
            && AllGenuine(d, r.log)
            && (MovedBack(r.log) <==> exists b :: b in r.log && d[b.at] == TAG_BINARY_32 && d[b.at + 1] >= 128)
            && (MovedBack(r.log) <==> Rewound(Decode(d)))
            && (!MovedBack(r.log) ==> r == Lift(Decode(d), r.log) && Decoded(d) == r)
  {
    NodeLog(d, 0, depth, []);
    NodeAgrees(d, 0, depth, []);
    hide NodeAt, ReadNode;
    var r := NodeAt(d, 0, depth, []);
    BackMeans(d, r.log);
    if !MovedBack(r.log) { DecodedIs(d, depth); }
  }
}
