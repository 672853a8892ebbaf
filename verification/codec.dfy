/** The encoder and decoder objects (packages/wazeko-protocol/src/encoder.ts, decoder.ts),
    proved equal to the functions of wire.dfy and reading.dfy. */
module Codec {
  import opened Options
  import opened Tokens
  import opened Wire
  import opened Utf8
  import opened Reading

  class BinaryEncoder {
    var buffer: seq<byte>

    constructor ()
      ensures buffer == []
    {
      buffer := [];
    }

    /** Resets the buffer, writes one node and returns the bytes, or the exception thrown. */
    method EncodeNode(node: Node) returns (r: Result<seq<byte>, EncodeError>)
      modifies this
      ensures r == Encode(node)
      ensures r.Ok? ==> buffer == r.value
    {
      buffer := [];
      var error := WriteNode(node);
      if error.Some? {
        return Err(error.value);
      }
      assert [] + NodeBytes(node) == NodeBytes(node);
      return Ok(buffer);
    }

    method WriteNode(node: Node) returns (error: Option<EncodeError>)
      modifies this
      ensures error == NodeError(node)
      ensures error.None? ==> buffer == old(buffer) + NodeBytes(node)
      decreases node, 1
    {
      hide TextBytes, HeaderBytes, TextError, HeaderError;
      error := WriteListHeader(ListSize(node));
      if error.Some? { return; }
      error := WriteString(node.tag);
      if error.Some? { return; }
      ghost var head := buffer;
      assert head == old(buffer) + (HeaderBytes(ListSize(node)) + TextBytes(node.tag));
      for i := 0 to |node.attrs|
        invariant error.None?
        invariant AttrError(node.attrs) == AttrError(node.attrs[i..])
        invariant buffer + AttrBytes(node.attrs[i..]) == head + AttrBytes(node.attrs)
      {
        var rest := node.attrs[i..];
        assert rest[0] == node.attrs[i] && rest[1..] == node.attrs[i + 1..];
        error := WriteString(node.attrs[i].key);
        if error.Some? { return; }
        error := WriteString(node.attrs[i].value);
        if error.Some? { return; }
      }
      assert AttrBytes(node.attrs[|node.attrs|..]) == [] && head + AttrBytes(node.attrs) == buffer;
      assert buffer == old(buffer) + HeadBytes(node);
      error := WriteContent(node);
      assert NodeBytes(node) == HeadBytes(node) + ContentBytes(node);
    }

    /** The part of `writeNode` behind the attributes. */
    method WriteContent(node: Node) returns (error: Option<EncodeError>)
      modifies this
      ensures error == if node.content.Children?
                       then First(HeaderError(|node.content.nodes|), NodesError(node.content.nodes))
                       else None
      ensures error.None? ==> buffer == old(buffer) + ContentBytes(node)
      decreases node, 0
    {
      hide HeaderBytes, HeaderError, NodeBytes, NodeError, BinaryBytes;
      error := None;
      match node.content {
        case Missing =>
        case Bytes(data) =>
          WriteBinary(data);
        case Children(nodes) =>
          error := WriteListHeader(|nodes|);
          if error.Some? { return; }
          ghost var before := buffer;
          for i := 0 to |nodes|
            invariant error.None?
            invariant NodesError(nodes) == NodesError(nodes[i..])
            invariant buffer + NodesBytes(nodes[i..]) == before + NodesBytes(nodes)
          {
            var rest := nodes[i..];
            assert rest[0] == nodes[i] && rest[1..] == nodes[i + 1..];
            error := WriteNode(nodes[i]);
            if error.Some? { return; }
          }
          assert NodesBytes(nodes[|nodes|..]) == [] && before + NodesBytes(nodes) == buffer;
      }
    }

    method WriteListHeader(size: nat) returns (error: Option<EncodeError>)
      modifies this
      ensures error == HeaderError(size)
      ensures error.None? ==> buffer == old(buffer) + HeaderBytes(size)
    {
      if size == 0 {
        buffer := buffer + [TAG_LIST_EMPTY];
      } else if size < 256 {
        buffer := buffer + [TAG_LIST_8, size];
      } else if size < 65536 {
        buffer := buffer + [TAG_LIST_16, High(size), Low(size)];
      } else {
        return Some(ListTooLong(size));
      }
      return None;
    }

    method WriteString(text: Text) returns (error: Option<EncodeError>)
      modifies this
      ensures error == TextError(text)
      ensures error.None? ==> buffer == old(buffer) + TextBytes(text)
    {
      hide Written;
      match GetTokenIndex(text) {
        case Some(index) =>
          buffer := buffer + [TAG_TOKEN, index];
        case None =>
          var bytes := Written(text);
          if |bytes| > 65535 {
            return Some(StringTooLong);
          }
          buffer := buffer + [TAG_STRING, High(|bytes|), Low(|bytes|)];
          WriteBytes(bytes);
      }
      return None;
    }

    method WriteBinary(data: seq<byte>)
      modifies this
      ensures buffer == old(buffer) + BinaryBytes(data)
    {
      if |data| < 256 {
        buffer := buffer + [TAG_BINARY_8, |data|];
      } else {
        buffer := buffer + ([TAG_BINARY_32] + LengthBytes(|data|));
      }
      WriteBytes(data);
    }

    /** The byte-by-byte loops at the end of `writeString` and `writeBinary`. */
    method WriteBytes(data: seq<byte>)
      modifies this
      ensures buffer == old(buffer) + data
    {
      for i := 0 to |data|
        invariant buffer == old(buffer) + data[..i]
      {
        buffer := buffer + [data[i]];
      }
    }
  }

  class BinaryDecoder {
    const data: seq<byte>
    var offset: int
    ghost var log: seq<Binary>

    constructor (data: seq<byte>)
      ensures this.data == data && offset == 0 && log == []
    {
      this.data := data;
      offset := 0;
      log := [];
    }

    /** The static `decode`, with a stack for `depth` nested calls. */
    static method DecodeBuffer(data: seq<byte>, depth: nat) returns (r: Result<Node, Stop>)
      ensures match NodeAt(data, 0, depth, [])
              case Reached(node, _, _) => r == Ok(node)
              case Halted(why, _) => r == Err(why)
    {
      var decoder := new BinaryDecoder(data);
      r := decoder.NextNode(depth);
    }

    /** The outcome of a read method: the value with the offset moved to where it leads, or the
        reason for stopping. */
    ghost predicate Delivers<T>(reach: Reach<T>, r: Result<T, Stop>)
      reads this
    {
      match reach
      case Reached(value, next, l) => r == Ok(value) && offset == next && log == l
      case Halted(why, l) => r == Err(why) && log == l
    }

    method NextNode(depth: nat) returns (r: Result<Node, Stop>)
      modifies this
      ensures Delivers(NodeAt(data, old(offset), depth, old(log)), r)
      decreases depth, 1
    {
      hide ReadText, ReadListSize, ContentAt;
      if depth == 0 { return Err(TooDeep); }
      if offset < 0 { return Err(NoByte); } // the tag read is undefined, and no list tag
      var size := NextListSize();
      if size.Err? { return Err(size.error); }
      if size.value == 0 { return Err(EmptyNode); }
      var tag := NextString();
      if tag.Err? { return Err(tag.error); }
      var attrs: seq<Attr> := [];
      var numAttrs := (size.value - 1) / 2;
      ghost var pairs := offset;
      for i := 0 to numAttrs
        invariant 0 <= pairs <= |data| && 0 <= offset <= |data| && log == old(log)
        invariant ReadAttrs(data, offset, numAttrs - i, attrs) == ReadAttrs(data, pairs, numAttrs, [])
      {
        var key := NextString();
        if key.Err? { return Err(key.error); }
        var value := NextString();
        if value.Err? { return Err(value.error); }
        attrs := SetAttr(attrs, key.value, value.value);
      }
      var content: Content := Missing;
      if (size.value - 1) % 2 == 1 {
        var c := NextContent(depth);
        if c.Err? { return Err(c.error); }
        content := c.value;
      }
      return Ok(Node(tag.value, attrs, content));
    }

    method NextContent(depth: nat) returns (r: Result<Content, Stop>)
      requires offset >= 0 && depth > 0
      modifies this
      ensures Delivers(ContentAt(data, old(offset), depth, old(log)), r)
      decreases depth, 0
    {
      hide ReadText, ReadListSize, BinaryAt, NodeAt;
      if offset >= |data| { return Ok(Missing); }
      var tag := data[offset];
      if tag == TAG_LIST_EMPTY || tag == TAG_LIST_8 || tag == TAG_LIST_16 {
        var count := NextListSize();
        if count.Err? { return Err(count.error); }
        var children: seq<Node> := [];
        ghost var list := offset;
        for i := 0 to count.value
          invariant NodesAt(data, offset, count.value - i, children, depth - 1, log) ==
                    NodesAt(data, list, count.value, [], depth - 1, old(log))
        {
          var child := NextNode(depth - 1);
          if child.Err? { return Err(child.error); }
          children := children + [child.value];
        }
        return Ok(Children(children));
      }
      if tag == TAG_BINARY_8 || tag == TAG_BINARY_32 {
        var binary := NextBinary();
        return if binary.Ok? then Ok(Bytes(binary.value)) else Err(binary.error);
      }
      var text := NextString();
      return if text.Ok? then Ok(Bytes(text.value)) else Err(text.error);
    }

    /** A byte that exists or is missing at the end; no caller reads one in front of the data. */
    method NextByte() returns (r: Result<byte, Stop>)
      requires offset >= 0
      modifies this`offset
      ensures Delivers(Lift(ReadByte(data, old(offset)), log), r)
    {
      if offset >= |data| { return Err(Eof); }
      r := Ok(data[offset]);
      offset := offset + 1;
    }

    /** `readBytes`, for any offset and any length, also a negative one. */
    method NextBytes(len: int) returns (r: Result<seq<byte>, Stop>)
      modifies this`offset
      ensures old(offset) + len > |data| ==> r == Err(Eof) && offset == old(offset)
      ensures old(offset) + len <= |data| ==>
                r == Ok(SubArray(data, old(offset), old(offset) + len)) && offset == old(offset) + len
    {
      if offset + len > |data| { return Err(Eof); }
      r := Ok(SubArray(data, offset, offset + len));
      offset := offset + len;
    }

    /** Two bytes, big-endian. */
    method NextShort() returns (r: Result<nat, Stop>)
      requires offset >= 0
      modifies this`offset
      ensures Delivers(Lift(ReadShort(data, old(offset)), log), r)
    {
      var b := NextBytes(2);
      if b.Err? { return Err(b.error); }
      return Ok(b.value[0] as int * 256 + b.value[1]);
    }

    method NextListSize() returns (r: Result<nat, Stop>)
      requires offset >= 0
      modifies this`offset
      ensures Delivers(Lift(ReadListSize(data, old(offset)), log), r)
    {
      var tag := NextByte();
      if tag.Err? { return Err(tag.error); }
      if tag.value == TAG_LIST_EMPTY {
        return Ok(0);
      } else if tag.value == TAG_LIST_8 {
        var size := NextByte();
        return if size.Ok? then Ok(size.value) else Err(size.error);
      } else if tag.value == TAG_LIST_16 {
        r := NextShort();
      } else {
        return Err(BadListTag(tag.value));
      }
    }

    method NextString() returns (r: Result<Text, Stop>)
      requires offset >= 0
      modifies this`offset
      ensures Delivers(Lift(ReadText(data, old(offset)), log), r)
    {
      var tag := NextByte();
      if tag.Err? { return Err(tag.error); }
      if tag.value == TAG_TOKEN {
        var index := NextByte();
        if index.Err? { return Err(index.error); }
        var token := GetToken(index.value);
        return if token.Some? then Ok(token.value) else Err(BadToken(index.value));
      } else if tag.value == TAG_STRING {
        var len := NextShort();
        if len.Err? { return Err(len.error); }
        var bytes := NextBytes(len.value);
        return if bytes.Ok? then Ok(DecodeText(bytes.value)) else Err(bytes.error);
      } else {
        return Err(BadStringTag(tag.value));
      }
    }

    method NextBinary() returns (r: Result<seq<byte>, Stop>)
      requires 0 <= offset < |data| && data[offset] in {TAG_BINARY_8, TAG_BINARY_32}
      modifies this
      ensures Delivers(BinaryAt(data, old(offset), old(log)), r)
    {
      var tag := NextByte();
      var len: int;
      if tag.value == TAG_BINARY_8 {
        var size := NextByte();
        if size.Err? { return Err(size.error); }
        len := size.value;
      } else {
        var b := NextBytes(4);
        if b.Err? { return Err(b.error); }
        len := SignedLength(b.value);
      }
      hide SignedLength, SubArray;
      ghost var from := offset;
      r := NextBytes(len);
      if r.Ok? { log := log + [Binary(old(offset), from, offset)]; }
    }
  }
}
