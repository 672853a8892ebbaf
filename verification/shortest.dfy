/** The encoder writes the shortest form there is, and what single bytes it writes. */
module Shortest {
  import opened Options
  import opened Tokens
  import opened Utf8
  import opened Wire
  import opened Reading
  import opened RoundTrips
  import opened Decoding
  import opened Grammar

  /** A field that is well-formed UTF-8 or a token other than the empty one. */
  ghost predicate Proper(p: Part<Text>) {
    |p.bytes| >= 2 && if p.bytes[0] == 6 then p.bytes[1] != 0 else |p.bytes| >= 3 && Valid(p.bytes[3..])
  }

  /** Every field is proper, and no content is a token or a string of 256 bytes or more: contents are
      binary data or lists in what the encoder writes. */
  ghost predicate Direct(e: Element)
    decreases e
  {
    && e.Element? && Proper(e.tag) && (forall f :: f in e.fields ==> Proper(f))
    && match e.body
       case Words(text) => Proper(text) && text.bytes[0] == 5 && |text.value| < 256
       case List(_, children) => forall c :: c in children ==> Direct(c)
       case _ => true
  }

  lemma FieldShortest(b: seq<byte>, text: Text)
    requires IsField(b, text) && Proper(Part(b, text))
    ensures TextFits(text) && |TextBytes(text)| <= |b| && (b[0] == 5 ==> |text| <= |b| - 3)
  {
    if b[0] == 6 {
      TokenAt(b[1]);
      TokenNotEmpty(b[1]);
      hide SINGLE_BYTE_TOKENS, GetToken, IndexBelow, Ascii;
    } else {
      hide DecodeText, GetToken, IndexBelow, Written;
      DecodedTextFits(b[3..]);
    }
  }

  lemma TokenNotEmpty(index: nat)
    requires 0 < index < |SINGLE_BYTE_TOKENS|
    ensures Ascii(SINGLE_BYTE_TOKENS[index]) != []
  {}

  lemma {:induction false} SetAttrShorter(attrs: seq<Attr>, key: Text, value: Text)
    requires AttrsWithin(attrs) && TextFits(key) && TextFits(value)
    ensures |SetAttr(attrs, key, value)| <= |attrs| + 1 && AttrsWithin(SetAttr(attrs, key, value))
    ensures |AttrBytes(SetAttr(attrs, key, value))| <= |AttrBytes(attrs)| + |TextBytes(key)| + |TextBytes(value)|
  {
    hide TextBytes, TextFits;
    if key != PROTO && attrs != [] && attrs[0].key != key {
      assert attrs == [attrs[0]] + attrs[1..];
      SetAttrShorter(attrs[1..], key, value);
    }
  }

  lemma {:induction false} FieldsShortest(d: seq<byte>, off: nat, fields: seq<Part<Text>>, attrs: seq<Attr>)
    requires FieldsAt(d, off, fields) && |fields| % 2 == 0 && (forall f :: f in fields ==> Proper(f))
    requires AttrsWithin(attrs)
    ensures |Assigned(fields, attrs)| <= |attrs| + |fields| / 2 && AttrsWithin(Assigned(fields, attrs))
    ensures |AttrBytes(Assigned(fields, attrs))| <= |AttrBytes(attrs)| + FieldsLength(fields)
    decreases |fields|
  {
    hide TextBytes, TextFits, AttrBytes, SetAttr, Proper, IsField, At, AttrsWithin;
    if fields != [] {
      var key, value := fields[0], fields[1];
      assert key in fields && value in fields && fields[1..][0] == value && fields[1..][1..] == fields[2..];
      FieldShortest(key.bytes, key.value);
      FieldShortest(value.bytes, value.value);
      SetAttrShorter(attrs, key.value, value.value);
      FieldsShortest(d, off + |key.bytes| + |value.bytes|, fields[2..], SetAttr(attrs, key.value, value.value));
    }
  }

  lemma HeaderShortest(b: seq<byte>, size: nat, less: nat)
    requires IsHeader(b, size) && less <= size && (less == 0 ==> size == 0)
    ensures less <= 65535 && |HeaderBytes(less)| <= |b|
  {}

  lemma {:induction false} ElementShortest(d: seq<byte>, off: nat, e: Element)
    requires Stands(d, off, e) && Direct(e) && Sense(e).Ok?
    ensures Fits(Sense(e).value) && |NodeBytes(Sense(e).value)| <= Length(e)
    decreases e
  {
    hide Fits, HeadAt, BodyAt, HeadBytes, ContentBytes, Proper, BodySense, BodyLength, Assigned, FieldsLength;
    var n := Sense(e).value;
    BodyShortest(d, off + |e.header.bytes| + |e.tag.bytes| + FieldsLength(e.fields), e.body, n);
    PartsOdd(e.header.value);
    HeadShortest(d, off, e.header, e.tag, e.fields, n);
    PartsFit(n);
  }

  lemma PartsFit(n: Node)
    requires ListSize(n) <= 65535 && TextFits(n.tag) && AttrsWithin(n.attrs)
    requires n.content.Children? ==> |n.content.nodes| <= 65535 && forall c :: c in n.content.nodes ==> Fits(c)
    ensures Fits(n)
  {
    hide TextFits;
  }

  lemma HeadShortest(d: seq<byte>, off: nat, header: Part<nat>, tag: Part<Text>, fields: seq<Part<Text>>, n: Node)
    requires HeadAt(d, off, header, tag, fields) && |fields| % 2 == 0
    requires 1 + |fields| + (if n.content.Missing? then 0 else 1) <= header.value
    requires Proper(tag) && (forall f :: f in fields ==> Proper(f))
    requires n.tag == tag.value && n.attrs == Assigned(fields, [])
    ensures ListSize(n) <= 65535 && TextFits(n.tag) && AttrsWithin(n.attrs)
    ensures |HeadBytes(n)| <= |header.bytes| + |tag.bytes| + FieldsLength(fields)
  {
    hide TextBytes, TextFits, AttrsWithin, AttrBytes, HeaderBytes, Proper, IsField, At, IsHeader, FieldsAt, Assigned;
    hide FieldsLength;
    FieldShortest(tag.bytes, tag.value);
    AttrsShortest(d, off + |header.bytes| + |tag.bytes|, fields);
    HeaderShortest(header.bytes, header.value, ListSize(n));
  }

  lemma AttrsShortest(d: seq<byte>, off: nat, fields: seq<Part<Text>>)
    requires FieldsAt(d, off, fields) && |fields| % 2 == 0 && (forall f :: f in fields ==> Proper(f))
    ensures var attrs := Assigned(fields, []);
            2 * |attrs| <= |fields| && AttrsWithin(attrs) && |AttrBytes(attrs)| <= FieldsLength(fields)
  {
    assert AttrBytes([]) == [];
    FieldsShortest(d, off, fields, []);
    hide FieldsAt, Proper, Assigned, TextFits, AttrBytes, FieldsLength;
  }

  lemma PartsOdd(parts: nat)
    requires parts > 0
    ensures var fields := (parts - 1) / 2 * 2; fields % 2 == 0 && 1 + fields + (1 - parts % 2) == parts
  {}

  lemma {:induction false} BodyShortest(d: seq<byte>, off: nat, body: Body, n: Node)
    requires BodyAt(d, off, body) && BodySense(body) == Ok(n.content)
    requires body.Words? ==> Proper(body.text) && body.text.bytes[0] == 5 && |body.text.value| < 256
    requires body.List? ==> forall c :: c in body.children ==> Direct(c)
    ensures |ContentBytes(n)| <= BodyLength(body) && (body.NoBody? ==> n.content.Missing?)
    ensures n.content.Children? ==> |n.content.nodes| <= 65535 && forall c :: c in n.content.nodes ==> Fits(c)
    decreases body
  {
    hide Proper, HeaderBytes, At, IsField, IsHeader, Direct, Fits, NodesBytes;
    match body {
      case Data(p) => DataShortest(p.bytes, p.value);
      case Words(p) => FieldShortest(p.bytes, p.value);
      case List(header, children) =>
        HeaderShortest(header.bytes, header.value, header.value);
        AllShortest(d, off + |header.bytes|, children);
      case _ =>
    }
  }

  lemma DataShortest(b: seq<byte>, data: seq<byte>)
    requires IsBinary(b, data)
    ensures |BinaryBytes(data)| <= |b|
  {
    assert |LengthBytes(|data|)| == 4;
    hide LengthBytes;
  }

  lemma {:induction false} AllShortest(d: seq<byte>, off: nat, children: seq<Element>)
    requires AllAt(d, off, children) && (forall c :: c in children ==> Direct(c)) && AllSense(children).Ok?
    ensures |NodesBytes(AllSense(children).value)| <= AllLength(children)
    ensures forall c :: c in AllSense(children).value ==> Fits(c)
    decreases children
  {
    hide Stands, Direct, Sense, Length, Fits, NodeBytes;
    if children != [] {
      ElementShortest(d, off, children[0]);
      AllShortest(d, off + Length(children[0]), children[1..]);
    }
  }

  /** No input of direct form is shorter than what the encoder writes for the node it decodes to. */
  lemma EncodingShortest(d: seq<byte>, e: Element)
    requires Stands(d, 0, e) && Direct(e) && Sense(e).Ok?
    ensures Decoded(d).Reached? && Encode(Decoded(d).value).Ok?
    ensures |Encode(Decoded(d).value).value| <= Decoded(d).next
  {
    DecodesAsPieces(d, e);
    hide Stands, Direct, Decoded, Sense, Length, NodeBytes, Fits;
    ElementShortest(d, 0, e);
    EncoderLimits(Sense(e).value);
  }

  // ---------------------------------------------------------------- single encodings

  lemma TokenIs(name: string, index: nat)
    requires index < |SINGLE_BYTE_TOKENS| && SINGLE_BYTE_TOKENS[index] == name && name != ""
    ensures GetTokenIndex(Ascii(name)) == Some(index)
  {
    TokenAt(index);
    TokenInverse(index);
    hide GetTokenIndex, GetToken, SINGLE_BYTE_TOKENS;
  }

  /** The five tokens used below. */
  lemma FiveTokens()
    ensures GetTokenIndex(Ascii("message")) == Some(29) && GetTokenIndex(Ascii("iq")) == Some(46)
    ensures GetTokenIndex(Ascii("ping")) == Some(47) && GetTokenIndex(Ascii("pong")) == Some(49)
    ensures GetTokenIndex(Ascii("type")) == Some(4)
  {
    TokenIs("message", 29);
    TokenIs("iq", 46);
    TokenIs("type", 4);
    TokenIs("ping", 47);
    TokenIs("pong", 49);
  }

  /** A message with two bytes of content. */
  lemma MessageEncoded()
    ensures Encode(Node(Ascii("message"), [], Bytes([0x68, 0x69]))) == Ok([1, 2, 6, 29, 3, 2, 0x68, 0x69])
  {
    var n := Node(Ascii("message"), [], Bytes([0x68, 0x69]));
    FiveTokens();
    hide GetTokenIndex, Ascii, Written;
    EncoderLimits(n);
    assert HeadBytes(n) == [1, 2, 6, 29] && ContentBytes(n) == [3, 2, 0x68, 0x69];
    assert NodeBytes(n) == [1, 2, 6, 29, 3, 2, 0x68, 0x69];
  }

  lemma QueryHead(n: Node, text: Text)
    requires n.tag == Ascii("iq") && n.attrs == [Attr(Ascii("type"), text)] && n.content.Children?
    requires text == [0xC3, 0xA9] && GetTokenIndex(text).None? && Written(text) == text
    ensures HeadBytes(n) == [1, 4, 6, 46, 6, 4, 5, 0, 2, 0xC3, 0xA9]
  {
    FiveTokens();
    hide GetTokenIndex, Ascii, Written;
    assert n.attrs[1..] == [] && AttrBytes([]) == [];
    assert TextBytes(text) == [5, 0, 2, 0xC3, 0xA9];
    assert AttrBytes(n.attrs) == [6, 4] + [5, 0, 2, 0xC3, 0xA9] + [];
  }

  lemma QueryChildren(ping: Node, pong: Node)
    requires ping == Node(Ascii("ping"), [], Missing) && pong == Node(Ascii("pong"), [], Children([]))
    ensures NodesBytes([ping, pong]) == [1, 1, 6, 47, 1, 2, 6, 49, 0]
  {
    FiveTokens();
    hide GetTokenIndex, Ascii, Written;
    assert NodeBytes(ping) == [1, 1, 6, 47] && NodeBytes(pong) == [1, 2, 6, 49, 0];
    assert [ping, pong][1..] == [pong] && [pong][1..] == [];
    assert NodesBytes([pong]) == NodeBytes(pong);
  }

  lemma QueryText(text: Text)
    requires text == [0xC3, 0xA9]
    ensures GetTokenIndex(text).None? && Written(text) == text
  {
    NotAToken(text, 0);
    WrittenSame(text);
  }

  lemma QueryFits(n: Node, text: Text)
    requires n == Node(Ascii("iq"), [Attr(Ascii("type"), text)], Children([Node(Ascii("ping"), [], Missing),
                                                                           Node(Ascii("pong"), [], Children([]))]))
    requires text == [0xC3, 0xA9]
    ensures Encode(n) == Ok(NodeBytes(n))
  {
    FiveTokens();
    EncoderLimits(n);
    hide GetTokenIndex, Ascii, NodeBytes, NodeError;
  }

  /** A query with a token and another string in an attribute, and two children, of which the second
      has an empty list of children. */
  lemma QueryEncoded()
    ensures var ping, pong := Node(Ascii("ping"), [], Missing), Node(Ascii("pong"), [], Children([]));
            Encode(Node(Ascii("iq"), [Attr(Ascii("type"), [0xC3, 0xA9])], Children([ping, pong]))) ==
            Ok([1, 4, 6, 46, 6, 4, 5, 0, 2, 0xC3, 0xA9, 1, 2, 1, 1, 6, 47, 1, 2, 6, 49, 0])
  {
    var ping, pong := Node(Ascii("ping"), [], Missing), Node(Ascii("pong"), [], Children([]));
    var text: Text := [0xC3, 0xA9];
    hide GetTokenIndex, Ascii, Written, Encode, HeadBytes, NodesBytes, NodeBytes;
    QueryText(text);
    var n := Node(Ascii("iq"), [Attr(Ascii("type"), text)], Children([ping, pong]));
    QueryFits(n, text);
    QueryHead(n, text);
    QueryChildren(ping, pong);
    QueryBytes(n);
    QueryJoined();
  }

  lemma QueryBytes(n: Node)
    requires n.content.Children? && |n.content.nodes| == 2
    ensures NodeBytes(n) == HeadBytes(n) + ([1, 2] + NodesBytes(n.content.nodes))
  {
    hide HeadBytes, NodesBytes;
    assert ContentBytes(n) == [1, 2] + NodesBytes(n.content.nodes);
  }

  lemma QueryJoined()
    ensures [1, 4, 6, 46, 6, 4, 5, 0, 2, 0xC3, 0xA9] + ([1, 2] + [1, 1, 6, 47, 1, 2, 6, 49, 0]) ==
            [1, 4, 6, 46, 6, 4, 5, 0, 2, 0xC3, 0xA9, 1, 2, 1, 1, 6, 47, 1, 2, 6, 49, 0]
  {}
}
