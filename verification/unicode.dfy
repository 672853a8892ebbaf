/** Well-formed UTF-8 is what encoding characters gives, and the pieces that are replaced are the
    longest beginnings of characters. */
module Unicode {
  import opened Tokens
  import opened Utf8

  /** The code points of characters: all but the surrogates. */
  predicate IsScalar(c: nat) { c < 0xD800 || 0xE000 <= c <= 0x10_FFFF }

  function Continuation(c: nat): byte { 0x80 + c % 64 }

  /** The encoding of a code point, by RFC 3629, section 3. */
  function EncodeScalar(c: nat): (b: Text)
    requires c <= 0x10_FFFF
    ensures 1 <= |b| <= 4
  {
    if c < 0x80 then [c]
    else if c < 0x800 then [0xC0 + c / 64, Continuation(c)]
    else if c < 0x1_0000 then [0xE0 + c / 64 / 64, Continuation(c / 64), Continuation(c)]
    else [0xF0 + c / 64 / 64 / 64, Continuation(c / 64 / 64), Continuation(c / 64), Continuation(c)]
  }

  ghost predicate Starts(b: Text, c: nat) { IsScalar(c) && EncodeScalar(c) <= b }

  /** `b` is the beginning of a character that is cut off. */
  ghost predicate Begins(b: Text, c: nat) { IsScalar(c) && b < EncodeScalar(c) }

  ghost predicate NeverBegins(b: Text) { forall c: nat :: !Begins(b, c) }

  lemma PrefixIndex(a: Text, b: Text)
    requires a <= b
    ensures forall i {:trigger a[i]} :: 0 <= i < |a| ==> a[i] == b[i]
  {
    forall i | 0 <= i < |a| ensures a[i] == b[i] { assert b[..|a|][i] == b[i]; }
  }

  /** A character at the beginning is the first piece. */
  lemma ScalarIsPiece(b: Text, c: nat)
    requires Starts(b, c)
    ensures b != [] && Piece(b) == Char(|EncodeScalar(c)|)
  {
    var e := EncodeScalar(c);
    PrefixIndex(e, b);
    assert b[0] == e[0];
    var d1, d2 := c / 64, c / 64 / 64;
    if |e| > 1 { assert b[1] == e[1]; }
    if |e| > 2 {
      assert b[2] == e[2];
      assert c == 64 * d1 + c % 64 && d1 == 64 * d2 + d1 % 64;
    }
    if |e| > 3 {
      assert b[3] == e[3];
      assert d2 == 64 * (d2 / 64) + d2 % 64;
    }
  }

  /** And the first piece, if it is a character, is the encoding of one. */
  lemma PieceIsScalar(b: Text) returns (c: nat)
    requires b != [] && Piece(b).Char?
    ensures IsScalar(c) && EncodeScalar(c) == b[..Piece(b).length]
  {
    var n := Piece(b).length;
    if n == 1 {
      c := b[0];
    } else if n == 2 {
      c := Joined(b[0] - 0xC0, b[1]);
    } else if n == 3 {
      var d := Joined(b[0] - 0xE0, b[1]);
      c := Joined(d, b[2]);
    } else {
      var d := Joined(b[0] - 0xF0, b[1]);
      var e := Joined(d, b[2]);
      c := Joined(e, b[3]);
    }
  }

  lemma Joined(high: nat, b: byte) returns (c: nat)
    requires Trail(b)
    ensures c == 64 * high + b - 0x80 && c / 64 == high && Continuation(c) == b
  {
    c := 64 * high + b - 0x80;
  }

  ghost predicate AreScalars(cs: seq<nat>) { forall c :: c in cs ==> IsScalar(c) }

  ghost function Characters(cs: seq<nat>): Text
    requires AreScalars(cs)
  {
    if cs == [] then []
    else
      assert IsScalar(cs[0]);
      EncodeScalar(cs[0]) + Characters(cs[1..])
  }

  lemma {:induction false} CharactersValid(cs: seq<nat>)
    requires AreScalars(cs)
    ensures Valid(Characters(cs))
  {
    if cs != [] {
      CharactersValid(cs[1..]);
      var b := Characters(cs);
      ScalarIsPiece(b, cs[0]);
      hide EncodeScalar, Piece;
      assert b[|EncodeScalar(cs[0])|..] == Characters(cs[1..]);
    }
  }

  lemma {:induction false} ValidCharacters(b: Text) returns (cs: seq<nat>)
    requires Valid(b)
    ensures AreScalars(cs) && Characters(cs) == b
    decreases |b|
  {
    cs := [];
    if b != [] {
      var rest := b[Piece(b).length..];
      assert Piece(b).Char? && Valid(rest);
      hide EncodeScalar, Piece, Valid, AreScalars, Characters;
      var c := PieceIsScalar(b);
      var more := ValidCharacters(rest);
      OneMoreCharacter(b, Piece(b).length, c, more);
      cs := [c] + more;
    }
  }

  lemma OneMoreCharacter(b: Text, n: nat, c: nat, more: seq<nat>)
    requires n <= |b| && IsScalar(c) && EncodeScalar(c) == b[..n] && AreScalars(more) && Characters(more) == b[n..]
    ensures AreScalars([c] + more) && Characters([c] + more) == b
  {
    hide EncodeScalar, IsScalar;
    assert ([c] + more)[1..] == more && b == b[..n] + b[n..];
  }

  /** A string is well-formed exactly when it is the encoding of some characters. */
  lemma ValidExactly(b: Text)
    ensures Valid(b) <==> exists cs: seq<nat> :: AreScalars(cs) && Characters(cs) == b
  {
    hide Valid, Characters;
    if Valid(b) { var cs := ValidCharacters(b); }
    if cs: seq<nat> :| AreScalars(cs) && Characters(cs) == b { CharactersValid(cs); }
  }

  /** The bytes of a character that is cut off after the second or third. */
  lemma BeginsMeans(b: Text, c: nat)
    requires Begins(b, c) && |b| >= 2
    ensures |b| <= 3 && 0xE0 <= b[0] <= 0xF4 && Second(b[0], b[1])
    ensures |b| == 3 ==> b[0] >= 0xF0 && Trail(b[2])
  {
    var e := EncodeScalar(c);
    PrefixIndex(b, e);
    assert b[0] == e[0] && b[1] == e[1];
    if |b| > 2 { assert b[2] == e[2]; }
    var d1, d2 := c / 64, c / 64 / 64;
    assert c == 64 * d1 + c % 64 && d1 == 64 * d2 + d1 % 64 && d2 == 64 * (d2 / 64) + d2 % 64;
  }

  lemma CutScalar(b: Text) returns (c: nat)
    requires b != [] && Piece(b) in {Garbage(2), Garbage(3)}
    ensures Begins(b[..Piece(b).length], c)
  {
    var n := Piece(b).length;
    if b[0] < 0xF0 {
      var d := Joined(b[0] - 0xE0, b[1]);
      c := Joined(d, 0x80);
    } else {
      var d := Joined(b[0] - 0xF0, b[1]);
      var e := Joined(d, if n == 3 then b[2] else 0x80);
      c := Joined(e, 0x80);
    }
    assert EncodeScalar(c)[..n] == b[..n];
  }

  /** A piece that is replaced is a first byte, or the longest beginning of a character that is cut off
      there; no character starts with it. */
  lemma GarbageExactly(b: Text)
    requires b != [] && Piece(b).Garbage?
    ensures var n := Piece(b).length;
            && (forall c: nat :: !Starts(b, c))
            && (n > 1 ==> exists c: nat :: Begins(b[..n], c))
            && (n < |b| ==> NeverBegins(b[..n + 1]))
  {
    var n := Piece(b).length;
    forall c: nat ensures !Starts(b, c) {
      if Starts(b, c) { ScalarIsPiece(b, c); }
    }
    if n > 1 { var c := CutScalar(b); }
    if n < |b| {
      var longer := b[..n + 1];
      forall c: nat ensures !Begins(longer, c) {
        if Begins(longer, c) { BeginsMeans(longer, c); }
      }
    }
  }
}
