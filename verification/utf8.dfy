/** `TextEncoder` and `TextDecoder` as the Encoding Standard has them: the first writes U+FFFD for
    every lone surrogate, the second reads U+FFFD for every maximal piece that cannot be part of a
    character. */
module Utf8 {
  import opened Tokens

  predicate Trail(b: byte) { 0x80 <= b <= 0xBF }

  /** The second bytes a lead byte of three or four allows. */
  predicate Second(lead: byte, b: byte) {
    if lead == 0xE0 then 0xA0 <= b <= 0xBF
    else if lead == 0xED then 0x80 <= b <= 0x9F
    else if lead == 0xF0 then 0x90 <= b <= 0xBF
    else if lead == 0xF4 then 0x80 <= b <= 0x8F
    else Trail(b)
  }

  datatype Prefix = Char(length: nat) | Garbage(length: nat)

  /** The first piece, and whether it is a character. */
  function Piece(b: Text): (r: Prefix)
    requires b != []
    ensures 1 <= r.length <= |b|
  {
    var lead := b[0];
    if lead < 0x80 then Char(1)
    else if 0xC2 <= lead <= 0xDF then if |b| > 1 && Trail(b[1]) then Char(2) else Garbage(1)
    else if !(0xE0 <= lead <= 0xF4) || |b| == 1 || !Second(lead, b[1]) then Garbage(1)
    else if |b| == 2 || !Trail(b[2]) then Garbage(2)
    else if lead < 0xF0 then Char(3)
    else if |b| == 3 || !Trail(b[3]) then Garbage(3)
    else Char(4)
  }

  /** U+FFFD. */
  const REPLACEMENT: Text := [0xEF, 0xBF, 0xBD]

  function Repair(b: Text): Text {
    if b == [] then []
    else
      var piece := Piece(b);
      (if piece.Char? then b[..piece.length] else REPLACEMENT) + Repair(b[piece.length..])
  }

  /** A surrogate in the three bytes UTF-8 would have for it. */
  predicate Surrogate(b: Text) { |b| >= 3 && b[0] == 0xED && 0xA0 <= b[1] <= 0xBF && Trail(b[2]) }

  /** `TextEncoder.encode`. */
  function Written(t: Text): (r: Text)
    ensures |r| == |t|
  {
    if t == [] then []
    else if Surrogate(t) then REPLACEMENT + Written(t[3..])
    else t[..Piece(t).length] + Written(t[Piece(t).length..])
  }

  /** Well-formed UTF-8. */
  predicate Valid(b: Text) {
    b == [] || (var piece := Piece(b); piece.Char? && Valid(b[piece.length..]))
  }

  /** A character is recognised whatever follows it. */
  lemma PieceOf(a: Text, b: Text)
    requires a != [] && Piece(a) == Char(|a|)
    ensures Piece(a + b) == Char(|a|) && (a + b)[..|a|] == a && (a + b)[|a|..] == b
  {}

  /** Repairing leaves well-formed text alone, always gives well-formed text, and at most three bytes
      for one. */
  lemma {:induction false} RepairMeans(b: Text)
    ensures Valid(b) ==> Repair(b) == b
    ensures Valid(Repair(b)) && |Repair(b)| <= 3 * |b|
  {
    if b != [] {
      var piece := Piece(b);
      var n, rest := piece.length, b[piece.length..];
      RepairMeans(rest);
      assert b == b[..n] + rest;
      if piece.Char? { PieceSelf(b); }
      PieceOf(if piece.Char? then b[..n] else REPLACEMENT, Repair(rest));
    }
  }

  /** Encoding leaves a well-formed string alone. */
  lemma {:induction false} WrittenSame(t: Text)
    requires Valid(t)
    ensures Written(t) == t
  {
    if t != [] {
      var n := Piece(t).length;
      WrittenSame(t[n..]);
      assert t == t[..n] + t[n..];
    }
  }

  lemma PieceSelf(b: Text)
    requires b != [] && Piece(b).Char?
    ensures Piece(b[..Piece(b).length]) == Piece(b)
  {}

  /** A first character may be put in front or taken off. */
  lemma ValidRest(a: Text, b: Text)
    requires a != [] && Piece(a) == Char(|a|)
    ensures Valid(a + b) <==> Valid(b)
  {
    PieceOf(a, b);
  }

  lemma {:induction false} AsciiValid(b: Text)
    requires forall k :: 0 <= k < |b| ==> b[k] < 0x80
    ensures Valid(b)
  {
    if b != [] { AsciiValid(b[1..]); }
  }

  /** A byte that begins nothing becomes three bytes, so the bound is reached. */
  lemma {:induction false} RepairGrows(n: nat)
    ensures |Repair(seq(n, _ => 0xFF))| == 3 * n
  {
    if n > 0 {
      var b: Text := seq(n, _ => 0xFF);
      assert b[1..] == seq(n - 1, _ => 0xFF);
      RepairGrows(n - 1);
    }
  }
}
