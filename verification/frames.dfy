/** The frame cipher of the Noise transport (packages/wazeko-core/src/noise.ts): a counter for each
    direction, the IV made from it, and the three-byte length header. */
module Frames {

  import opened Options
  import opened Tokens

  type Bytes = seq<byte>

  /** AES-GCM, taken as given. */
  datatype Crypto = Crypto(gcmEncrypt: (Bytes, Bytes, Bytes) -> (Bytes, Bytes),
                           gcmDecrypt: (Bytes, Bytes, Bytes, Bytes) -> Option<Bytes>)

  ghost predicate Lawful(c: Crypto) {
    forall key: Bytes, iv: Bytes, plain: Bytes ::
      |c.gcmEncrypt(key, iv, plain).1| == 16 && OpenWith(c, key, iv, c.gcmEncrypt(key, iv, plain)) == Some(plain)
  }

  /** The authenticity of an ideal cipher: nothing opens under another IV. */
  ghost predicate Binding(c: Crypto) {
    forall key: Bytes, iv: Bytes, other: Bytes, plain: Bytes ::
      iv != other ==> OpenWith(c, key, other, c.gcmEncrypt(key, iv, plain)) == None
  }

  function OpenWith(c: Crypto, key: Bytes, iv: Bytes, body: (Bytes, Bytes)): Option<Bytes> {
    c.gcmDecrypt(key, iv, body.0, body.1)
  }

  // ---------------------------------------------------------------- counters and IVs

  const U64: nat := 0x1_0000_0000_0000_0000

  function BigEndian(n: nat, width: nat): (r: Bytes)
    ensures |r| == width
  {
    if width == 0 then [] else BigEndian(n / 256, width - 1) + [n % 256]
  }

  /** `setBigUint64(4, counter, false)` on twelve zero bytes; the counter wraps at 2^64. */
  function Iv(counter: nat): Bytes { [0, 0, 0, 0] + BigEndian(counter % U64, 8) }

  function FromBigEndian(bytes: Bytes): nat {
    if bytes == [] then 0 else FromBigEndian(bytes[..|bytes| - 1]) * 256 + bytes[|bytes| - 1]
  }

  function Power(width: nat): nat { if width == 0 then 1 else 256 * Power(width - 1) }

  lemma {:induction false} BigEndianReads(n: nat, width: nat)
    requires n < Power(width)
    ensures FromBigEndian(BigEndian(n, width)) == n
  {
    if width > 0 {
      BigEndianReads(n / 256, width - 1);
      assert BigEndian(n, width)[..width - 1] == BigEndian(n / 256, width - 1);
    }
  }

  /** The IV is four zero bytes and then the counter modulo 2^64, the high byte first. */
  lemma IvMeans(counter: nat)
    ensures |Iv(counter)| == 12 && Iv(counter)[..4] == [0, 0, 0, 0]
    ensures FromBigEndian(Iv(counter)[4..]) == counter % U64
  {
    EightBytes();
    BigEndianReads(counter % U64, 8);
    hide BigEndian, FromBigEndian;
    assert Iv(counter)[4..] == BigEndian(counter % U64, 8);
  }

  lemma EightBytes()
    ensures Power(8) == U64
  {
    assert Power(4) == 0x1_0000_0000;
    assert Power(6) == 0x1_0000_0000_0000;
  }

  /** Two counters give the same IV exactly when they agree modulo 2^64. */
  lemma IvExactly(a: nat, b: nat)
    ensures Iv(a) == Iv(b) <==> a % U64 == b % U64
  {
    EightBytes();
    BigEndianReads(a % U64, 8);
    BigEndianReads(b % U64, 8);
    hide BigEndian, FromBigEndian;
    assert Iv(a)[4..] == BigEndian(a % U64, 8);
    assert Iv(b)[4..] == BigEndian(b % U64, 8);
  }

  /** The IVs of n frames are pairwise distinct exactly up to 2^64 of them. */
  lemma IvsDistinct(n: nat)
    ensures (forall i: nat, j: nat :: i < j < n ==> Iv(i) != Iv(j)) <==> n <= U64
  {
    forall i: nat, j: nat ensures Iv(i) == Iv(j) <==> i % U64 == j % U64 { IvExactly(i, j); }
    hide Iv;
    if n > U64 { assert Iv(0) == Iv(U64); }
  }

  // ---------------------------------------------------------------- frames

  function Header(length: nat): Bytes {
    [length / 0x1_0000 % 256, length / 0x100 % 256, length % 256]
  }

  function FrameOf(body: (Bytes, Bytes)): Bytes { Header(|body.0| + |body.1|) + body.0 + body.1 }

  /** The header tells the length of what follows exactly when that is below 2^24. */
  lemma HeaderExactly(body: (Bytes, Bytes))
    ensures var f := FrameOf(body);
            f[0] as int * 0x1_0000 + f[1] as int * 0x100 + f[2] as int == |f| - 3 <==> |f| - 3 < 0x100_0000
  {
  }

  /** The ciphertext and tag `decryptFrame` cuts out; `None` where it rejects the length. */
  function BodyOf(frame: Bytes): Option<(Bytes, Bytes)> {
    if |frame| < 19 then None else Some((frame[3..|frame| - 16], frame[|frame| - 16..]))
  }

  lemma BodyOfFrame(body: (Bytes, Bytes))
    requires |body.1| == 16
    ensures BodyOf(FrameOf(body)) == Some(body)
  {
    var f := FrameOf(body);
    assert f[3..|f| - 16] == body.0 && f[|f| - 16..] == body.1;
  }

  /** What is too short for a tag is rejected; of all else the last 16 bytes are the tag and the bytes
      from the fourth up to there the ciphertext. */
  lemma BodyExactly(frame: Bytes)
    ensures BodyOf(frame).Some? <==> |frame| >= 19
    ensures |frame| >= 19 ==>
              var (text, tag) := BodyOf(frame).value; |tag| == 16 && frame == frame[..3] + text + tag
  {
  }

  // ---------------------------------------------------------------- one direction of a channel

  /** The counters of sender and receiver, the frames between them, what was sent and, frame by
      frame, what the receiver made of it. `strays` counts frames not from the sender that were long
      enough to reach the cipher; `offsets[k]` is that count when the k-th frame arrived. */
  datatype Channel = Channel(encCounter: nat, decCounter: nat, transit: seq<Bytes>, sent: seq<Bytes>,
                             results: seq<Option<Bytes>>, strays: nat, offsets: seq<nat>)

  datatype Action = Send(plain: Bytes) | Deliver | Stray(frame: Bytes)

  /** `decryptFrame` advances its counter before it decrypts, so also when that fails. */
  function CounterAfter(counter: nat, frame: Bytes): nat {
    if BodyOf(frame).None? then counter else counter + 1
  }

  function Decrypted(c: Crypto, key: Bytes, counter: nat, frame: Bytes): Option<Bytes> {
    match BodyOf(frame)
    case None => None
    case Some(body) => OpenWith(c, key, Iv(counter), body)
  }

  function Encrypted(c: Crypto, key: Bytes, counter: nat, plain: Bytes): Bytes {
    FrameOf(c.gcmEncrypt(key, Iv(counter), plain))
  }

  /** A frame is three bytes with the length of the rest modulo 2^24, the high byte first, and what the
      cipher makes of the text under the counter's IV. */
  lemma FrameMeans(c: Crypto, key: Bytes, counter: nat, plain: Bytes)
    ensures var f, body := Encrypted(c, key, counter, plain), c.gcmEncrypt(key, Iv(counter), plain);
            && |f| >= 3 && f[3..] == body.0 + body.1
            && f[0] as int * 0x1_0000 + f[1] as int * 0x100 + f[2] as int == (|f| - 3) % 0x100_0000
  {
    hide Iv;
    var body := c.gcmEncrypt(key, Iv(counter), plain);
    HeaderModulo(|body.0| + |body.1|);
    hide Header;
    assert FrameOf(body)[..3] == Header(|body.0| + |body.1|);
  }

  lemma HeaderModulo(n: nat)
    ensures |Header(n)| == 3
    ensures Header(n)[0] as int * 0x1_0000 + Header(n)[1] as int * 0x100 + Header(n)[2] as int == n % 0x100_0000
  {
    var q, r := n / 0x100, n / 0x1_0000;
    assert r == q / 0x100 && n == 0x100 * q + n % 0x100 && q == 0x100 * r + q % 0x100;
    assert r == 0x100 * (r / 0x100) + r % 0x100;
    assert n == 0x100_0000 * (r / 0x100) + (0x1_0000 * (r % 0x100) + 0x100 * (q % 0x100) + n % 0x100);
  }

  function Next(c: Crypto, key: Bytes, s: Channel, a: Action): Channel {
    match a
    case Send(plain) =>
      s.(encCounter := s.encCounter + 1, transit := s.transit + [Encrypted(c, key, s.encCounter, plain)],
         sent := s.sent + [plain])
    case Deliver =>
      if s.transit == [] then s
      else
        s.(decCounter := CounterAfter(s.decCounter, s.transit[0]), transit := s.transit[1..],
           results := s.results + [Decrypted(c, key, s.decCounter, s.transit[0])], offsets := s.offsets + [s.strays])
    case Stray(frame) =>
      s.(decCounter := CounterAfter(s.decCounter, frame), strays := CounterAfter(s.strays, frame))
  }

  function Run(c: Crypto, key: Bytes, actions: seq<Action>): Channel {
    if actions == [] then Channel(0, 0, [], [], [], 0, [])
    else Next(c, key, Run(c, key, actions[..|actions| - 1]), actions[|actions| - 1])
  }

  /** How the k-th frame fared: opened under the IV its offset shifted it to. */
  ghost predicate OpenedAs(c: Crypto, key: Bytes, k: nat, plain: Bytes, offset: nat, result: Option<Bytes>) {
    result == OpenWith(c, key, Iv(k + offset), c.gcmEncrypt(key, Iv(k), plain))
  }

  ghost predicate InStep(c: Crypto, key: Bytes, s: Channel) {
    && s.encCounter == |s.sent| == |s.results| + |s.transit|
    && s.decCounter == |s.results| + s.strays
    && |s.offsets| == |s.results|
    && (forall i :: 0 <= i < |s.transit| ==>
          s.transit[i] == Encrypted(c, key, |s.results| + i, s.sent[|s.results| + i]))
    && (forall k :: 0 <= k < |s.results| ==> OpenedAs(c, key, k, s.sent[k], s.offsets[k], s.results[k]))
    && (forall k :: 0 <= k < |s.offsets| ==> s.offsets[k] <= s.strays)
  }

  lemma NextInStep(c: Crypto, key: Bytes, s: Channel, a: Action)
    requires Lawful(c) && InStep(c, key, s)
    ensures InStep(c, key, Next(c, key, s, a))
  {
    hide Iv, BodyOf, FrameOf;
    if a.Deliver? && s.transit != [] {
      var k := |s.results|;
      assert s.transit[0] == Encrypted(c, key, k + 0, s.sent[k + 0]);
      BodyOfFrame(c.gcmEncrypt(key, Iv(k), s.sent[k]));
      var t := Next(c, key, s, a);
      assert OpenedAs(c, key, k, t.sent[k], t.offsets[k], t.results[k]);
      hide OpenedAs, Encrypted, Decrypted;
      forall i | 0 <= i < |t.transit|
        ensures t.transit[i] == Encrypted(c, key, |t.results| + i, t.sent[|t.results| + i]) {
        assert t.transit[i] == s.transit[i + 1];
      }
    } else {
      hide OpenedAs, Encrypted, Decrypted, OpenWith;
    }
  }

  lemma {:induction false} RunInStep(c: Crypto, key: Bytes, actions: seq<Action>)
    requires Lawful(c)
    ensures InStep(c, key, Run(c, key, actions))
  {
    if actions != [] {
      var n := |actions| - 1;
      hide Lawful, InStep, Next;
      RunInStep(c, key, actions[..n]);
      NextInStep(c, key, Run(c, key, actions[..n]), actions[n]);
    }
  }

  /** In every run the sender's counter is the receiver's plus the frames in transit, less the
      stray frames the receiver took for real ones. */
  lemma CountersAgree(c: Crypto, key: Bytes, actions: seq<Action>)
    requires Lawful(c)
    ensures var s := Run(c, key, actions);
            s.encCounter == |s.sent| && s.encCounter + s.strays == s.decCounter + |s.transit|
            && |s.results| + |s.transit| == |s.sent|
  {
    RunInStep(c, key, actions);
    hide Run;
  }

  lemma OffsetDecides(c: Crypto, key: Bytes, k: nat, plain: Bytes, offset: nat, result: Option<Bytes>)
    requires Lawful(c) && OpenedAs(c, key, k, plain, offset, result)
    ensures offset % U64 == 0 ==> result == Some(plain)
    ensures Binding(c) && offset % U64 != 0 ==> result == None
  {
    hide Iv;
    IvExactly(k, k + offset);
    ShiftExactly(k, offset);
  }

  lemma ShiftExactly(k: nat, offset: nat)
    ensures k % U64 == (k + offset) % U64 <==> offset % U64 == 0
  {}

  /** Exactly when a frame is read: in every run, the k-th frame opens to the k-th plaintext when
      the strays before it are a multiple of 2^64, so when there were none, and is rejected by a
      binding cipher otherwise: one stray frame shifts the receiver for good. */
  lemma KthFrameExactly(c: Crypto, key: Bytes, actions: seq<Action>, k: nat)
    requires Lawful(c)
    ensures var s := Run(c, key, actions);
            && |s.offsets| == |s.results| <= |s.sent|
            && (k < |s.results| ==>
                  && s.offsets[k] <= s.strays
                  && (s.offsets[k] % U64 == 0 ==> s.results[k] == Some(s.sent[k]))
                  && (Binding(c) && s.offsets[k] % U64 != 0 ==> s.results[k] == None))
  {
    RunInStep(c, key, actions);
    hide Run, Lawful, Binding, OpenedAs, Encrypted;
    var s := Run(c, key, actions);
    if k < |s.results| { OffsetDecides(c, key, k, s.sent[k], s.offsets[k], s.results[k]); }
  }

  // ---------------------------------------------------------------- a cipher of that kind

  /** The bytes marked one by one and ended, so that no such text is the beginning of another. */
  function Marked(iv: Bytes): Bytes {
    if iv == [] then [0] else [1, iv[0]] + Marked(iv[1..])
  }

  /** A cipher that writes the IV in front of the text and rejects any other. */
  function Labelled(): Crypto {
    Crypto((key: Bytes, iv: Bytes, plain: Bytes) => (Marked(iv) + plain, seq(16, _ => 0)),
           (key: Bytes, iv: Bytes, text: Bytes, tag: Bytes) =>
             if Marked(iv) <= text then Some(text[|Marked(iv)|..]) else None)
  }

  lemma {:induction false} MarkedPrefix(a: Bytes, b: Bytes, x: Bytes, y: Bytes)
    requires Marked(a) + x == Marked(b) + y
    ensures a == b
  {
    var s := Marked(a) + x;
    assert s[0] == Marked(a)[0] && s[0] == Marked(b)[0];
    if a != [] {
      assert s[1] == a[0] && s[1] == b[0];
      assert s[2..] == Marked(a[1..]) + x && s[2..] == Marked(b[1..]) + y;
      MarkedPrefix(a[1..], b[1..], x, y);
      assert a == [a[0]] + a[1..] && b == [b[0]] + b[1..];
    }
  }

  /** Both hypotheses can be met at once. */
  lemma LabelledBinds()
    ensures Lawful(Labelled()) && Binding(Labelled())
  {
    var c := Labelled();
    forall key: Bytes, iv: Bytes, other: Bytes, plain: Bytes | iv != other
      ensures OpenWith(c, key, other, c.gcmEncrypt(key, iv, plain)) == None
    {
      var text := Marked(iv) + plain;
      if Marked(other) <= text {
        assert text == Marked(other) + text[|Marked(other)|..];
        MarkedPrefix(iv, other, plain, text[|Marked(other)|..]);
      }
    }
  }

  // ---------------------------------------------------------------- the cipher object

  class FrameCipher {
    const crypto: Crypto
    const encKey: Bytes
    const decKey: Bytes
    var encCounter: nat
    var decCounter: nat

    constructor (crypto: Crypto, encKey: Bytes, decKey: Bytes, encCounter: nat, decCounter: nat)
      ensures this.crypto == crypto && this.encKey == encKey && this.decKey == decKey
      ensures this.encCounter == encCounter && this.decCounter == decCounter
    {
      this.crypto, this.encKey, this.decKey := crypto, encKey, decKey;
      this.encCounter, this.decCounter := encCounter, decCounter;
    }

    /** Fills the frame buffer in place: header, ciphertext, tag. */
    method EncryptFrame(plaintext: Bytes) returns (frame: array<byte>)
      modifies this`encCounter
      ensures fresh(frame) && frame[..] == Encrypted(crypto, encKey, old(encCounter), plaintext)
      ensures encCounter == old(encCounter) + 1
    {
      hide Iv, BigEndian;
      var iv := Iv(encCounter);
      encCounter := encCounter + 1;
      var (ciphertext, tag) := crypto.gcmEncrypt(encKey, iv, plaintext);
      var length := |ciphertext| + |tag|;
      frame := new byte[3 + length];
      frame[0] := length / 0x1_0000 % 256;
      frame[1] := length / 0x100 % 256;
      frame[2] := length % 256;
      forall i | 0 <= i < |ciphertext| { frame[3 + i] := ciphertext[i]; }
      forall i | 0 <= i < |tag| { frame[3 + |ciphertext| + i] := tag[i]; }
      assert frame[..3] == [frame[0], frame[1], frame[2]] == Header(length);
      assert frame[3..3 + |ciphertext|] == ciphertext;
      assert frame[3 + |ciphertext|..] == tag;
      assert frame[..] == frame[..3] + frame[3..3 + |ciphertext|] + frame[3 + |ciphertext|..];
    }

    /** `None` where the source throws; the counter has moved unless the frame was too short. */
    method DecryptFrame(frame: array<byte>) returns (plaintext: Option<Bytes>)
      modifies this`decCounter
      ensures plaintext == Decrypted(crypto, decKey, old(decCounter), frame[..])
      ensures decCounter == CounterAfter(old(decCounter), frame[..])
      ensures decCounter == old(decCounter) + (if frame.Length < 19 then 0 else 1)
    {
      if frame.Length < 3 + 16 { return None; }
      var payload := frame[3..];
      var tag := payload[|payload| - 16..];
      var ciphertext := payload[..|payload| - 16];
      assert ciphertext == frame[..][3..frame.Length - 16];
      var iv := Iv(decCounter);
      decCounter := decCounter + 1;
      plaintext := crypto.gcmDecrypt(decKey, iv, ciphertext, tag);
    }
  }
}
