/** Signal sessions (packages/wazeko-core/src/signal.ts): one chain key and one sequence number,
    advanced by every message sent and every message opened. */
module Ratchets {

  import opened Options
  import opened Tokens
  import Jids

  type Bytes = seq<byte>

  type IV = iv: Bytes | |iv| == 16 witness seq(16, _ => 0)

  /** The primitives, taken as given. Salts and output lengths are constants of the source. */
  datatype Crypto = Crypto(sha256: Bytes -> Bytes, hkdf: (Bytes, string) -> Bytes,
                           cbcEncrypt: (Bytes, IV, Bytes) -> Bytes, cbcDecrypt: (Bytes, IV, Bytes) -> Option<Bytes>)

  ghost predicate Lawful(c: Crypto) {
    forall key: Bytes, iv: IV, plain: Bytes :: c.cbcDecrypt(key, iv, c.cbcEncrypt(key, iv, plain)) == Some(plain)
  }

  datatype Session = Session(chainKey: Bytes, sequence: nat)

  datatype Message = Message(kind: string, registrationId: nat, ciphertext: Bytes)

  function Start(c: Crypto, secret: Bytes): Session {
    Session(c.hkdf(c.hkdf(secret, "Signal-Root"), "Signal-Chain"), 0)
  }

  function MessageKey(c: Crypto, s: Session): Bytes {
    c.hkdf(s.chainKey, "Signal-Msg-" + Jids.Decimal(s.sequence))
  }

  function Advance(c: Crypto, s: Session): Session { Session(c.sha256(s.chainKey), s.sequence + 1) }

  function Seal(c: Crypto, s: Session, iv: IV, plain: Bytes): Message {
    Message(if s.sequence + 1 == 1 then "pkmsg" else "msg", 1000, iv + c.cbcEncrypt(MessageKey(c, s), iv, plain))
  }

  /** `None` where the source throws: no whole IV, or the cipher rejects the rest. */
  function Open(c: Crypto, s: Session, m: Message): Option<Bytes> {
    if |m.ciphertext| < 16 then None
    else c.cbcDecrypt(MessageKey(c, s), m.ciphertext[..16], m.ciphertext[16..])
  }

  /** The session after k messages in all. */
  function SessionAt(c: Crypto, secret: Bytes, k: nat): Session {
    if k == 0 then Start(c, secret) else Advance(c, SessionAt(c, secret, k - 1))
  }

  function Iterate(f: Bytes -> Bytes, x: Bytes, k: nat): Bytes {
    if k == 0 then x else f(Iterate(f, x, k - 1))
  }

  lemma {:induction false} ChainClosedForm(c: Crypto, secret: Bytes, k: nat)
    ensures SessionAt(c, secret, k) == Session(Iterate(c.sha256, Start(c, secret).chainKey, k), k)
  {
    if k > 0 { ChainClosedForm(c, secret, k - 1); }
  }

  /** What is sent and opened after k messages: the key comes from the shared secret, hashed k times,
      and from k; the IV stands in front of the ciphertext, and only the first message is a pkmsg. */
  lemma MessageMeans(c: Crypto, secret: Bytes, k: nat, iv: IV, plain: Bytes, m: Message)
    ensures var chain := Iterate(c.sha256, c.hkdf(c.hkdf(secret, "Signal-Root"), "Signal-Chain"), k);
            var key := c.hkdf(chain, "Signal-Msg-" + Jids.Decimal(k));
            && Seal(c, SessionAt(c, secret, k), iv, plain) ==
               Message(if k == 0 then "pkmsg" else "msg", 1000, iv + c.cbcEncrypt(key, iv, plain))
            && Open(c, SessionAt(c, secret, k), m) ==
               if |m.ciphertext| < 16 then None
               else c.cbcDecrypt(key, m.ciphertext[..16], m.ciphertext[16..])
  {
    ChainClosedForm(c, secret, k);
    hide SessionAt, Iterate, Jids.Decimal;
  }

  // ---------------------------------------------------------------- two parties

  /** A message in transit. The rest is history: what it was sealed from, the sequence number of the
      session that sealed it, and how many messages its sender had opened by then. */
  datatype Letter = Letter(message: Message, iv: IV, plain: Bytes, position: nat, heard: nat)

  /** One party: its session, what is in transit towards it, what it has sent and opened. */
  datatype Peer = Peer(session: Session, inbox: seq<Letter>, sent: seq<Bytes>, received: seq<Bytes>)

  datatype Action = Send(iv: IV, plain: Bytes) | Receive | Inject(message: Message)

  datatype World = World(left: Peer, right: Peer)

  datatype Step = Left(action: Action) | Right(action: Action)

  function Attempt(c: Crypto, p: Peer, m: Message): Peer {
    match Open(c, p.session, m)
    case None => p
    case Some(plain) => p.(session := Advance(c, p.session), received := p.received + [plain])
  }

  function Post(c: Crypto, here: Peer, iv: IV, plain: Bytes): Letter {
    Letter(Seal(c, here.session, iv, plain), iv, plain, here.session.sequence, |here.received|)
  }

  /** `here` acts; a message that does not open leaves the session unchanged. */
  function Act(c: Crypto, here: Peer, there: Peer, a: Action): (Peer, Peer) {
    match a
    case Send(iv, plain) =>
      (here.(session := Advance(c, here.session), sent := here.sent + [plain]),
       there.(inbox := there.inbox + [Post(c, here, iv, plain)]))
    case Receive =>
      if here.inbox == [] then (here, there)
      else (Attempt(c, here, here.inbox[0].message).(inbox := here.inbox[1..]), there)
    case Inject(message) => (Attempt(c, here, message), there)
  }

  function Next(c: Crypto, w: World, s: Step): World {
    match s
    case Left(a) => var (here, there) := Act(c, w.left, w.right, a); World(here, there)
    case Right(a) => var (here, there) := Act(c, w.right, w.left, a); World(there, here)
  }

  function Run(c: Crypto, secret: Bytes, steps: seq<Step>): World {
    if steps == [] then
      var start := Peer(Start(c, secret), [], [], []);
      World(start, start)
    else Next(c, Run(c, secret, steps[..|steps| - 1]), steps[|steps| - 1])
  }

  // ---------------------------------------------------------------- every run

  /** The session is the one reached by as many steps as messages were sent and opened. */
  ghost predicate OnChain(c: Crypto, secret: Bytes, p: Peer) {
    p.session == SessionAt(c, secret, |p.sent| + |p.received|)
  }

  /** The letters on their way are the last ones sent, in order, each sealed as its history says. */
  ghost predicate Posted(c: Crypto, secret: Bytes, from: Peer, to: Peer) {
    && |to.inbox| <= |from.sent|
    && forall i :: 0 <= i < |to.inbox| ==> IsLetter(c, secret, from, |from.sent| - |to.inbox| + i, to.inbox[i])
  }

  ghost predicate IsLetter(c: Crypto, secret: Bytes, from: Peer, k: nat, l: Letter)
    requires k < |from.sent|
  {
    && l.plain == from.sent[k] && l.position == k + l.heard
    && l.message == Seal(c, SessionAt(c, secret, l.position), l.iv, l.plain)
  }

  ghost predicate Tracked(c: Crypto, secret: Bytes, from: Peer, to: Peer) {
    OnChain(c, secret, from) && Posted(c, secret, from, to)
  }

  lemma ActTracked(c: Crypto, secret: Bytes, here: Peer, there: Peer, a: Action)
    requires Tracked(c, secret, here, there) && Tracked(c, secret, there, here)
    ensures var (h, t) := Act(c, here, there, a); Tracked(c, secret, h, t) && Tracked(c, secret, t, h)
  {
    hide Open, Seal, Start;
    ChainClosedForm(c, secret, |here.sent| + |here.received|);
    assert SessionAt(c, secret, |here.sent| + |here.received| + 1) == Advance(c, here.session);
    hide SessionAt, Advance;
    var (h, t) := Act(c, here, there, a);
    assert OnChain(c, secret, h) && OnChain(c, secret, t);
    ActPosts(c, secret, here, there, a);
    ActTakes(c, secret, here, there, a);
  }

  lemma ActPosts(c: Crypto, secret: Bytes, here: Peer, there: Peer, a: Action)
    requires Posted(c, secret, here, there) && here.session == SessionAt(c, secret, here.session.sequence)
    requires here.session.sequence == |here.sent| + |here.received|
    ensures var (h, t) := Act(c, here, there, a); Posted(c, secret, h, t)
  {
    hide Open, Seal, Advance, SessionAt;
    var (h, t) := Act(c, here, there, a);
    forall i | 0 <= i < |t.inbox| ensures IsLetter(c, secret, h, |h.sent| - |t.inbox| + i, t.inbox[i]) {
      if i < |there.inbox| { assert IsLetter(c, secret, here, |here.sent| - |there.inbox| + i, there.inbox[i]); }
    }
  }

  lemma ActTakes(c: Crypto, secret: Bytes, here: Peer, there: Peer, a: Action)
    requires Posted(c, secret, there, here)
    ensures var (h, t) := Act(c, here, there, a); Posted(c, secret, t, h)
  {
    hide Open, Seal, Advance, SessionAt;
    var (h, t) := Act(c, here, there, a);
    forall i | 0 <= i < |h.inbox| ensures IsLetter(c, secret, t, |t.sent| - |h.inbox| + i, h.inbox[i]) {
      var k := i + |here.inbox| - |h.inbox|;
      assert IsLetter(c, secret, there, |there.sent| - |here.inbox| + k, here.inbox[k]);
    }
  }

  /** In every run, whoever sends and whatever is injected, each party's session is the one reached
      from the shared secret by as many steps as it has sent and opened messages, and the messages
      in transit are the last ones sent, sealed at the positions recorded. */
  lemma {:induction false} EveryRunOnChain(c: Crypto, secret: Bytes, steps: seq<Step>)
    ensures var w := Run(c, secret, steps); Tracked(c, secret, w.left, w.right) && Tracked(c, secret, w.right, w.left)
  {
    if steps != [] {
      var n := |steps| - 1;
      EveryRunOnChain(c, secret, steps[..n]);
      var w := Run(c, secret, steps[..n]);
      hide Tracked, Act;
      match steps[n] {
        case Left(a) => ActTracked(c, secret, w.left, w.right, a);
        case Right(a) => ActTracked(c, secret, w.right, w.left, a);
      }
    }
  }

  // ---------------------------------------------------------------- when a message opens

  lemma SealOpens(c: Crypto, s: Session, iv: IV, plain: Bytes)
    requires Lawful(c)
    ensures Open(c, s, Seal(c, s, iv, plain)) == Some(plain)
  {
    hide Jids.Decimal;
    var body := c.cbcEncrypt(MessageKey(c, s), iv, plain);
    assert (iv + body)[..16] == iv && (iv + body)[16..] == body;
  }

  /** The next letter opens at its own position. */
  ghost predicate HeadOpens(c: Crypto, from: Peer, to: Peer) {
    to.inbox != [] ==>
      var l := to.inbox[0];
      && |to.inbox| <= |from.sent| && l.plain == from.sent[|from.sent| - |to.inbox|]
      && (l.position == |to.sent| + |to.received| ==> Open(c, to.session, l.message) == Some(l.plain))
      && (l.message.kind == "pkmsg" <==> l.position == 0)
  }

  lemma TrackedOpens(c: Crypto, secret: Bytes, from: Peer, to: Peer)
    requires Lawful(c) && Tracked(c, secret, from, to) && OnChain(c, secret, to)
    ensures HeadOpens(c, from, to)
  {
    if to.inbox != [] {
      var l := to.inbox[0];
      assert IsLetter(c, secret, from, |from.sent| - |to.inbox| + 0, l);
      ChainClosedForm(c, secret, l.position);
      assert l.message.kind == "pkmsg" <==> l.position == 0 by { assert |"pkmsg"| != |"msg"|; }
      hide Open, Seal, SessionAt, Lawful;
      SealOpens(c, SessionAt(c, secret, l.position), l.iv, l.plain);
    }
  }

  /** When a message opens: in every run, whoever sends, whatever is injected and whatever was lost,
      the next message opens to the text that was sent if its position is the number of messages its
      receiver has sent and opened. */
  lemma HeadOpensInTurn(c: Crypto, secret: Bytes, steps: seq<Step>)
    requires Lawful(c)
    ensures var w := Run(c, secret, steps);
            HeadOpens(c, w.left, w.right) && HeadOpens(c, w.right, w.left)
  {
    EveryRunOnChain(c, secret, steps);
    hide Run, HeadOpens, Lawful, OnChain, Posted;
    var w := Run(c, secret, steps);
    TrackedOpens(c, secret, w.left, w.right);
    TrackedOpens(c, secret, w.right, w.left);
  }

  // ---------------------------------------------------------------- when nothing is lost

  /** What the steps alone say of one party: messages sent and delivered to it, and for each one on
      its way to it, how many its sender had been delivered when it was sent. */
  datatype Side = Side(sent: nat, got: nat, waiting: seq<nat>)

  datatype Tally = Tally(left: Side, right: Side)

  function CountAct(here: Side, there: Side, a: Action): (Side, Side) {
    match a
    case Send(_, _) => (here.(sent := here.sent + 1), there.(waiting := there.waiting + [here.got]))
    case Receive =>
      if here.waiting == [] then (here, there) else (here.(got := here.got + 1, waiting := here.waiting[1..]), there)
    case Inject(_) => (here, there)
  }

  function Count(steps: seq<Step>): Tally {
    if steps == [] then Tally(Side(0, 0, []), Side(0, 0, []))
    else
      var t := Count(steps[..|steps| - 1]);
      match steps[|steps| - 1]
      case Left(a) => var (here, there) := CountAct(t.left, t.right, a); Tally(here, there)
      case Right(a) => var (here, there) := CountAct(t.right, t.left, a); Tally(there, here)
  }

  function Acting(t: Tally, s: Step): Side { if s.Left? then t.left else t.right }

  /** No message is delivered to a party that has sent one which the sender of the message had not
      been delivered when it sent it. */
  predicate NoCrossing(steps: seq<Step>) {
    steps == [] ||
    (var n := |steps| - 1;
     var here := Acting(Count(steps[..n]), steps[n]);
     NoCrossing(steps[..n]) && (steps[n].action.Receive? && here.waiting != [] ==> here.waiting[0] == here.sent))
  }

  /** The stronger discipline: a party sends only when nothing is on its way to it. */
  predicate TakesTurns(steps: seq<Step>) {
    steps == [] ||
    (var n := |steps| - 1;
     TakesTurns(steps[..n]) && (steps[n].action.Send? ==> Acting(Count(steps[..n]), steps[n]).waiting == []))
  }

  /** Messages not from the other party do not open; where there are none, this says nothing. */
  predicate Rejects(c: Crypto, secret: Bytes, steps: seq<Step>) {
    steps == [] ||
    (var n := |steps| - 1;
     var w := Run(c, secret, steps[..n]);
     && Rejects(c, secret, steps[..n])
     && (steps[n].action.Inject? ==>
           Open(c, (if steps[n].Left? then w.left else w.right).session, steps[n].action.message) == None))
  }

  /** The cipher is not authenticated: a message delivered out of turn may open, to some text. */
  predicate MissesHead(c: Crypto, p: Peer, a: Action) {
    a.Receive? && p.inbox != [] && p.inbox[0].position != |p.sent| + |p.received| ==>
      Open(c, p.session, p.inbox[0].message) != Some(p.inbox[0].plain)
  }

  /** No message delivered out of turn opens to the very text that was sent. */
  predicate Misses(c: Crypto, secret: Bytes, steps: seq<Step>) {
    steps == [] ||
    (var n := |steps| - 1;
     var w := Run(c, secret, steps[..n]);
     && Misses(c, secret, steps[..n])
     && MissesHead(c, if steps[n].Left? then w.left else w.right, steps[n].action))
  }

  /** All that was delivered was opened, and is what was sent. */
  ghost predicate Complete(from: Peer, to: Peer) {
    && |from.sent| == |to.received| + |to.inbox|
    && to.received == from.sent[..|to.received|]
  }

  /** Something sent was delivered and did not arrive: it did not open, or opened to another text. */
  ghost predicate Lost(from: Peer, to: Peer) {
    || |to.received| + |to.inbox| < |from.sent|
    || exists k :: 0 <= k < |to.received| && k < |from.sent| && to.received[k] != from.sent[k]
  }

  ghost predicate Counted(p: Peer, t: Side) {
    && t.sent == |p.sent| && t.got == |p.received| && |t.waiting| == |p.inbox|
    && forall i :: 0 <= i < |p.inbox| ==> t.waiting[i] == p.inbox[i].heard
  }

  ghost predicate InSync(from: Peer, to: Peer, t: Side) { Complete(from, to) && Counted(to, t) }

  lemma ActInSync(c: Crypto, secret: Bytes, here: Peer, there: Peer, th: Side, tt: Side, a: Action)
    requires InSync(there, here, th) && InSync(here, there, tt)
    requires HeadOpens(c, there, here) && Tracked(c, secret, there, here)
    requires a.Receive? && th.waiting != [] ==> th.waiting[0] == th.sent
    requires a.Inject? ==> Open(c, here.session, a.message) == None
    ensures var ((h, t), (sh, st)) := (Act(c, here, there, a), CountAct(th, tt, a));
            InSync(t, h, sh) && InSync(h, t, st)
  {
    hide Open, Seal, SessionAt, OnChain;
    if a.Receive? && here.inbox != [] {
      assert IsLetter(c, secret, there, |there.sent| - |here.inbox| + 0, here.inbox[0]);
    }
  }

  /** A loss is never made up for. */
  lemma ActLost(c: Crypto, here: Peer, there: Peer, a: Action)
    requires |here.received| + |here.inbox| <= |there.sent| && |there.received| + |there.inbox| <= |here.sent|
    requires a.Inject? ==> Open(c, here.session, a.message) == None
    ensures var (h, t) := Act(c, here, there, a);
            && |h.received| + |h.inbox| <= |t.sent| && |t.received| + |t.inbox| <= |h.sent|
            && (Lost(here, there) ==> Lost(h, t)) && (Lost(there, here) ==> Lost(t, h))
  {
    hide Open, Seal, Lost;
    var (h, t) := Act(c, here, there, a);
    LostStays(here, there, h, t);
    LostStays(there, here, t, h);
  }

  lemma LostStays(from: Peer, to: Peer, from': Peer, to': Peer)
    requires |to'.received| + |to'.inbox| - |from'.sent| <= |to.received| + |to.inbox| - |from.sent|
    requires from.sent <= from'.sent && to.received <= to'.received
    ensures Lost(from, to) ==> Lost(from', to')
  {
    if k :| 0 <= k < |to.received| && k < |from.sent| && to.received[k] != from.sent[k] {
      assert to'.received[k] != from'.sent[k];
    }
  }

  /** A delivery out of turn is a loss. */
  lemma ActLoses(c: Crypto, secret: Bytes, here: Peer, there: Peer, th: Side)
    requires InSync(there, here, th) && th.waiting != [] && th.waiting[0] != th.sent
    requires MissesHead(c, here, Receive) && Tracked(c, secret, there, here)
    ensures var (h, t) := Act(c, here, there, Receive); Lost(t, h)
  {
    hide Open, Seal, SessionAt, OnChain;
    assert IsLetter(c, secret, there, |there.sent| - |here.inbox| + 0, here.inbox[0]);
    var (h, t) := Act(c, here, there, Receive);
    if h.received != here.received {
      assert h.received[|here.received|] != t.sent[|here.received|];
    }
  }

  ghost predicate BothInSync(w: World, t: Tally) { InSync(w.right, w.left, t.left) && InSync(w.left, w.right, t.right) }

  ghost predicate SomeLost(w: World) {
    && |w.left.received| + |w.left.inbox| <= |w.right.sent| && |w.right.received| + |w.right.inbox| <= |w.left.sent|
    && (Lost(w.left, w.right) || Lost(w.right, w.left))
  }

  lemma {:induction false} RunInSync(c: Crypto, secret: Bytes, steps: seq<Step>)
    requires Lawful(c) && Rejects(c, secret, steps)
    ensures NoCrossing(steps) ==> BothInSync(Run(c, secret, steps), Count(steps))
    ensures Misses(c, secret, steps) && !NoCrossing(steps) ==> SomeLost(Run(c, secret, steps))
  {
    if steps != [] {
      var n := |steps| - 1;
      RunInSync(c, secret, steps[..n]);
      EveryRunOnChain(c, secret, steps[..n]);
      HeadOpensInTurn(c, secret, steps[..n]);
      var w, t := Run(c, secret, steps[..n]), Count(steps[..n]);
      hide HeadOpens, Tracked, Act, CountAct, InSync, Lawful, MissesHead, Open, Lost;
      var sync, misses := NoCrossing(steps[..n]), Misses(c, secret, steps);
      match steps[n] {
        case Left(a) => StepInSync(c, secret, w.left, w.right, t.left, t.right, a, sync, misses);
        case Right(a) => StepInSync(c, secret, w.right, w.left, t.right, t.left, a, sync, misses);
      }
    }
  }

  lemma StepInSync(c: Crypto, secret: Bytes, here: Peer, there: Peer, th: Side, tt: Side, a: Action,
                   sync: bool, misses: bool)
    requires HeadOpens(c, there, here) && Tracked(c, secret, there, here)
    requires a.Inject? ==> Open(c, here.session, a.message) == None
    requires misses ==> MissesHead(c, here, a)
    requires sync ==> InSync(there, here, th) && InSync(here, there, tt)
    requires misses && !sync ==> SomeLost(World(here, there))
    ensures var ((h, t), (sh, st)) := (Act(c, here, there, a), CountAct(th, tt, a));
            var turn := a.Receive? && th.waiting != [] ==> th.waiting[0] == th.sent;
            && (sync && turn ==> InSync(t, h, sh) && InSync(h, t, st))
            && (misses && !(sync && turn) ==> SomeLost(World(h, t)))
  {
    hide HeadOpens, Tracked, Open, MissesHead, CountAct, Counted, Lost;
    if sync && (a.Receive? && th.waiting != [] ==> th.waiting[0] == th.sent) {
      ActInSync(c, secret, here, there, th, tt, a);
    } else if misses {
      ActLost(c, here, there, a);
      if sync { ActLoses(c, secret, here, there, th); }
    }
  }

  /** Exactly when nothing is lost: in every run of two parties, each has opened all that was
      delivered to it, in the order sent, if no messages cross; and only then, unless a message
      delivered out of turn opens to the very text that was sent. Whether messages cross is a matter
      of who sends and receives when. */
  lemma NothingLostExactly(c: Crypto, secret: Bytes, steps: seq<Step>)
    requires Lawful(c) && Rejects(c, secret, steps)
    ensures var w := Run(c, secret, steps);
            var complete := Complete(w.left, w.right) && Complete(w.right, w.left);
            && (NoCrossing(steps) ==> complete)
            && (Misses(c, secret, steps) ==> (NoCrossing(steps) <==> complete))
  {
    RunInSync(c, secret, steps);
    hide Run, NoCrossing, Rejects, Misses, Lawful, Count, Counted;
  }

  /** While a party waits for what was sent to it, nothing that is on its way was sent too early. */
  ghost predicate InTurn(here: Side, there: Side) {
    && here.got + |here.waiting| == there.sent
    && (here.waiting == [] || there.waiting == [])
    && forall i :: 0 <= i < |here.waiting| ==> here.waiting[i] == here.sent
  }

  lemma {:induction false} TurnsNeverCross(steps: seq<Step>)
    requires TakesTurns(steps)
    ensures NoCrossing(steps)
    ensures InTurn(Count(steps).left, Count(steps).right) && InTurn(Count(steps).right, Count(steps).left)
  {
    if steps != [] { TurnsNeverCross(steps[..|steps| - 1]); }
  }

  /** In every conversation that takes turns, of which one-way runs with any lead of the sender are
      the simplest, each party has opened exactly the first messages of the other, in order; the
      rest are in transit and the next of them opens. */
  lemma KthOpensKth(c: Crypto, secret: Bytes, steps: seq<Step>)
    requires Lawful(c) && Rejects(c, secret, steps) && TakesTurns(steps)
    ensures var w := Run(c, secret, steps);
            && Complete(w.left, w.right) && Complete(w.right, w.left)
            && w.left.session.sequence + |w.left.inbox| == w.right.session.sequence + |w.right.inbox|
            && NextOpens(c, w.left, w.right) && NextOpens(c, w.right, w.left)
  {
    RunInSync(c, secret, steps);
    TurnsNeverCross(steps);
    EveryRunOnChain(c, secret, steps);
    HeadOpensInTurn(c, secret, steps);
    hide Run, NoCrossing, Rejects, TakesTurns, Count, Lawful, Misses, HeadOpens, Tracked, InTurn, NextOpens;
    var w, t := Run(c, secret, steps), Count(steps);
    NextInTurn(c, secret, w.left, w.right, t.right, t.left);
    NextInTurn(c, secret, w.right, w.left, t.left, t.right);
  }

  lemma NextInTurn(c: Crypto, secret: Bytes, from: Peer, to: Peer, here: Side, there: Side)
    requires Tracked(c, secret, from, to) && Tracked(c, secret, to, from) && HeadOpens(c, from, to)
    requires InSync(from, to, here) && InTurn(here, there)
    ensures to.session.sequence == |to.sent| + |to.received| && NextOpens(c, from, to)
  {
    ChainClosedForm(c, secret, |to.sent| + |to.received|);
    hide Open, SessionAt, Iterate;
    if to.inbox != [] {
      assert IsLetter(c, secret, from, |from.sent| - |to.inbox| + 0, to.inbox[0]);
      assert here.waiting[0] == here.sent;
    }
  }

  ghost predicate NextOpens(c: Crypto, from: Peer, to: Peer) {
    to.inbox != [] ==>
      && |to.received| < |from.sent|
      && Open(c, to.session, to.inbox[0].message) == Some(from.sent[|to.received|])
      && (to.inbox[0].message.kind == "pkmsg" <==> to.session.sequence == 0)
  }

  // ---------------------------------------------------------------- messages that cross

  /** A cipher that rejects a wrong key: message keys are names ended by a zero byte, and the
      ciphertext starts with the key. */
  function Strict(): Crypto {
    Crypto(key => key, (key: Bytes, info: string) => Ascii(info) + [0],
           (key: Bytes, iv: IV, plain: Bytes) => key + plain,
           (key: Bytes, iv: IV, body: Bytes) => if key <= body then Some(body[|key|..]) else None)
  }

  function Name(k: nat): string { "Signal-Msg-" + Jids.Decimal(k) }

  lemma NameDistinct(i: nat, j: nat)
    requires Ascii(Name(i)) == Ascii(Name(j))
    ensures i == j
  {
    Jids.DecimalParses(i);
    Jids.DecimalParses(j);
    hide Jids.Decimal, Jids.ParseInt;
    var a, b := Jids.Decimal(i), Jids.Decimal(j);
    assert |a| + 11 == |Ascii(Name(i))| == |Ascii(Name(j))| == |b| + 11;
    forall k | 0 <= k < |a| ensures a[k] == b[k] {
      assert a[k] in a && b[k] in b;
      assert Ascii(Name(i))[k + 11] == Ascii(Name(j))[k + 11];
    }
    assert a == b;
  }

  lemma NameEnds(k: nat)
    ensures 0 !in Ascii(Name(k))
  {
    Jids.DecimalParses(k);
    hide Jids.Decimal, Jids.ParseInt;
    var name := Name(k);
    forall i | 0 <= i < |name| ensures Ascii(name)[i] != 0 {
      if i >= 11 {
        assert name[i] == Jids.Decimal(k)[i - 11];
        assert name[i] in Jids.Decimal(k);
      }
    }
  }

  lemma EndedPrefix(a: Bytes, b: Bytes, x: Bytes)
    requires 0 !in a && 0 !in b && a + [0] <= b + [0] + x
    ensures a == b
  {
    var y := b + [0] + x;
    assert (a + [0])[|a|] == y[|a|] && y[|b|] == 0;
    assert forall k :: 0 <= k < |a| ==> (a + [0])[k] == a[k] == y[k];
    assert forall k :: 0 <= k < |b| ==> y[k] == b[k];
  }

  /** The authenticity of an ideal cipher: nothing opens with the message key of another position. */
  ghost predicate Binding(c: Crypto, secret: Bytes) {
    forall i: nat, j: nat, iv: IV, plain: Bytes ::
      i != j ==> Open(c, SessionAt(c, secret, j), Seal(c, SessionAt(c, secret, i), iv, plain)) == None
  }

  lemma {:induction false} BindingMisses(c: Crypto, secret: Bytes, steps: seq<Step>)
    requires Binding(c, secret)
    ensures Misses(c, secret, steps)
  {
    if steps != [] {
      var n := |steps| - 1;
      BindingMisses(c, secret, steps[..n]);
      EveryRunOnChain(c, secret, steps[..n]);
      hide Run, Open, Seal, SessionAt, Binding, Misses;
      var w := Run(c, secret, steps[..n]);
      BindingMissesHead(c, secret, w.right, w.left, steps[n].action);
      BindingMissesHead(c, secret, w.left, w.right, steps[n].action);
    }
  }

  lemma BindingMissesHead(c: Crypto, secret: Bytes, from: Peer, to: Peer, a: Action)
    requires Binding(c, secret) && Tracked(c, secret, from, to) && OnChain(c, secret, to)
    ensures MissesHead(c, to, a)
  {
    hide Open, Seal, SessionAt;
    if to.inbox != [] {
      assert IsLetter(c, secret, from, |from.sent| - |to.inbox| + 0, to.inbox[0]);
    }
  }

  /** Such a cipher exists, so the hypotheses above can be met. */
  lemma StrictBinds(secret: Bytes)
    ensures Lawful(Strict()) && Binding(Strict(), secret)
  {
    var c := Strict();
    forall i: nat, j: nat, iv: IV, plain: Bytes | i != j
      ensures Open(c, SessionAt(c, secret, j), Seal(c, SessionAt(c, secret, i), iv, plain)) == None
    {
      StrictRejects(secret, i, j, iv, plain);
    }
  }

  lemma StrictRejects(secret: Bytes, i: nat, j: nat, iv: IV, plain: Bytes)
    requires i != j
    ensures var c := Strict(); Open(c, SessionAt(c, secret, j), Seal(c, SessionAt(c, secret, i), iv, plain)) == None
  {
    var c := Strict();
    ChainClosedForm(c, secret, i);
    ChainClosedForm(c, secret, j);
    var a, b := Ascii(Name(j)), Ascii(Name(i));
    hide Jids.Decimal, Ascii, SessionAt, Iterate;
    assert MessageKey(c, SessionAt(c, secret, i)) == b + [0] && MessageKey(c, SessionAt(c, secret, j)) == a + [0];
    var m := Seal(c, SessionAt(c, secret, i), iv, plain);
    assert m.ciphertext[16..] == b + [0] + plain;
    if a + [0] <= b + [0] + plain {
      NameEnds(i);
      NameEnds(j);
      EndedPrefix(a, b, plain);
      NameDistinct(j, i);
    }
  }

  /** Another cipher that obeys the law and, like one without authentication, never rejects: the
      last character of the key's name is added to every byte. */
  function Shifting(): Crypto {
    Crypto(key => key, (key: Bytes, info: string) => Ascii(info),
           (key: Bytes, iv: IV, plain: Bytes) => Shift(plain, Last(key)),
           (key: Bytes, iv: IV, body: Bytes) => Some(Shift(body, 256 - Last(key))))
  }

  function Last(key: Bytes): nat { if key == [] then 0 else key[|key| - 1] }

  function Shift(text: Bytes, add: nat): (r: Bytes)
    ensures |r| == |text|
  {
    seq(|text|, i requires 0 <= i < |text| => (text[i] + add) % 256)
  }

  /** And one that ignores its key. */
  function Keyless(): Crypto {
    Crypto(key => key, (key: Bytes, info: string) => key, (key: Bytes, iv: IV, plain: Bytes) => plain,
           (key: Bytes, iv: IV, body: Bytes) => Some(body))
  }

  lemma ShiftBack(text: Bytes, add: nat, back: nat)
    requires add <= 255 && back <= 256
    ensures add + back == 256 ==> Shift(Shift(text, add), back) == text
    ensures add + back == 255 && text != [] ==> Shift(Shift(text, add), back) != text
  {
    var there := Shift(text, add);
    forall i | 0 <= i < |text|
      ensures add + back == 256 ==> Shift(there, back)[i] == text[i]
      ensures add + back == 255 ==> Shift(there, back)[i] != text[i]
    {
      ShiftByte(text[i], add, back);
    }
    hide Shift;
    assert text != [] && add + back == 255 ==> Shift(there, back)[0] != text[0];
  }

  lemma ShiftByte(x: byte, add: nat, back: nat)
    requires add <= 255 && back <= 256
    ensures add + back == 256 ==> ((x + add) % 256 + back) % 256 == x
    ensures add + back == 255 ==> ((x + add) % 256 + back) % 256 != x
  {
    assert (x + add) % 256 == if x + add < 256 then x + add else x + add - 256;
  }

  function ToList(text: Option<Bytes>): seq<Bytes> { if text.Some? then [text.value] else [] }

  /** What comes of the first message of one party after the other has sent one. */
  function Crossed(c: Crypto, secret: Bytes, iv: IV, plain: Bytes): Option<Bytes> {
    Open(c, SessionAt(c, secret, 1), Seal(c, SessionAt(c, secret, 0), iv, plain))
  }

  function Crossing(iv: IV, plain: Bytes): seq<Step> {
    [Left(Send(iv, plain)), Right(Send(iv, plain)), Left(Receive), Right(Receive)]
  }

  /** A party that has sent one message and has one on its way to it. */
  function Ahead(c: Crypto, secret: Bytes, iv: IV, plain: Bytes): Peer {
    var s := Start(c, secret);
    Peer(Advance(c, s), [Post(c, Peer(s, [], [], []), iv, plain)], [plain], [])
  }

  lemma CrossingSent(c: Crypto, secret: Bytes, iv: IV, plain: Bytes)
    ensures var ahead := Ahead(c, secret, iv, plain);
            Run(c, secret, Crossing(iv, plain)[..2]) == World(ahead, ahead)
  {
    var steps := Crossing(iv, plain);
    var start, ahead := Peer(Start(c, secret), [], [], []), Ahead(c, secret, iv, plain);
    assert Run(c, secret, steps[..0]) == World(start, start);
    hide Run, Seal, Advance, Start;
    RunNext(c, secret, steps, 0);
    assert Run(c, secret, steps[..1]) == World(ahead.(inbox := []), start.(inbox := ahead.inbox));
    RunNext(c, secret, steps, 1);
  }

  lemma BothReceive(c: Crypto, secret: Bytes, steps: seq<Step>, p: Peer)
    requires |steps| == 4 && steps[2] == Left(Receive) && steps[3] == Right(Receive)
    requires Run(c, secret, steps[..2]) == World(p, p) && |p.inbox| == 1
    ensures var q := Attempt(c, p, p.inbox[0].message).(inbox := []); Run(c, secret, steps) == World(q, q)
  {
    hide Run, Attempt;
    assert steps[..4] == steps && p.inbox[1..] == [];
    RunNext(c, secret, steps, 2);
    RunNext(c, secret, steps, 3);
  }

  /** When both parties send before either has received, each message is opened with the key after
      its own, whatever the cipher makes of that. */
  lemma CrossingMeets(c: Crypto, secret: Bytes, iv: IV, plain: Bytes)
    ensures var w := Run(c, secret, Crossing(iv, plain));
            var got := ToList(Crossed(c, secret, iv, plain));
            w.left.received == got && w.right.received == got && w.left.inbox == [] && w.right.inbox == []
  {
    var steps, s := Crossing(iv, plain), Start(c, secret);
    assert SessionAt(c, secret, 0) == s && SessionAt(c, secret, 1) == Advance(c, s);
    var crossed := Crossed(c, secret, iv, plain);
    assert crossed == Open(c, Advance(c, s), Seal(c, s, iv, plain));
    CrossingSent(c, secret, iv, plain);
    var ahead := Ahead(c, secret, iv, plain);
    hide Run, Seal, Open, Advance, Start, SessionAt, Crossed;
    BothReceive(c, secret, steps, ahead);
  }

  /** The three outcomes, each with a cipher that obeys the law: both messages are lost without a
      trace, both parties receive a text nobody sent, or both receive what was sent. So the run
      decides, and the last is why the hypothesis about it is needed. */
  lemma CrossingLoses(secret: Bytes, iv: IV, plain: Bytes)
    requires plain != []
    ensures Lawful(Strict()) && Lawful(Shifting()) && Lawful(Keyless())
    ensures var w := Run(Strict(), secret, Crossing(iv, plain)); w.left.received == w.right.received == []
    ensures var w := Run(Shifting(), secret, Crossing(iv, plain));
            |w.left.received| == 1 && w.left.received[0] != plain && w.right.received == w.left.received
    ensures var w := Run(Keyless(), secret, Crossing(iv, plain)); w.left.received == w.right.received == [plain]
  {
    hide Run;
    CrossingMeets(Strict(), secret, iv, plain);
    CrossingMeets(Shifting(), secret, iv, plain);
    CrossingMeets(Keyless(), secret, iv, plain);
    StrictRejects(secret, 0, 1, iv, plain);
    ShiftingMisleads(secret, iv, plain);
    KeylessOpens(secret, iv, plain);
    ShiftingLawful();
  }

  lemma ShiftingMisleads(secret: Bytes, iv: IV, plain: Bytes)
    requires plain != []
    ensures var crossed := Crossed(Shifting(), secret, iv, plain); crossed.Some? && crossed.value != plain
  {
    var c := Shifting();
    var s := Start(c, secret);
    assert SessionAt(c, secret, 0) == s && SessionAt(c, secret, 1) == Advance(c, s);
    assert Jids.Decimal(0) == "0" && Jids.Decimal(1) == "1";
    assert Last(MessageKey(c, s)) == 48 && Last(MessageKey(c, Advance(c, s))) == 49;
    var body := c.cbcEncrypt(MessageKey(c, s), iv, plain);
    assert (iv + body)[..16] == iv && (iv + body)[16..] == body;
    hide Shift;
    ShiftBack(plain, 48, 207);
  }

  lemma KeylessOpens(secret: Bytes, iv: IV, plain: Bytes)
    ensures Crossed(Keyless(), secret, iv, plain) == Some(plain)
  {
    hide Jids.Decimal, SessionAt;
    assert (iv + plain)[..16] == iv && (iv + plain)[16..] == plain;
  }

  lemma ShiftingLawful()
    ensures Lawful(Shifting())
  {
    forall key: Bytes, iv: IV, plain: Bytes
      ensures Shifting().cbcDecrypt(key, iv, Shifting().cbcEncrypt(key, iv, plain)) == Some(plain)
    {
      ShiftBack(plain, Last(key), 256 - Last(key));
    }
  }

  lemma RunNext(c: Crypto, secret: Bytes, steps: seq<Step>, k: nat)
    requires k < |steps|
    ensures Run(c, secret, steps[..k + 1]) == Next(c, Run(c, secret, steps[..k]), steps[k])
  {
    assert steps[..k + 1][..k] == steps[..k];
  }

  // ---------------------------------------------------------------- the session

  class SignalSession {
    const crypto: Crypto
    var chainKey: Bytes
    var sequence: nat

    ghost function View(): Session
      reads this
    {
      Session(chainKey, sequence)
    }

    constructor (crypto: Crypto, sharedSecret: Bytes)
      ensures this.crypto == crypto && View() == Start(crypto, sharedSecret)
    {
      this.crypto := crypto;
      var rootKey := crypto.hkdf(sharedSecret, "Signal-Root");
      chainKey := crypto.hkdf(rootKey, "Signal-Chain");
      sequence := 0;
    }

    method Encrypt(iv: IV, plaintext: Bytes) returns (m: Message)
      modifies this
      ensures View() == Advance(crypto, old(View())) && m == Seal(crypto, old(View()), iv, plaintext)
    {
      var messageKey := crypto.hkdf(chainKey, "Signal-Msg-" + Jids.Decimal(sequence));
      var ciphertext := crypto.cbcEncrypt(messageKey, iv, plaintext);
      var packed := iv + ciphertext;
      sequence := sequence + 1;
      chainKey := crypto.sha256(chainKey);
      m := Message(if sequence == 1 then "pkmsg" else "msg", 1000, packed);
    }

    /** `None` where the source throws, before anything has changed. */
    method Decrypt(message: Message) returns (plaintext: Option<Bytes>)
      modifies this
      ensures plaintext == Open(crypto, old(View()), message)
      ensures View() == if plaintext.Some? then Advance(crypto, old(View())) else old(View())
    {
      if |message.ciphertext| < 16 { return None; }
      var iv := message.ciphertext[..16];
      var ciphertext := message.ciphertext[16..];
      var messageKey := crypto.hkdf(chainKey, "Signal-Msg-" + Jids.Decimal(sequence));
      plaintext := crypto.cbcDecrypt(messageKey, iv, ciphertext);
      if plaintext == None { return; }
      sequence := sequence + 1;
      chainKey := crypto.sha256(chainKey);
    }
  }
}
