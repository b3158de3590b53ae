/** Two CryptoAuth sessions that talk to each other over a network which may lose, reorder and
    duplicate packets. */
module CryptoNetwork {
  import opened CTypes
  import RP = ReplayProtector
  import opened CryptoSession
  import opened CryptoRules

  datatype Side = A | B {
    function Other(): Side { if A? then B else A }
  }

  /** Who made a temporary key, in which role, and (a responder) in answer to which key. */
  datatype Origin = Origin(side: Side, initiator: bool, answers: Key)

  /** A traffic packet as it was sent, or as it was accepted: by whom, with which keys of his. */
  datatype Record = Record(side: Side, our: Key, her: Key, nonce: nat, initiator: bool, payload: nat)

  /** `net` holds every packet ever sent; a packet may be received any number of times or never. */
  datatype System = System(
    a: Session, b: Session,
    net: set<Packet>,
    origins: map<Key, Origin>,
    sent: seq<Record>,
    accepted: seq<Record>)
  {
    function Of(side: Side): Session { if side.A? then a else b }

    function With(side: Side, s: Session): System {
      if side.A? then this.(a := s) else this.(b := s)
    }
  }

  function RecordOf(side: Side, s: Session, p: Packet): Record
    requires p.Traffic?
  {
    Record(side, s.ourTemp, s.herTemp, p.nonce, s.isInitiator, p.payload)
  }

  /** A temporary key as encryptHandshake() makes it up: never seen before. */
  ghost predicate Unused(sys: System, k: Key) {
    k != ZERO && k !in sys.origins && k != sys.a.setup.ourPerm && k != sys.b.setup.ourPerm
  }

  function AfterSend(sys: System, side: Side, now: nat, newTemp: Key, payload: nat): System
    requires now < U64
  {
    var (s, p) := Encrypt(sys.Of(side), now, newTemp, payload);
    var t := sys.With(side, s);
    t.(net := sys.net + {p},
       origins := if s.ourTemp == newTemp && newTemp !in sys.origins
                  then sys.origins[newTemp := Origin(side, s.isInitiator, if s.isInitiator then ZERO else s.herTemp)]
                  else sys.origins,
       sent := if p.Traffic? then sys.sent + [RecordOf(side, s, p)] else sys.sent)
  }

  function AfterReceive(sys: System, side: Side, p: Packet, now: nat, junk: int): System {
    var (s, outcome) := Decrypt(sys.Of(side), p, now, junk);
    var t := sys.With(side, s);
    if p.Traffic? && outcome.Accepted? then t.(accepted := sys.accepted + [RecordOf(side, s, p)]) else t
  }

  datatype Step =
    | Send(side: Side, now: nat, newTemp: Key, payload: nat)
    | Receive(side: Side, packet: Packet, now: nat, junk: int)
    | Timeout(side: Side, now: nat)
    | Reset(side: Side, password: Option<nat>)

  /** A packet may be received unless it bumps the counter across 2^32: the run ends there. */
  ghost predicate Enabled(sys: System, step: Step) {
    match step
    case Send(side, now, newTemp, _) => now < U64 && Unused(sys, newTemp)
    case Receive(side, packet, _, _) => packet in sys.net && !Wraps(sys.Of(side), packet)
    case Timeout(_, now) => now < U64
    case Reset(_, _) => true
  }

  function Next(sys: System, step: Step): System
    requires step.Send? || step.Timeout? ==> step.now < U64
  {
    match step
    case Send(side, now, newTemp, payload) => AfterSend(sys, side, now, newTemp, payload)
    case Receive(side, packet, now, junk) => AfterReceive(sys, side, packet, now, junk)
    case Timeout(side, now) => sys.With(side, AfterTimeout(sys.Of(side), now))
    case Reset(side, password) =>
      var s := sys.Of(side);
      sys.With(side, Cleared(s.(setup := s.setup.(password := password))))
  }

  /** Setting a password makes that side begin again, and nothing else happens. */
  lemma ResetForgets(sys: System, side: Side, password: Option<nat>)
    ensures var sys' := Next(sys, Reset(side, password));
      && Blank(sys'.Of(side)) && sys'.Of(side).setup == sys.Of(side).setup.(password := password)
      && sys'.Of(side.Other()) == sys.Of(side.Other())
      && sys'.net == sys.net && sys'.origins == sys.origins && sys'.sent == sys.sent && sys'.accepted == sys.accepted
  {}

  /** Two new sessions for each other's permanent keys. */
  ghost predicate Initial(sys: System) {
    && sys.a.setup.ourPerm == sys.b.setup.herPerm != ZERO
    && sys.b.setup.ourPerm == sys.a.setup.herPerm != ZERO
    && sys.a.setup.ourPerm != sys.b.setup.ourPerm
    && sys.a == New(sys.a.setup, sys.a.lastPacket) && sys.b == New(sys.b.setup, sys.b.lastPacket)
    && sys.net == {} && sys.origins == map[] && sys.sent == [] && sys.accepted == []
  }

  // ---------------------------------------------------------------- the invariant

  ghost predicate Paired(sys: System) {
    && Sound(sys.a) && Sound(sys.b)
    && sys.a.setup.ourPerm == sys.b.setup.herPerm
    && sys.b.setup.ourPerm == sys.a.setup.herPerm
    && sys.a.setup.ourPerm != sys.b.setup.ourPerm
    && ZERO !in sys.origins
    && sys.a.setup.ourPerm !in sys.origins && sys.b.setup.ourPerm !in sys.origins
  }

  function Perm(sys: System, side: Side): Key { sys.Of(side).setup.ourPerm }

  /** A session's own temporary key was made by it in its present role, and hers by the peer in
      the opposite role; a responder's key answers the key it answered. */
  ghost predicate KeysRight(sys: System, side: Side) {
    var s := sys.Of(side);
    && (s.ourTemp != ZERO ==>
          s.ourTemp in sys.origins &&
          sys.origins[s.ourTemp] == Origin(side, s.isInitiator, if s.isInitiator then ZERO else s.herTemp))
    && (s.herTemp != ZERO ==>
          && s.herTemp in sys.origins
          && sys.origins[s.herTemp].side == side.Other()
          && sys.origins[s.herTemp].initiator == !s.isInitiator
          && (s.isInitiator ==> sys.origins[s.herTemp].answers == s.ourTemp))
  }

  ghost predicate HandshakeRight(sys: System, p: Packet)
    requires p.Handshake?
  {
    && p.nonce < FIRST_TRAFFIC
    && p.tempKey in sys.origins
    && var o := sys.origins[p.tempKey];
       && p.publicKey == Perm(sys, o.side)
       && o.initiator == (p.nonce < KEY)
       && p.boxKey == SharedSecret(
            Perm(sys, o.side), if o.initiator then Perm(sys, o.side.Other()) else o.answers, p.auth)
  }

  ghost predicate SentAs(r: Record, p: Packet)
    requires p.Traffic?
  {
    && p.nonce == r.nonce && p.payload == r.payload
    && p.boxKey == SharedSecret(r.our, r.her, None)
    && p.boxNonce == EncryptNonce(r.nonce, r.initiator)
  }

  ghost predicate OnRecord(sent: seq<Record>, p: Packet)
    requires p.Traffic?
  {
    exists i :: 0 <= i < |sent| && SentAs(sent[i], p)
  }

  ghost predicate NetRight(sys: System) {
    && (forall p :: p in sys.net ==> ProperPacket(p))
    && (forall p :: p in sys.net && p.Handshake? ==> HandshakeRight(sys, p))
    && (forall p :: p in sys.net && p.Traffic? ==> OnRecord(sys.sent, p))
  }

  /** The keys of a record were made by the two sides in opposite roles. */
  ghost predicate RecordRight(origins: map<Key, Origin>, r: Record) {
    && r.our in origins && origins[r.our].side == r.side && origins[r.our].initiator == r.initiator
    && r.her in origins && origins[r.her].side == r.side.Other() && origins[r.her].initiator == !r.initiator
  }

  ghost predicate SentRight(sys: System) {
    && (forall i :: 0 <= i < |sys.sent| ==>
          RecordRight(sys.origins, sys.sent[i]) && FIRST_TRAFFIC <= sys.sent[i].nonce < NONCE_LIMIT)
    && (forall i, j :: 0 <= i < j < |sys.sent| && sys.sent[i].our == sys.sent[j].our ==>
          sys.sent[i].nonce != sys.sent[j].nonce)
  }

  /** Nothing has been sent with the present key from the present counter on. */
  ghost predicate CounterAhead(sys: System, side: Side) {
    forall i :: 0 <= i < |sys.sent| && sys.sent[i].our == sys.Of(side).ourTemp ==>
      sys.sent[i].nonce < sys.Of(side).nextNonce
  }

  /** What the peer must have sent for `r` to be accepted. */
  ghost predicate Matches(sent: Record, r: Record) {
    && sent.side == r.side.Other() && sent.our == r.her && sent.her == r.our
    && sent.nonce == r.nonce && sent.initiator == !r.initiator && sent.payload == r.payload
  }

  ghost predicate WasSent(sent: seq<Record>, r: Record) {
    exists j :: 0 <= j < |sent| && Matches(sent[j], r)
  }

  ghost predicate AcceptedRight(sys: System) {
    && (forall i :: 0 <= i < |sys.accepted| ==>
          RecordRight(sys.origins, sys.accepted[i]) && WasSent(sys.sent, sys.accepted[i]))
    && (forall i, j :: 0 <= i < j < |sys.accepted| && sys.accepted[i].our == sys.accepted[j].our ==>
          sys.accepted[i].nonce != sys.accepted[j].nonce)
  }

  /** The nonces accepted under the key `our`. */
  ghost function NoncesUnder(accepted: seq<Record>, our: Key): set<nat> {
    set i | 0 <= i < |accepted| && accepted[i].our == our :: accepted[i].nonce
  }

  /** The replay window stands for what was accepted under the present key. */
  ghost predicate WindowRight(sys: System, side: Side) {
    sys.Of(side).ourTemp != ZERO ==>
      RP.Represents(sys.Of(side).replay, NoncesUnder(sys.accepted, sys.Of(side).ourTemp))
  }

  ghost predicate Invariant(sys: System) {
    && Paired(sys)
    && KeysRight(sys, A) && KeysRight(sys, B)
    && NetRight(sys)
    && SentRight(sys)
    && CounterAhead(sys, A) && CounterAhead(sys, B)
    && AcceptedRight(sys)
    && WindowRight(sys, A) && WindowRight(sys, B)
  }

  // ---------------------------------------------------------------- sending keeps it

  /** What encryption does to the temporary keys and the counter, whatever branch it takes. */
  lemma EncryptFacts(s: Session, now: nat, newTemp: Key, payload: nat)
    requires Sound(s) && now < U64 && newTemp != ZERO
    ensures
      var (s', p) := Encrypt(s, now, newTemp, payload);
      && s'.setup == s.setup && !p.Runt? && p.payload == payload
      && (p.Traffic? ==>
            && s'.ourTemp == s.ourTemp != ZERO && s'.herTemp == s.herTemp != ZERO && s'.isInitiator == s.isInitiator
            && s'.replay == s.replay
            && p.nonce == s.nextNonce && s'.nextNonce == s.nextNonce + 1
            && p.boxKey == SharedSecret(s.ourTemp, s.herTemp, None)
            && p.boxNonce == EncryptNonce(p.nonce, s.isInitiator)
            && FIRST_TRAFFIC <= p.nonce < NONCE_LIMIT)
      && (p.Handshake? ==>
            && (s'.ourTemp == newTemp ||
                (s'.ourTemp == s.ourTemp && s'.isInitiator == s.isInitiator && s'.herTemp == s.herTemp))
            && (s'.herTemp == s.herTemp || s'.herTemp == ZERO)
            && (s'.herTemp != ZERO ==> s'.isInitiator == s.isInitiator)
            && s'.replay == RP.Fresh() && !s'.established && s'.ourTemp != ZERO
            && (s'.ourTemp == newTemp || (s'.nextNonce >= s.nextNonce && s'.replay == s.replay))
            && p.nonce < FIRST_TRAFFIC && p.publicKey == s.setup.ourPerm && p.tempKey == s'.ourTemp
            && s'.isInitiator == (p.nonce < KEY)
            && (s'.isInitiator <==> s'.herTemp == ZERO)
            && p.boxKey == SharedSecret(
                 s.setup.ourPerm, if s'.isInitiator then s.setup.herPerm else s'.herTemp, p.auth))
  {
    hide RP.Fresh;
  }

  lemma {:induction false} SendPaired(sys: System, side: Side, now: nat, newTemp: Key, payload: nat)
    requires Invariant(sys) && now < U64 && Unused(sys, newTemp)
    ensures Paired(AfterSend(sys, side, now, newTemp, payload))
  {
    hide Encrypt, KeysRight, NetRight, SentRight, CounterAhead, AcceptedRight, WindowRight, Sound;
    EncryptFacts(sys.Of(side), now, newTemp, payload);
    EncryptSound(sys.Of(side), now, newTemp, payload);
  }

  lemma {:induction false} SendKeys(sys: System, side: Side, now: nat, newTemp: Key, payload: nat)
    requires Invariant(sys) && now < U64 && Unused(sys, newTemp)
    ensures KeysRight(AfterSend(sys, side, now, newTemp, payload), A)
    ensures KeysRight(AfterSend(sys, side, now, newTemp, payload), B)
  {
    hide Encrypt, NetRight, SentRight, CounterAhead, AcceptedRight, WindowRight, Sound;
    EncryptFacts(sys.Of(side), now, newTemp, payload);
  }

  lemma {:induction false} SendNet(sys: System, side: Side, now: nat, newTemp: Key, payload: nat)
    requires Invariant(sys) && now < U64 && Unused(sys, newTemp)
    ensures NetRight(AfterSend(sys, side, now, newTemp, payload))
  {
    hide Encrypt, CounterAhead, AcceptedRight, WindowRight, Sound;
    EncryptFacts(sys.Of(side), now, newTemp, payload);
    EncryptSound(sys.Of(side), now, newTemp, payload);
    var sys' := AfterSend(sys, side, now, newTemp, payload);
    var (s, new_p) := Encrypt(sys.Of(side), now, newTemp, payload);
    forall p | p in sys'.net && p.Handshake? ensures HandshakeRight(sys', p) {
      if p in sys.net { assert HandshakeRight(sys, p); }
    }
    forall p | p in sys'.net && p.Traffic? ensures OnRecord(sys'.sent, p) {
      if p in sys.net {
        var i :| 0 <= i < |sys.sent| && SentAs(sys.sent[i], p);
        assert sys'.sent[i] == sys.sent[i];
      } else {
        assert SentAs(sys'.sent[|sys.sent|], p);
      }
    }
  }

  lemma {:induction false} SendSent(sys: System, side: Side, now: nat, newTemp: Key, payload: nat)
    requires Invariant(sys) && now < U64 && Unused(sys, newTemp)
    ensures SentRight(AfterSend(sys, side, now, newTemp, payload))
    ensures CounterAhead(AfterSend(sys, side, now, newTemp, payload), A)
    ensures CounterAhead(AfterSend(sys, side, now, newTemp, payload), B)
  {
    hide Encrypt, NetRight, AcceptedRight, WindowRight, Sound;
    EncryptFacts(sys.Of(side), now, newTemp, payload);
  }

  lemma {:induction false} SendAccepted(sys: System, side: Side, now: nat, newTemp: Key, payload: nat)
    requires Invariant(sys) && now < U64 && Unused(sys, newTemp)
    ensures AcceptedRight(AfterSend(sys, side, now, newTemp, payload))
    ensures WindowRight(AfterSend(sys, side, now, newTemp, payload), A)
    ensures WindowRight(AfterSend(sys, side, now, newTemp, payload), B)
  {
    hide Encrypt, NetRight, SentRight, CounterAhead, Sound, RP.Represents, RP.Fresh, NoncesUnder;
    EncryptFacts(sys.Of(side), now, newTemp, payload);
    UnusedKey(sys, newTemp);
    var sys' := AfterSend(sys, side, now, newTemp, payload);
    forall i | 0 <= i < |sys'.accepted| ensures WasSent(sys'.sent, sys'.accepted[i]) {
      assert WasSent(sys.sent, sys.accepted[i]);
      var j :| 0 <= j < |sys.sent| && Matches(sys.sent[j], sys.accepted[i]);
      assert sys'.sent[j] == sys.sent[j];
    }
  }

  /** Nothing has been accepted under a key that nobody has made yet. */
  lemma {:induction false} UnusedKey(sys: System, k: Key)
    requires AcceptedRight(sys) && k !in sys.origins
    ensures RP.Represents(RP.Fresh(), NoncesUnder(sys.accepted, k))
  {
    assert NoncesUnder(sys.accepted, k) == {};
  }

  // ---------------------------------------------------------------- receiving keeps it

  /** What a handshake packet may do to a sound session. */
  lemma HandshakeFacts(s: Session, p: Packet, now: nat, junk: int)
    requires Sound(s) && ProperPacket(p) && p.Handshake?
    ensures
      var s' := Decrypt(s, p, now, junk).0;
      && s'.setup == s.setup
      && (s' == s
          // the same keys, a later counter: nothing has come in yet
          || (s'.ourTemp == s.ourTemp && s'.herTemp == s.herTemp && s'.isInitiator == s.isInitiator &&
              s'.nextNonce >= s.nextNonce && s'.replay == s.replay)
          // a hello made us the responder for the key in it
          || (s'.ourTemp == ZERO && s'.herTemp == p.tempKey && !s'.isInitiator &&
              p.publicKey == s.setup.herPerm && p.nonce < KEY)
          // a key packet for our hello gave us the key in it
          || (s'.ourTemp == s.ourTemp != ZERO && s'.herTemp == p.tempKey && s'.isInitiator && s.isInitiator &&
              s'.nextNonce >= s.nextNonce && s'.replay == s.replay &&
              p.publicKey == s.setup.herPerm && p.nonce >= KEY &&
              p.boxKey == SharedSecret(s.ourTemp, s.setup.herPerm, p.auth)))
  {
    hide RP.Check, RP.Fresh;
  }

  lemma RuntFacts(s: Session, now: nat, junk: int)
    ensures Decrypt(s, Runt, now, junk).0 == s
  {}

  /** What a traffic packet may do. */
  lemma TrafficFacts(s: Session, p: Packet, now: nat, junk: int)
    requires Sound(s) && ProperPacket(p) && p.Traffic? && !Wraps(s, p)
    ensures
      var (s', outcome) := Decrypt(s, p, now, junk);
      && s'.setup == s.setup && s'.ourTemp == s.ourTemp && s'.herTemp == s.herTemp && s'.isInitiator == s.isInitiator
      && s'.nextNonce >= s.nextNonce
      && (s'.replay == s.replay || s'.replay == RP.Check(s.replay, p.nonce, junk).0)
      && (outcome.Accepted? ==> 
            && outcome.payload == p.payload && s.ourTemp != ZERO && s.herTemp != ZERO
            && p.boxKey == SharedSecret(s.ourTemp, s.herTemp, None)
            && p.boxNonce == DecryptNonce(p.nonce, s.isInitiator)
            && s'.replay == RP.Check(s.replay, p.nonce, junk).0 && RP.Check(s.replay, p.nonce, junk).1)
      && (!outcome.Accepted? && s'.replay != s.replay ==> !RP.Check(s.replay, p.nonce, junk).1)
  {
    hide RP.Check, RP.Fresh;
  }

  lemma {:induction false} ReceivePaired(sys: System, side: Side, p: Packet, now: nat, junk: int)
    requires Invariant(sys) && p in sys.net && !Wraps(sys.Of(side), p)
    ensures Paired(AfterReceive(sys, side, p, now, junk))
  {
    hide Decrypt, KeysRight, SentRight, CounterAhead, AcceptedRight, WindowRight, Sound, Wraps;
    DecryptSound(sys.Of(side), p, now, junk);
    ReceiveSetup(sys.Of(side), p, now, junk);
  }

  lemma ReceiveSetup(s: Session, p: Packet, now: nat, junk: int)
    ensures Decrypt(s, p, now, junk).0.setup == s.setup
  {
    hide RP.Check, RP.Fresh;
  }

  /** Two pairs with the same secret and one key in common have the other in common. */
  lemma SecretDetermines(x: Key, y: Key, z: Key, password: Option<nat>)
    requires SharedSecret(x, y, password) == SharedSecret(z, x, password)
    ensures y == z
  {}

  lemma {:induction false} ReceiveKeys(sys: System, side: Side, p: Packet, now: nat, junk: int)
    requires Invariant(sys) && p in sys.net && !Wraps(sys.Of(side), p)
    ensures KeysRight(AfterReceive(sys, side, p, now, junk), A) && KeysRight(AfterReceive(sys, side, p, now, junk), B)
  {
    hide Decrypt, SentRight, CounterAhead, AcceptedRight, WindowRight, Sound, SharedSecret, OnRecord;
    var s := sys.Of(side);
    RuntFacts(s, now, junk);
    if p.Traffic? { TrafficFacts(s, p, now, junk); }
    if p.Handshake? {
      HandshakeFacts(s, p, now, junk);
      var o := sys.origins[p.tempKey];
      if o.side == side.Other() && !o.initiator && p.boxKey == SharedSecret(s.ourTemp, s.setup.herPerm, p.auth) {
        SecretDetermines(s.setup.herPerm, o.answers, s.ourTemp, p.auth);
      }
    }
  }

  lemma {:induction false} ReceiveNet(sys: System, side: Side, p: Packet, now: nat, junk: int)
    requires Invariant(sys)
    ensures NetRight(AfterReceive(sys, side, p, now, junk)) && SentRight(AfterReceive(sys, side, p, now, junk))
  {
    hide Decrypt, KeysRight, CounterAhead, AcceptedRight, WindowRight, Sound, Paired;
    ReceiveSetup(sys.Of(side), p, now, junk);
    var sys' := AfterReceive(sys, side, p, now, junk);
    forall q | q in sys'.net && q.Handshake? ensures HandshakeRight(sys', q) { assert HandshakeRight(sys, q); }
  }

  lemma {:induction false} ReceiveCounter(sys: System, side: Side, p: Packet, now: nat, junk: int)
    requires Invariant(sys) && p in sys.net && !Wraps(sys.Of(side), p)
    ensures CounterAhead(AfterReceive(sys, side, p, now, junk), A)
    ensures CounterAhead(AfterReceive(sys, side, p, now, junk), B)
  {
    hide Decrypt, KeysRight, AcceptedRight, WindowRight, Sound, HandshakeRight, OnRecord;
    var s := sys.Of(side);
    RuntFacts(s, now, junk);
    if p.Traffic? { TrafficFacts(s, p, now, junk); }
    if p.Handshake? { HandshakeFacts(s, p, now, junk); }
  }

  /** A traffic packet that opens was sent by the peer under the same two keys, in the opposite
      role: nobody accepts what he sent himself, and nothing crosses between two pairs of keys. */
  lemma {:induction false} OpensMeansSent(sys: System, side: Side, p: Packet)
    requires Invariant(sys) && p in sys.net && p.Traffic?
    requires var s := sys.Of(side);
      s.ourTemp != ZERO && s.herTemp != ZERO && p.boxKey == SharedSecret(s.ourTemp, s.herTemp, None) &&
      p.boxNonce == DecryptNonce(p.nonce, s.isInitiator)
    ensures WasSent(sys.sent, RecordOf(side, sys.Of(side), p))
    ensures RecordRight(sys.origins, RecordOf(side, sys.Of(side), p))
  {
    hide Invariant, SentAs, RecordRight;
    var i := RecordFor(sys, p);
    OpensRecord(sys, side, p, i);
  }

  lemma RecordFor(sys: System, p: Packet) returns (i: nat)
    requires Invariant(sys) && p in sys.net && p.Traffic?
    ensures i < |sys.sent| && SentAs(sys.sent[i], p)
  {
    i :| 0 <= i < |sys.sent| && SentAs(sys.sent[i], p);
  }

  /** Every record of sending that a packet can be of is then of the peer. */
  lemma {:induction false} OpensRecord(sys: System, side: Side, p: Packet, i: nat)
    requires Invariant(sys) && p.Traffic? && i < |sys.sent| && SentAs(sys.sent[i], p)
    requires var s := sys.Of(side);
      s.ourTemp != ZERO && s.herTemp != ZERO && p.boxKey == SharedSecret(s.ourTemp, s.herTemp, None) &&
      p.boxNonce == DecryptNonce(p.nonce, s.isInitiator)
    ensures Matches(sys.sent[i], RecordOf(side, sys.Of(side), p))
    ensures RecordRight(sys.origins, RecordOf(side, sys.Of(side), p))
  {
    hide CounterAhead, AcceptedRight, WindowRight, Sound, HandshakeRight, NetRight;
    assert RecordRight(sys.origins, sys.sent[i]);
  }

  lemma {:induction false} NoncesGrow(accepted: seq<Record>, r: Record, our: Key)
    ensures NoncesUnder(accepted + [r], our) ==
            if r.our == our then NoncesUnder(accepted, our) + {r.nonce} else NoncesUnder(accepted, our)
    ensures forall i :: 0 <= i < |accepted| && accepted[i].our == our ==>
      accepted[i].nonce in NoncesUnder(accepted, our)
  {
    var all := accepted + [r];
    forall n | n in NoncesUnder(accepted, our) ensures n in NoncesUnder(all, our) {
      var i :| 0 <= i < |accepted| && accepted[i].our == our && accepted[i].nonce == n;
      assert all[i].our == our;
    }
    if r.our == our { assert all[|accepted|].our == our; }
  }

  /** The two sides never hold the same temporary key. */
  lemma {:induction false} KeysApart(sys: System, side: Side)
    requires Invariant(sys)
    ensures sys.Of(side).ourTemp != ZERO ==> sys.Of(side).ourTemp != sys.Of(side.Other()).ourTemp
  {
    hide NetRight, SentRight, CounterAhead, AcceptedRight, WindowRight, Sound;
  }

  lemma {:induction false} ReceiveWindow(sys: System, side: Side, p: Packet, now: nat, junk: int)
    requires Invariant(sys) && p in sys.net && !Wraps(sys.Of(side), p)
    ensures WindowRight(AfterReceive(sys, side, p, now, junk), side)
    ensures WindowRight(AfterReceive(sys, side, p, now, junk), side.Other())
  {
    hide Decrypt, CounterAhead, Sound, HandshakeRight, OnRecord, RP.Represents, RP.Check, NoncesUnder;
    hide WasSent, SentRight, KeysRight, AcceptedRight;
    var s := sys.Of(side);
    RuntFacts(s, now, junk);
    KeysApart(sys, side);
    if p.Handshake? { HandshakeFacts(s, p, now, junk); }
    if p.Traffic? {
      TrafficFacts(s, p, now, junk);
      var r := RecordOf(side, s, p);
      NoncesGrow(sys.accepted, r, s.ourTemp);
      NoncesGrow(sys.accepted, r, sys.Of(side.Other()).ourTemp);
      if s.ourTemp != ZERO { RP.CheckRefinesSet(s.replay, NoncesUnder(sys.accepted, s.ourTemp), p.nonce, junk); }
    }
  }

  lemma {:induction false} ReceiveAccepted(sys: System, side: Side, p: Packet, now: nat, junk: int)
    requires Invariant(sys) && p in sys.net && !Wraps(sys.Of(side), p)
    ensures AcceptedRight(AfterReceive(sys, side, p, now, junk))
  {
    hide Decrypt, CounterAhead, Sound, HandshakeRight, OnRecord, RP.Represents, RP.Check, NoncesUnder;
    hide WasSent, SentRight, KeysRight, RecordRight;
    var s := sys.Of(side);
    if p.Traffic? && Decrypt(s, p, now, junk).1.Accepted? {
      TrafficFacts(s, p, now, junk);
      OpensMeansSent(sys, side, p);
      NoncesGrow(sys.accepted, RecordOf(side, s, p), s.ourTemp);
      RP.CheckRefinesSet(s.replay, NoncesUnder(sys.accepted, s.ourTemp), p.nonce, junk);
    }
  }

  // ---------------------------------------------------------------- every run

  /** A session that forgets its keys (or does nothing) breaks nothing. */
  lemma {:induction false} ForgetKeeps(sys: System, side: Side, s: Session)
    requires Invariant(sys) && Sound(s)
    requires s.setup.ourPerm == sys.Of(side).setup.ourPerm && s.setup.herPerm == sys.Of(side).setup.herPerm
    requires s.ourTemp == ZERO && s.herTemp == ZERO
    ensures Invariant(sys.With(side, s))
  {
    hide Sound;
    var sys' := sys.With(side, s);
    forall q | q in sys'.net && q.Handshake? ensures HandshakeRight(sys', q) { assert HandshakeRight(sys, q); }
  }

  lemma {:induction false} SendKeeps(sys: System, side: Side, now: nat, newTemp: Key, payload: nat)
    requires Invariant(sys) && now < U64 && Unused(sys, newTemp)
    ensures Invariant(AfterSend(sys, side, now, newTemp, payload))
  {
    hide AfterSend, Paired, KeysRight, NetRight, SentRight, CounterAhead, AcceptedRight, WindowRight, Unused;
    SendPaired(sys, side, now, newTemp, payload);
    SendKeys(sys, side, now, newTemp, payload);
    SendNet(sys, side, now, newTemp, payload);
    SendSent(sys, side, now, newTemp, payload);
    SendAccepted(sys, side, now, newTemp, payload);
  }

  lemma {:induction false} ReceiveKeeps(sys: System, side: Side, p: Packet, now: nat, junk: int)
    requires Invariant(sys) && p in sys.net && !Wraps(sys.Of(side), p)
    ensures Invariant(AfterReceive(sys, side, p, now, junk))
  {
    hide AfterReceive, Paired, KeysRight, NetRight, SentRight, CounterAhead, AcceptedRight, WindowRight;
    ReceivePaired(sys, side, p, now, junk);
    ReceiveKeys(sys, side, p, now, junk);
    ReceiveNet(sys, side, p, now, junk);
    ReceiveCounter(sys, side, p, now, junk);
    ReceiveWindow(sys, side, p, now, junk);
    ReceiveAccepted(sys, side, p, now, junk);
  }

  lemma {:induction false} StepKeeps(sys: System, step: Step)
    requires Invariant(sys) && Enabled(sys, step)
    ensures Invariant(Next(sys, step))
  {
    match step
    case Send(side, now, newTemp, payload) => SendKeeps(sys, side, now, newTemp, payload);
    case Receive(side, packet, now, junk) => ReceiveKeeps(sys, side, packet, now, junk);
    case Timeout(side, now) =>
      if TimedOut(sys.Of(side), now) { ForgetKeeps(sys, side, AfterTimeout(sys.Of(side), now)); }
      else { assert sys.With(side, sys.Of(side)) == sys; }
    case Reset(side, password) =>
      var s := sys.Of(side);
      ForgetKeeps(sys, side, Cleared(s.(setup := s.setup.(password := password))));
  }

  lemma InitialInvariant(sys: System)
    requires Initial(sys)
    ensures Invariant(sys)
  {}

  ghost predicate IsRun(states: seq<System>, steps: seq<Step>) {
    && |states| == |steps| + 1
    && Initial(states[0])
    && forall i :: 0 <= i < |steps| ==> Enabled(states[i], steps[i]) && states[i + 1] == Next(states[i], steps[i])
  }

  /** Safety over whole runs: the invariant holds in every state of every run. */
  lemma {:induction false} AlwaysInvariant(states: seq<System>, steps: seq<Step>, k: nat)
    requires IsRun(states, steps) && k < |states|
    ensures Invariant(states[k])
  {
    hide Initial, Invariant, Next;
    if k == 0 {
      InitialInvariant(states[0]);
    } else {
      AlwaysInvariant(states, steps, k - 1);
      StepKeeps(states[k - 1], steps[k - 1]);
      assert states[k - 1 + 1] == Next(states[k - 1], steps[k - 1]);
    }
  }

  /** Agreement: whatever a side has accepted, the peer has sent, with that counter and content,
      under the same pair of temporary keys and in the opposite role. */
  lemma {:induction false} Agreement(states: seq<System>, steps: seq<Step>, k: nat, i: nat)
    requires IsRun(states, steps) && k < |states| && i < |states[k].accepted|
    ensures WasSent(states[k].sent, states[k].accepted[i])
  {
    AlwaysInvariant(states, steps, k);
  }

  /** Nonces never repeat: no two traffic packets of a run, of either side and through all resets
      and renegotiations, are encrypted with the same secret and the same nonce; and every traffic
      counter lies in [4, 0xfffffff0). */
  lemma {:induction false} NoncesNeverRepeat(states: seq<System>, steps: seq<Step>, k: nat, i: nat, j: nat)
    requires IsRun(states, steps) && k < |states| && i < j < |states[k].sent|
    ensures var r, t := states[k].sent[i], states[k].sent[j];
      SharedSecret(r.our, r.her, None) != SharedSecret(t.our, t.her, None) ||
      EncryptNonce(r.nonce, r.initiator) != EncryptNonce(t.nonce, t.initiator)
    ensures states[k].sent[i].our == states[k].sent[j].our ==> states[k].sent[i].nonce != states[k].sent[j].nonce
    ensures FIRST_TRAFFIC <= states[k].sent[i].nonce < NONCE_LIMIT
    ensures FIRST_TRAFFIC <= states[k].sent[j].nonce < NONCE_LIMIT
  {
    AlwaysInvariant(states, steps, k);
    var sys := states[k];
    assert RecordRight(sys.origins, sys.sent[i]) && RecordRight(sys.origins, sys.sent[j]);
  }

  /** At most once: two deliveries never go back to one packet sent. */
  lemma {:induction false} DeliveredAtMostOnce(states: seq<System>, steps: seq<Step>, k: nat, i: nat, j: nat, m: nat)
    requires IsRun(states, steps) && k < |states| && i < j < |states[k].accepted| && m < |states[k].sent|
    ensures !(Matches(states[k].sent[m], states[k].accepted[i]) && Matches(states[k].sent[m], states[k].accepted[j]))
  {
    AlwaysInvariant(states, steps, k);
  }

  // ---------------------------------------------------------------- where messages come from

  /** The packet that a Send step makes. */
  ghost predicate MadeBy(sys: System, step: Step, p: Packet) {
    && step.Send? && step.now < U64
    && p == Encrypt(sys.Of(step.side), step.now, step.newTemp, step.payload).1
  }

  /** Whatever is on the network, some Send step of the run has made. */
  lemma {:induction false} PacketMade(states: seq<System>, steps: seq<Step>, k: nat, p: Packet) returns (m: nat)
    requires IsRun(states, steps) && k < |states| && p in states[k].net
    ensures m < k && steps[m].Send? && MadeBy(states[m], steps[m], p)
  {
    hide Encrypt, Decrypt, Unused, Wraps;
    assert k > 0;
    assert states[k - 1 + 1] == Next(states[k - 1], steps[k - 1]) && Enabled(states[k - 1], steps[k - 1]);
    if p in states[k - 1].net { m := PacketMade(states, steps, k - 1, p); } else { m := k - 1; }
  }

  lemma {:induction false} SetupKept(states: seq<System>, steps: seq<Step>, m: nat, k: nat, side: Side)
    requires IsRun(states, steps) && m <= k < |states|
    ensures states[k].Of(side).setup.ourPerm == states[m].Of(side).setup.ourPerm
    ensures states[k].Of(side).setup.herPerm == states[m].Of(side).setup.herPerm
    ensures states[k].Of(side).setup.users == states[m].Of(side).setup.users
    ensures states[k].Of(side).setup.requireAuth == states[m].Of(side).setup.requireAuth
  {
    hide Encrypt, Decrypt, Unused, Wraps, Invariant;
    if m < k {
      SetupKept(states, steps, m, k - 1, side);
      var sys, step := states[k - 1], steps[k - 1];
      assert states[k - 1 + 1] == Next(sys, step) && Enabled(sys, step);
      AlwaysInvariant(states, steps, k - 1);
      StepSetup(sys, step, side);
    }
  }

  lemma StepSetup(sys: System, step: Step, side: Side)
    requires Invariant(sys) && Enabled(sys, step)
    ensures var s, t := sys.Of(side).setup, Next(sys, step).Of(side).setup; t == s.(password := t.password)
  {
    hide Encrypt, Decrypt, KeysRight, NetRight, SentRight, CounterAhead, AcceptedRight, WindowRight, Sound;
    match step
    case Send(from, now, newTemp, payload) => EncryptFacts(sys.Of(from), now, newTemp, payload);
    case Receive(to, p, now, junk) => ReceiveSetup(sys.Of(to), p, now, junk);
    case Timeout(_, _) =>
    case Reset(_, _) =>
  }

  lemma {:induction false} SentKept(states: seq<System>, steps: seq<Step>, m: nat, k: nat, j: nat)
    requires IsRun(states, steps) && m <= k < |states| && j < |states[m].sent|
    ensures j < |states[k].sent| && states[k].sent[j] == states[m].sent[j]
  {
    hide Next, Enabled;
    if m < k {
      SentKept(states, steps, m, k - 1, j);
      StepEnabled(states, steps, k - 1);
      SentStays(states[k - 1], steps[k - 1], j);
    }
  }

  lemma StepEnabled(states: seq<System>, steps: seq<Step>, m: nat)
    requires IsRun(states, steps) && m < |steps|
    ensures Enabled(states[m], steps[m])
    ensures steps[m].Send? || steps[m].Timeout? ==> steps[m].now < U64
    ensures states[m + 1] == Next(states[m], steps[m])
  {}

  /** What a Send step leaves on record. */
  lemma SentRecord(sys: System, step: Step, p: Packet)
    requires Invariant(sys) && Enabled(sys, step) && MadeBy(sys, step, p) && p.Traffic?
    ensures var sent := Next(sys, step).sent;
      |sent| == |sys.sent| + 1 && sent[|sys.sent|].side == step.side && SentAs(sent[|sys.sent|], p) &&
      p.payload == step.payload
  {
    hide KeysRight, NetRight, SentRight, CounterAhead, AcceptedRight, WindowRight, Encrypt, Sound;
    EncryptFacts(sys.Of(step.side), step.now, step.newTemp, step.payload);
  }

  /** Every packet carries the message that its Send step was given. */
  lemma MadePayload(sys: System, step: Step, p: Packet)
    requires Invariant(sys) && MadeBy(sys, step, p) && Enabled(sys, step)
    ensures !p.Runt? && p.payload == step.payload
    ensures p.Handshake? ==> p.publicKey == Perm(sys, step.side)
  {
    hide KeysRight, NetRight, SentRight, CounterAhead, AcceptedRight, WindowRight, Encrypt, Sound;
    EncryptFacts(sys.Of(step.side), step.now, step.newTemp, step.payload);
  }

  /** Nothing is made up and nothing is lost on the way: whatever message a side hands on, in the
      handshake or after it, the peer was given to send, in an earlier step of the run. */
  lemma {:induction false} DeliveredWasSent(states: seq<System>, steps: seq<Step>, k: nat) returns (m: nat)
    requires IsRun(states, steps) && k < |steps| && steps[k].Receive?
    requires Decrypt(states[k].Of(steps[k].side), steps[k].packet, steps[k].now, steps[k].junk).1.Accepted?
    ensures m < k && steps[m].Send? && steps[m].side == steps[k].side.Other()
    ensures Decrypt(states[k].Of(steps[k].side), steps[k].packet, steps[k].now, steps[k].junk).1 ==
            Accepted(steps[m].payload)
  {
    hide Decrypt, Encrypt, Next, Invariant, MadeBy, SentAs, Under;
    var sys, side, p := states[k], steps[k].side, steps[k].packet;
    var s := sys.Of(side);
    AlwaysInvariant(states, steps, k);
    StepEnabled(states, steps, k);
    assert p in sys.net;
    m := PacketMade(states, steps, k, p);
    AlwaysInvariant(states, steps, m);
    StepEnabled(states, steps, m);
    MadePayload(states[m], steps[m], p);
    ReceivedProper(sys, side, p);
    if p.Handshake? {
      HandshakeAccepted(s, p, steps[k].now, steps[k].junk);
      SetupKept(states, steps, m, k, steps[m].side);
    } else {
      TrafficExact(s, p, steps[k].now, steps[k].junk);
      SentRecord(states[m], steps[m], p);
      SentKept(states, steps, m + 1, k, |states[m].sent|);
      OpensRecord(sys, side, p, |states[m].sent|);
    }
  }

  lemma ReceivedProper(sys: System, side: Side, p: Packet)
    requires Invariant(sys) && p in sys.net
    ensures Sound(sys.Of(side)) && ProperPacket(p)
    ensures SetUp(sys.Of(side)) ==> sys.Of(side).ourTemp != ZERO && sys.Of(side).herTemp != ZERO
    ensures sys.Of(side).setup.herPerm == Perm(sys, side.Other()) != Perm(sys, side)
  {}

  /** So for every accepted record there is an earlier Send step of the peer with its message. */
  lemma {:induction false} AcceptedWasSent(states: seq<System>, steps: seq<Step>, k: nat, i: nat) returns (m: nat)
    requires IsRun(states, steps) && k < |states| && i < |states[k].accepted|
    ensures m < k && steps[m].Send? && steps[m].side == states[k].accepted[i].side.Other()
    ensures steps[m].payload == states[k].accepted[i].payload
  {
    hide Decrypt, Encrypt, Invariant, Unused, Wraps;
    assert k > 0;
    var before, step := states[k - 1], steps[k - 1];
    assert states[k - 1 + 1] == Next(before, step);
    if i < |before.accepted| {
      m := AcceptedWasSent(states, steps, k - 1, i);
    } else {
      assert step.Receive?;
      m := DeliveredWasSent(states, steps, k - 1);
      AlwaysInvariant(states, steps, k - 1);
      StepEnabled(states, steps, k - 1);
      ReceivedProper(before, step.side, step.packet);
      TrafficExact(before.Of(step.side), step.packet, step.now, step.junk);
    }
  }

  // ---------------------------------------------------------------- who is let in

  /** The peer's present key came in a packet that showed a password which the session recognises
      and allows to this peer, or none where none is required. */
  ghost predicate ShownFor(net: set<Packet>, s: Session) {
    exists p :: p in net && p.Handshake? && p.tempKey == s.herTemp && p.publicKey == s.setup.herPerm &&
                Welcome(s, p.auth)
  }

  ghost predicate LetInRight(sys: System, side: Side) {
    sys.Of(side).herTemp != ZERO ==> ShownFor(sys.net, sys.Of(side))
  }

  lemma ShownStill(net: set<Packet>, net': set<Packet>, s: Session, t: Session)
    requires ShownFor(net, s) && net <= net' && t.herTemp == s.herTemp
    requires t.setup == s.setup.(password := t.setup.password)
    ensures ShownFor(net', t)
  {
    var p :| p in net && p.Handshake? && p.tempKey == s.herTemp && p.publicKey == s.setup.herPerm && Welcome(s, p.auth);
    assert p in net' && Welcome(t, p.auth);
  }

  /** A session only ever takes over the key of a packet that it lets in. */
  lemma {:induction false} TakesShownKey(s: Session, p: Packet, now: nat, junk: int)
    requires Sound(s) && ProperPacket(p) && !Wraps(s, p)
    ensures var t := Decrypt(s, p, now, junk).0;
      t.herTemp == s.herTemp ||
      (p.Handshake? && t.herTemp == p.tempKey && p.publicKey == s.setup.herPerm && Welcome(s, p.auth))
  {
    hide Decrypt;
    match p
    case Runt => RuntExact(s, now, junk);
    case Handshake(_, _, _, _, _, _) =>
      HandshakeAccepted(s, p, now, junk);
      HandshakeRefused(s, p, now, junk);
      DecryptSound(s, p, now, junk);
      if Decrypt(s, p, now, junk).1.Accepted? {
        if p.nonce < KEY { HelloEffect(s, p, now, junk); } else { KeyEffect(s, p, now, junk); }
      }
    case Traffic(_, _, _, _) => TrafficExact(s, p, now, junk);
  }

  lemma {:induction false} LetInKept(sys: System, step: Step, side: Side)
    requires Invariant(sys) && Enabled(sys, step) && LetInRight(sys, side)
    ensures LetInRight(Next(sys, step), side)
  {
    hide Encrypt, Decrypt, KeysRight, SentRight, CounterAhead, AcceptedRight, WindowRight, Wraps, ShownFor, Sound;
    hide HandshakeRight, OnRecord;
    var s, sys' := sys.Of(side), Next(sys, step);
    StepSetup(sys, step, side);
    match step {
      case Send(from, now, newTemp, payload) => EncryptFacts(sys.Of(from), now, newTemp, payload);
      case Receive(to, p, now, junk) =>
        TakesShownKey(sys.Of(to), p, now, junk);
        if to == side && sys'.Of(side).herTemp != s.herTemp { ShownNow(sys.net, p, s, sys'.Of(side)); }
      case Timeout(_, _) =>
      case Reset(_, _) =>
    }
    if sys'.Of(side).herTemp == s.herTemp != ZERO { ShownStill(sys.net, sys'.net, s, sys'.Of(side)); }
  }

  lemma ShownNow(net: set<Packet>, p: Packet, s: Session, t: Session)
    requires p in net && p.Handshake? && t.herTemp == p.tempKey && p.publicKey == s.setup.herPerm && Welcome(s, p.auth)
    requires t.setup == s.setup.(password := t.setup.password)
    ensures ShownFor(net, t)
  {
    assert Welcome(t, p.auth);
  }

  /** In every state of every run: where authentication is required, a session that has a key of its
      peer has been sent that key, by the peer, with a password that it recognises and that is
      meant for this peer. */
  lemma {:induction false} AuthenticationShown(states: seq<System>, steps: seq<Step>, k: nat, side: Side)
    requires IsRun(states, steps) && k < |states| && states[k].Of(side).herTemp != ZERO
    ensures LetInRight(states[k], side)
    ensures states[k].Of(side).setup.requireAuth ==>
      var s := states[k].Of(side);
      exists p :: p in states[k].net && p.Handshake? && p.tempKey == s.herTemp && p.publicKey == s.setup.herPerm &&
                  p.auth.Some? && p.auth.value in s.setup.users && s.setup.users[p.auth.value]
  {
    AlwaysLetInRight(states, steps, k, side);
    var s := states[k].Of(side);
    var p :| p in states[k].net && p.Handshake? && p.tempKey == s.herTemp && p.publicKey == s.setup.herPerm &&
             Welcome(s, p.auth);
  }

  lemma {:induction false} AlwaysLetInRight(states: seq<System>, steps: seq<Step>, k: nat, side: Side)
    requires IsRun(states, steps) && k < |states|
    ensures LetInRight(states[k], side)
  {
    hide Invariant, Next, LetInRight;
    if k == 0 {
      NobodyLetIn(states[0], side);
    } else {
      AlwaysLetInRight(states, steps, k - 1, side);
      AlwaysInvariant(states, steps, k - 1);
      LetInKept(states[k - 1], steps[k - 1], side);
      assert states[k - 1 + 1] == Next(states[k - 1], steps[k - 1]);
    }
  }

  lemma NobodyLetIn(sys: System, side: Side)
    requires Initial(sys)
    ensures LetInRight(sys, side)
  {}

  // ---------------------------------------------------------------- what "established" means

  /** `r` was sent or accepted by `side` with the keys and in the role that the session has. */
  ghost predicate Under(r: Record, side: Side, s: Session) {
    r.side == side && r.our == s.ourTemp && r.her == s.herTemp && r.initiator == s.isInitiator
  }

  ghost predicate SomeUnder(records: seq<Record>, side: Side, s: Session) {
    exists i :: 0 <= i < |records| && Under(records[i], side, s)
  }

  /** An established session has accepted traffic under its present keys. */
  ghost predicate EstablishedRight(sys: System, side: Side) {
    sys.Of(side).established ==> SomeUnder(sys.accepted, side, sys.Of(side))
  }

  predicate SameKeys(s: Session, s': Session) {
    s'.ourTemp == s.ourTemp && s'.herTemp == s.herTemp && s'.isInitiator == s.isInitiator
  }

  lemma EncryptEstablished(s: Session, now: nat, newTemp: Key, payload: nat)
    requires Sound(s) && now < U64
    ensures var s' := Encrypt(s, now, newTemp, payload).0; s'.established ==> s.established && SameKeys(s, s')
  {
    hide RP.Fresh;
  }

  lemma DecryptEstablished(s: Session, p: Packet, now: nat, junk: int)
    requires Sound(s) && ProperPacket(p)
    ensures var (s', outcome) := Decrypt(s, p, now, junk);
      s'.established ==> SameKeys(s, s') && (s.established || (p.Traffic? && outcome.Accepted?))
  {
    hide RP.Check, RP.Fresh;
  }

  lemma SomeUnderSame(records: seq<Record>, more: seq<Record>, side: Side, s: Session, s': Session)
    requires SomeUnder(records, side, s) && SameKeys(s, s')
    ensures SomeUnder(records + more, side, s')
  {
    var i :| 0 <= i < |records| && Under(records[i], side, s);
    assert Under((records + more)[i], side, s');
  }

  lemma {:induction false} EstablishedKept(sys: System, step: Step, side: Side)
    requires Invariant(sys) && Enabled(sys, step) && EstablishedRight(sys, side)
    ensures EstablishedRight(Next(sys, step), side)
  {
    hide Encrypt, Decrypt, KeysRight, SentRight, CounterAhead, AcceptedRight, WindowRight, Wraps, SomeUnder, Sound;
    hide HandshakeRight, OnRecord;
    var s, sys' := sys.Of(side), Next(sys, step);
    match step {
      case Send(_, now, newTemp, payload) => EncryptEstablished(s, now, newTemp, payload);
      case Receive(to, p, now, junk) =>
        DecryptEstablished(s, p, now, junk);
        if to == side && p.Traffic? && Decrypt(s, p, now, junk).1.Accepted? && sys'.Of(side).established {
          assert Under(RecordOf(side, s, p), side, s);
          NewUnder(sys.accepted, RecordOf(side, s, p), side, s, sys'.Of(side));
        }
      case Timeout(_, _) =>
      case Reset(_, _) =>
    }
    if sys'.Of(side).established && s.established && SameKeys(s, sys'.Of(side)) {
      var more := sys'.accepted[|sys.accepted|..];
      assert sys'.accepted == sys.accepted + more;
      SomeUnderSame(sys.accepted, more, side, s, sys'.Of(side));
    }
  }

  lemma NewUnder(records: seq<Record>, r: Record, side: Side, s: Session, s': Session)
    requires Under(r, side, s) && SameKeys(s, s')
    ensures SomeUnder(records + [r], side, s')
  {
    assert Under((records + [r])[|records|], side, s');
  }

  lemma {:induction false} AlwaysEstablishedRight(states: seq<System>, steps: seq<Step>, k: nat, side: Side)
    requires IsRun(states, steps) && k < |states|
    ensures EstablishedRight(states[k], side)
  {
    hide Invariant, Next, EstablishedRight;
    if k == 0 {
      NotEstablished(states[0], side);
    } else {
      AlwaysEstablishedRight(states, steps, k - 1, side);
      AlwaysInvariant(states, steps, k - 1);
      EstablishedKept(states[k - 1], steps[k - 1], side);
      assert states[k - 1 + 1] == Next(states[k - 1], steps[k - 1]);
    }
  }

  lemma NotEstablished(sys: System, side: Side)
    requires Initial(sys)
    ensures EstablishedRight(sys, side)
  {}

  /** Whoever sent a traffic packet held, in some state of the run so far, the keys of its record. */
  lemma {:induction false} SenderHeldKeys(states: seq<System>, steps: seq<Step>, k: nat, j: nat)
    requires IsRun(states, steps) && k < |states| && j < |states[k].sent|
    ensures var r := states[k].sent[j]; exists m :: 0 <= m <= k && Under(r, r.side, states[m].Of(r.side))
  {
    hide Encrypt, Decrypt, Invariant;
    if k > 0 {
      var step, before := steps[k - 1], states[k - 1];
      assert states[k - 1 + 1] == Next(before, step);
      assert Enabled(before, step);
      if j < |before.sent| {
        SenderHeldKeys(states, steps, k - 1, j);
        SentStays(before, step, j);
      } else {
        SentNow(before, step, j);
      }
    }
  }

  lemma SentStays(sys: System, step: Step, j: nat)
    requires Enabled(sys, step) && j < |sys.sent|
    ensures j < |Next(sys, step).sent| && Next(sys, step).sent[j] == sys.sent[j]
  {
    hide Encrypt, Decrypt, Unused, Wraps;
  }

  lemma SentNow(sys: System, step: Step, j: nat)
    requires Enabled(sys, step) && |sys.sent| <= j < |Next(sys, step).sent|
    ensures var r := Next(sys, step).sent[j]; Under(r, r.side, Next(sys, step).Of(r.side))
  {
    hide Encrypt, Decrypt, Unused, Wraps;
  }

  /** What being established means, in every state of every run: the session has accepted traffic
      under its present keys, the peer sent that traffic, and when it did it held the mirror image
      of these keys, in the opposite role and with the same secret. */
  lemma {:induction false} EstablishedAgreement(states: seq<System>, steps: seq<Step>, k: nat, side: Side)
    returns (i: nat, m: nat)
    requires IsRun(states, steps) && k < |states| && states[k].Of(side).established
    ensures i < |states[k].accepted| && Under(states[k].accepted[i], side, states[k].Of(side))
    ensures WasSent(states[k].sent, states[k].accepted[i])
    ensures m <= k
    ensures var s, t := states[k].Of(side), states[m].Of(side.Other());
      && t.ourTemp == s.herTemp && t.herTemp == s.ourTemp && t.isInitiator == !s.isInitiator
      && SharedSecret(t.ourTemp, t.herTemp, None) == s.secret
  {
    hide Invariant, IsRun;
    AlwaysEstablishedRight(states, steps, k, side);
    i :| 0 <= i < |states[k].accepted| && Under(states[k].accepted[i], side, states[k].Of(side));
    Agreement(states, steps, k, i);
    var j :| 0 <= j < |states[k].sent| && Matches(states[k].sent[j], states[k].accepted[i]);
    SenderHeldKeys(states, steps, k, j);
    m :| 0 <= m <= k && Under(states[k].sent[j], states[k].sent[j].side, states[m].Of(states[k].sent[j].side));
    EstablishedSecret(states, steps, k, side);
  }

  lemma EstablishedSecret(states: seq<System>, steps: seq<Step>, k: nat, side: Side)
    requires IsRun(states, steps) && k < |states| && states[k].Of(side).established
    ensures var s := states[k].Of(side); s.secret == SharedSecret(s.herTemp, s.ourTemp, None)
  {
    hide NetRight, SentRight, CounterAhead, AcceptedRight, WindowRight, KeysRight;
    AlwaysInvariant(states, steps, k);
  }

  /** One secret: when an initiator knows the key that the peer is using, the peer knows the
      initiator's key, and what either encrypts the other can open. */
  lemma {:induction false} OneSecret(states: seq<System>, steps: seq<Step>, k: nat, side: Side)
    requires IsRun(states, steps) && k < |states|
    requires var s := states[k].Of(side);
      s.isInitiator && s.herTemp != ZERO && s.herTemp == states[k].Of(side.Other()).ourTemp
    ensures var s, t := states[k].Of(side), states[k].Of(side.Other());
      && t.herTemp == s.ourTemp && !t.isInitiator
      && SharedSecret(s.ourTemp, s.herTemp, None) == SharedSecret(t.ourTemp, t.herTemp, None)
      && forall n :: EncryptNonce(n, s.isInitiator) == DecryptNonce(n, t.isInitiator)
                  && EncryptNonce(n, t.isInitiator) == DecryptNonce(n, s.isInitiator)
  {
    AlwaysInvariant(states, steps, k);
  }

  /** Whenever a session encrypts or opens traffic, the secret it uses is that of its present pair
      of temporary keys; and in every state of every run, a packet that is received trips an
      assertion or breaks the invariant exactly when it bumps a counter across 2^32. */
  lemma {:induction false} SecretIsCurrent(states: seq<System>, steps: seq<Step>, k: nat, side: Side)
    requires IsRun(states, steps) && k < |states|
    ensures var s := states[k].Of(side);
      && (s.nextNonce > RECEIVED_KEY ==> s.secret == SharedSecret(s.ourTemp, s.herTemp, None))
      && TrafficSecret(s) == SharedSecret(s.ourTemp, s.herTemp, None)
    ensures forall p, now, junk {:trigger Decrypt(states[k].Of(side), p, now, junk)} :: p in states[k].net ==>
      var (s, outcome) := Decrypt(states[k].Of(side), p, now, junk);
      outcome != Stopped && Sound(s) <==> !Wraps(states[k].Of(side), p)
  {
    hide Decrypt, Wraps;
    AlwaysInvariant(states, steps, k);
    forall p, now, junk {:trigger Decrypt(states[k].Of(side), p, now, junk)} | p in states[k].net
      ensures var (s, outcome) := Decrypt(states[k].Of(side), p, now, junk);
        outcome != Stopped && Sound(s) <==> !Wraps(states[k].Of(side), p)
    {
      DecryptSound(states[k].Of(side), p, now, junk);
    }
  }

  // ---------------------------------------------------------------- a run that does wrap

  /** Permanent keys 1 and 2, temporary keys 3 and 4, no passwords. */
  function ExampleSetup(our: Key, her: Key): Setup {
    Setup(our, her, None, map[], false, 10, 60)
  }

  function HelloPacket(): Packet { Handshake(HELLO, 1, None, SharedSecret(1, 2, None), 3, 10) }
  function KeyPacket(nonce: nat): Packet { Handshake(nonce, 2, None, SharedSecret(2, 3, None), 4, 9 + nonce) }

  /** A after its hello and the key packet. */
  function ExampleA(nonce: nat, hers: Key, secret: Secret): Session {
    Session(ExampleSetup(1, 2), nonce, true, false, 3, hers, secret, RP.Fresh(), 0)
  }

  /** B after the hello and perhaps its key packet. */
  function ExampleB(nonce: nat, ours: Key): Session {
    Session(ExampleSetup(2, 1), nonce, false, false, ours, 3, NoSecret, RP.Fresh(), 0)
  }

  function FirstSix(): seq<Step> {
    [Send(A, 0, 3, 10), Receive(B, HelloPacket(), 0, 0), Send(B, 0, 4, 11), Send(B, 0, 5, 12),
     Receive(A, KeyPacket(KEY), 0, 0), Send(A, 0, 5, 13)]
  }

  /** The states of the exchange up to A's first traffic packet. */
  function Exchange(): seq<System> {
    var a0, b0 := New(ExampleSetup(1, 2), 0), New(ExampleSetup(2, 1), 0);
    var a1, a5 := ExampleA(SENT_HELLO, ZERO, NoSecret), ExampleA(RECEIVED_KEY, 4, NoSecret);
    var b2, b3 := ExampleB(RECEIVED_HELLO, ZERO), ExampleB(SENT_KEY, 4);
    var o1: map<Key, Origin> := map[3 := Origin(A, true, ZERO)];
    var o3 := o1[4 := Origin(B, false, 3)];
    var n1, n3 := {HelloPacket()}, {HelloPacket(), KeyPacket(KEY)};
    var n4 := n3 + {KeyPacket(REPEAT_KEY)};
    [System(a0, b0, {}, map[], [], []), System(a1, b0, n1, o1, [], []), System(a1, b2, n1, o1, [], []),
     System(a1, b3, n3, o3, [], []), System(a1, b3, n4, o3, [], []), System(a5, b3, n4, o3, [], []), Repeated(5)]
  }

  function FirstTraffic(): Packet { Traffic(4, SharedSecret(3, 4, None), BoxNonce(0, 4), 13) }
  function Answer(): Packet { Traffic(6, SharedSecret(3, 4, None), BoxNonce(6, 0), 14) }

  /** After the first traffic packet and nonce - 5 repeats of the key packet. */
  function Repeated(nonce: nat): System {
    var secret := SharedSecret(3, 4, None);
    System(ExampleA(nonce, 4, secret), ExampleB(SENT_KEY, 4),
           {HelloPacket(), KeyPacket(KEY), KeyPacket(REPEAT_KEY),
            FirstTraffic()},
           map[3 := Origin(A, true, ZERO), 4 := Origin(B, false, 3)],
           [Record(A, 3, 4, 4, true, 13)], [])
  }

  lemma ExchangeStep(i: nat)
    requires i < 6
    ensures Enabled(Exchange()[i], FirstSix()[i]) && Next(Exchange()[i], FirstSix()[i]) == Exchange()[i + 1]
  {
    hide RP.Fresh, RP.Check;
    if i == 0 {} else if i == 1 {} else if i == 2 {} else if i == 3 {} else if i == 4 {} else {}
  }

  lemma RepeatStep(nonce: nat)
    requires 5 <= nonce < U32
    ensures nonce < U32 - 1 ==> Enabled(Repeated(nonce), Receive(A, KeyPacket(REPEAT_KEY), 0, 0))
    ensures nonce < U32 - 1 ==> Next(Repeated(nonce), Receive(A, KeyPacket(REPEAT_KEY), 0, 0)) == Repeated(nonce + 1)
    ensures nonce == U32 - 1 ==> Decrypt(Repeated(nonce).a, KeyPacket(REPEAT_KEY), 0, 0).1 == Stopped
  {
    hide RP.Fresh, RP.Check;
  }

  lemma {:induction false} RunTo(nonce: nat) returns (states: seq<System>, steps: seq<Step>)
    requires 5 <= nonce < U32
    ensures IsRun(states, steps) && states[|steps|] == Repeated(nonce)
  {
    hide Next, Enabled, Initial, Repeated;
    if nonce == 5 {
      states, steps := Exchange(), FirstSix();
      forall i | 0 <= i < |steps| ensures Enabled(states[i], steps[i]) && states[i + 1] == Next(states[i], steps[i]) {
        ExchangeStep(i);
      }
      ExampleStart();
    } else {
      states, steps := RunTo(nonce - 1);
      RepeatStep(nonce - 1);
      states, steps := states + [Repeated(nonce)], steps + [Receive(A, KeyPacket(REPEAT_KEY), 0, 0)];
    }
  }

  lemma ExampleStart()
    ensures Initial(Exchange()[0])
  {}

  function LastThree(): (r: seq<Step>)
    ensures |r| == 3
  {
    [Receive(B, FirstTraffic(), 0, 0), Send(B, 0, 5, 14), Receive(A, Answer(), 0, 0)]
  }

  /** The same exchange when the traffic is answered. */
  function Talk(): (r: seq<System>)
    ensures |r| == 4 && r[0] == Repeated(5)
  {
    var secret, start := SharedSecret(3, 4, None), Repeated(5);
    var wa, wb := RP.Check(RP.Fresh(), 6, 0).0, RP.Check(RP.Fresh(), 4, 0).0;
    var a := Session(ExampleSetup(1, 2), 8, true, true, 3, 4, secret, wa, 0);
    var b := Session(ExampleSetup(2, 1), 6, false, true, 4, 3, secret, wb, 0);
    var first, second := Record(B, 4, 3, 4, false, 13), Record(A, 3, 4, 6, true, 14);
    var heard := start.(b := b, accepted := [first]);
    var answered := heard.(b := b.(nextNonce := 7), net := start.net + {Answer()},
                           sent := start.sent + [Record(B, 4, 3, 6, false, 14)]);
    [start, heard, answered, answered.(a := a, accepted := [first, second])]
  }

  lemma TalkStep(i: nat)
    requires i < 3
    ensures Enabled(Talk()[i], LastThree()[i]) && Next(Talk()[i], LastThree()[i]) == Talk()[i + 1]
  {
    hide RP.Fresh, RP.Check;
    FreshWindowAccepts(4, 0);
    FreshWindowAccepts(6, 0);
    if i == 0 {} else if i == 1 {} else {}
  }

  /** The purpose of it all is reachable: two new sessions, seven packets, both established, and
      each has handed on the message that the other was given to send. */
  lemma {:induction false} TalkReachable() returns (states: seq<System>, steps: seq<Step>)
    ensures IsRun(states, steps) && states[|steps|].a.established && states[|steps|].b.established
    ensures states[|steps|].accepted == [Record(B, 4, 3, 4, false, 13), Record(A, 3, 4, 6, true, 14)]
  {
    states, steps := RunTo(5);
    hide Next, Enabled, Initial, Exchange, Talk, LastThree;
    forall i: nat | i < 3 { TalkStep(i); }
    RunOn(states, steps, Talk(), LastThree());
    states, steps := states + Talk()[1..], steps + LastThree();
    TalkEnds();
  }

  lemma TalkEnds()
    ensures var sys := Talk()[3];
      sys.a.established && sys.b.established &&
      sys.accepted == [Record(B, 4, 3, 4, false, 13), Record(A, 3, 4, 6, true, 14)]
  {
    hide RP.Fresh, RP.Check;
  }

  lemma RunOn(states: seq<System>, steps: seq<Step>, more: seq<System>, moreSteps: seq<Step>)
    requires IsRun(states, steps) && |more| == |moreSteps| + 1 && more[0] == states[|steps|]
    requires forall i :: 0 <= i < |moreSteps| ==>
      Enabled(more[i], moreSteps[i]) && more[i + 1] == Next(more[i], moreSteps[i])
    ensures IsRun(states + more[1..], steps + moreSteps)
    ensures (states + more[1..])[|steps + moreSteps|] == more[|moreSteps|]
  {
    hide Next, Initial, Unused, Wraps;
    var n := |steps|;
    var allStates, allSteps := states + more[1..], steps + moreSteps;
    forall i | 0 <= i < |allSteps|
      ensures Enabled(allStates[i], allSteps[i]) && allStates[i + 1] == Next(allStates[i], allSteps[i])
    {
      if i >= n {
        assert allStates[i] == more[i - n] && allStates[i + 1] == more[i - n + 1];
        assert allSteps[i] == moreSteps[i - n];
      }
    }
  }

  /** The wrap is reachable: two new sessions, one handshake, one traffic packet, and then the
      network delivers one and the same repeated key packet until the assertion at line 824 fails. */
  lemma {:induction false} WrapReachable() returns (states: seq<System>, steps: seq<Step>, p: Packet)
    ensures IsRun(states, steps) && p in states[|steps|].net
    ensures Decrypt(states[|steps|].a, p, 0, 0).1 == Stopped
  {
    states, steps := RunTo(U32 - 1);
    p := KeyPacket(REPEAT_KEY);
    RepeatStep(U32 - 1);
  }

  // ---------------------------------------------------------------- crossed hellos

  /** The hello, first or repeated, of a session in SENT_HELLO. */
  function HelloOf(s: Session, repeated: bool, payload: nat): Packet {
    Handshake(if repeated then REPEAT_HELLO else HELLO, s.setup.ourPerm, s.setup.password,
              SharedSecret(s.setup.ourPerm, s.setup.herPerm, s.setup.password), s.ourTemp, payload)
  }

  /** Two sessions for each other that have both sent a hello, recognise each other's
      authentication and have not been silent for too long. */
  ghost predicate Crossed(a: Session, b: Session, now: nat) {
    && Sound(a) && Sound(b) && a.nextNonce == SENT_HELLO && b.nextNonce == SENT_HELLO
    && a.setup.ourPerm == b.setup.herPerm && b.setup.ourPerm == a.setup.herPerm
    && Welcome(a, b.setup.password) && Welcome(b, a.setup.password)
    && now < U32
    && 0 < a.setup.setupResetAfter && Silence(a, now) < a.setup.setupResetAfter
    && 0 < b.setup.setupResetAfter && Silence(b, now) < b.setup.setupResetAfter
  }

  /** When hellos cross, the side with the lower permanent key stands firm and the other yields,
      whichever hello arrives first and whether it is repeated or not. */
  lemma LowerKeyWins(a: Session, b: Session, now: nat, junk: int, ra: bool, rb: bool, x: nat)
    requires Crossed(a, b, now) && a.setup.ourPerm < b.setup.ourPerm
    ensures Decrypt(a, HelloOf(b, rb, x), now, junk) == (a, Accepted(x))
    ensures var (b', outcome) := Decrypt(b, HelloOf(a, ra, x), now, junk);
      outcome == Accepted(x) && b'.nextNonce == RECEIVED_HELLO && !b'.isInitiator && b'.herTemp == a.ourTemp &&
      b' == Cleared(b).(herTemp := a.ourTemp, nextNonce := RECEIVED_HELLO)
  {
    hide RP.Check, RP.Fresh;
  }

  /** Then the responder's next packet is the key packet, and the initiator takes it. */
  lemma KeyPacketTaken(a: Session, b: Session, now: nat, newTemp: Key, payload: nat, junk: int)
    requires Crossed(a, b, now) && a.setup.ourPerm < b.setup.ourPerm && newTemp != ZERO
    ensures
      var b1 := Cleared(b).(herTemp := a.ourTemp, nextNonce := RECEIVED_HELLO);
      var (b2, key) := Encrypt(b1, now, newTemp, payload);
      && b2 == b1.(ourTemp := newTemp, nextNonce := SENT_KEY)
      && Decrypt(a, key, now, junk) == (a.(herTemp := newTemp, nextNonce := RECEIVED_KEY), Accepted(payload))
  {
    hide RP.Check;
  }

  /** The initiator's first traffic packet establishes the responder. */
  lemma FirstTrafficTaken(a: Session, b: Session, now: nat, newTemp: Key, spare: Key, payload: nat, junk: int)
    requires Crossed(a, b, now) && a.setup.ourPerm < b.setup.ourPerm && newTemp != ZERO
    ensures
      var a1 := a.(herTemp := newTemp, nextNonce := RECEIVED_KEY);
      var b2 := Cleared(b).(herTemp := a.ourTemp, ourTemp := newTemp, nextNonce := SENT_KEY);
      var (a2, p) := Encrypt(a1, now, spare, payload);
      var (b3, outcome) := Decrypt(b2, p, now, junk);
      && a2 == a1.(secret := SharedSecret(a.ourTemp, newTemp, None), nextNonce := RECEIVED_KEY + 1)
      && outcome == Accepted(payload) && b3.established && b3.secret == a2.secret
      && b3 == b2.(established := true, secret := a2.secret, nextNonce := SENT_KEY + 3, lastPacket := now,
                   replay := b3.replay)
  {
    hide RP.Check;
    FreshWindowAccepts(RECEIVED_KEY, junk);
  }

  /** And the responder's answer establishes the initiator, with the same secret. */
  lemma AnswerTaken(a: Session, b: Session, now: nat, newTemp: Key, spare: Key, payload: nat, junk: int, w: RP.Window)
    requires Crossed(a, b, now) && a.setup.ourPerm < b.setup.ourPerm && newTemp != ZERO
    ensures
      var secret := SharedSecret(a.ourTemp, newTemp, None);
      var a2 := a.(herTemp := newTemp, nextNonce := RECEIVED_KEY + 1, secret := secret);
      var b3 := Cleared(b).(herTemp := a.ourTemp, ourTemp := newTemp, nextNonce := SENT_KEY + 3,
                            established := true, secret := secret, lastPacket := now, replay := w);
      var (b4, p) := Encrypt(b3, now, spare, payload);
      var (a3, outcome) := Decrypt(a2, p, now, junk);
      outcome == Accepted(payload) && a3.established && b4.established && a3.secret == b4.secret == secret &&
      a3.isInitiator && !b4.isInitiator
  {
    hide RP.Check;
    FreshWindowAccepts(SENT_KEY + 3, junk);
  }

  /** Crossed hellos resolve: deliver both, and the exchange that follows establishes both ends
      with equal secrets, the lower key as initiator. */
  lemma {:induction false} CrossedHellosResolve(
      a: Session, b: Session, now: nat, newTemp: Key, spare: Key, payload: nat, junk: int, ra: bool, rb: bool,
      x: nat)
    requires Crossed(a, b, now) && a.setup.ourPerm < b.setup.ourPerm && newTemp != ZERO
    ensures
      var a0 := Decrypt(a, HelloOf(b, rb, x), now, junk).0;
      var b1 := Decrypt(b, HelloOf(a, ra, x), now, junk).0;
      var (b2, key) := Encrypt(b1, now, newTemp, payload);
      var a1 := Decrypt(a0, key, now, junk).0;
      var (a2, first) := Encrypt(a1, now, spare, payload);
      var b3 := Decrypt(b2, first, now, junk).0;
      var (b4, answer) := Encrypt(b3, now, spare, payload);
      var a3 := Decrypt(a2, answer, now, junk).0;
      a3.established && b4.established && a3.isInitiator && !b4.isInitiator &&
      a3.secret == b4.secret == SharedSecret(a.ourTemp, newTemp, None)
  {
    hide Encrypt, Decrypt, SharedSecret;
    LowerKeyWins(a, b, now, junk, ra, rb, x);
    KeyPacketTaken(a, b, now, newTemp, payload, junk);
    FirstTrafficTaken(a, b, now, newTemp, spare, payload, junk);
    var b2 := Cleared(b).(herTemp := a.ourTemp, ourTemp := newTemp, nextNonce := SENT_KEY);
    var p := Encrypt(a.(herTemp := newTemp, nextNonce := RECEIVED_KEY), now, spare, payload).1;
    AnswerTaken(a, b, now, newTemp, spare, payload, junk, Decrypt(b2, p, now, junk).0.replay);
  }
}
