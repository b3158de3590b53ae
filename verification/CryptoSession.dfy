/** One end of a CryptoAuth session (crypto/CryptoAuth.c, crypto/CryptoAuth_pvt.h:68-110) with
    symbolic cryptography. */
module CryptoSession {
  import opened CTypes
  import RP = ReplayProtector

  // ---------------------------------------------------------------- symbolic cryptography

  /** A key pair is a number; 0 stands for the all-zero key, "unknown". */
  type Key = nat
  const ZERO: Key := 0

  /** The secret of two key pairs and perhaps a password.  Diffie-Hellman does not care who is
      who, so the pair is kept in order (section 6.1 of RFC 7748). */
  datatype Secret = NoSecret | Dh(low: Key, high: Key, password: Option<nat>)

  function SharedSecret(mine: Key, hers: Key, password: Option<nat>): Secret {
    if mine <= hers then Dh(mine, hers, password) else Dh(hers, mine, password)
  }

  /** The two words of the 24-byte nonce that a counter goes into (lines 241-275). */
  datatype BoxNonce = BoxNonce(word0: nat, word1: nat)

  function EncryptNonce(nonce: nat, isInitiator: bool): BoxNonce {
    if isInitiator then BoxNonce(0, nonce) else BoxNonce(nonce, 0)
  }

  function DecryptNonce(nonce: nat, isInitiator: bool): BoxNonce {
    if !isInitiator then BoxNonce(0, nonce) else BoxNonce(nonce, 0)
  }

  const FIRST_TRAFFIC: nat := 4
  const NONCE_LIMIT: nat := 0xfffffff0

  /** What travels.  A handshake carries its header in the clear, and the sender's temporary key and
      the message in a box; `auth` is the password whose hash is in the challenge, if any. */
  datatype Packet =
    | Runt
    | Handshake(nonce: nat, publicKey: Key, auth: Option<nat>, boxKey: Secret, tempKey: Key, payload: nat)
    | Traffic(nonce: nat, boxKey: Secret, boxNonce: BoxNonce, payload: nat)

  ghost predicate ProperPacket(p: Packet) {
    (p.Handshake? ==> p.nonce < FIRST_TRAFFIC) && (p.Traffic? ==> FIRST_TRAFFIC <= p.nonce < U32)
  }

  // ---------------------------------------------------------------- the session

  const INIT: nat := 0
  const SENT_HELLO: nat := 1
  const RECEIVED_HELLO: nat := 2
  const SENT_KEY: nat := 3
  const RECEIVED_KEY: nat := 4

  const HELLO: nat := 0
  const REPEAT_HELLO: nat := 1
  const KEY: nat := 2
  const REPEAT_KEY: nat := 3

  /** `users` maps every password that is recognised to whether this peer may use it. */
  datatype Setup = Setup(ourPerm: Key, herPerm: Key, password: Option<nat>, users: map<nat, bool>, requireAuth: bool,
                         setupResetAfter: nat, resetAfter: nat)

  datatype Session = Session(
    setup: Setup,
    nextNonce: nat,
    isInitiator: bool,
    established: bool,
    ourTemp: Key,
    herTemp: Key,
    secret: Secret,
    replay: RP.Window,
    lastPacket: nat)

  datatype DecryptErr =
    | RUNT | NO_SESSION | KEY_PKT_ESTABLISHED_SESSION | WRONG_PERM_PUBKEY | IP_RESTRICTED | AUTH_REQUIRED
    | UNRECOGNIZED_AUTH | STRAY_KEY | HANDSHAKE_DECRYPT_FAILED | WISEGUY | INVALID_PACKET | REPLAY | DECRYPT

  /** A packet is accepted and its message handed on, or it is dropped with an error, or trips an
      Assert_true that ends the program. */
  datatype Outcome = Accepted(payload: nat) | Dropped(error: DecryptErr) | Stopped

  /** The inductive invariant of a session: role, keys, secret and window are determined by the
      state. */
  ghost predicate Sound(s: Session) {
    && s.setup.ourPerm != ZERO && s.setup.herPerm != ZERO
    && s.nextNonce < U32 && s.lastPacket < U32
    && (s.herTemp == ZERO <==> s.nextNonce < RECEIVED_HELLO)
    && (s.ourTemp == ZERO <==> s.nextNonce == INIT || s.nextNonce == RECEIVED_HELLO)
    && (s.nextNonce == SENT_HELLO ==> s.isInitiator)
    && (s.nextNonce in {INIT, RECEIVED_HELLO, SENT_KEY} ==> !s.isInitiator)
    && (s.nextNonce >= RECEIVED_KEY && !s.established ==> s.isInitiator)
    && (s.established ==> s.nextNonce > RECEIVED_KEY)
    && (s.nextNonce <= RECEIVED_KEY ==> s.secret == NoSecret)
    && (s.nextNonce > RECEIVED_KEY ==> s.secret == SharedSecret(s.ourTemp, s.herTemp, None))
    && (!s.established ==> s.replay == RP.Fresh())
  }

  // ---------------------------------------------------------------- what each operation does

  function New(setup: Setup, now: nat): Session {
    Session(setup, INIT, false, false, ZERO, ZERO, NoSecret, RP.Fresh(), now % U32)
  }

  /** reset(). */
  function Cleared(s: Session): Session {
    s.(nextNonce := INIT, isInitiator := false, ourTemp := ZERO, herTemp := ZERO, secret := NoSecret,
       established := false, replay := RP.Fresh())
  }

  /** How long nothing has come in, as the unsigned subtraction computes it. */
  function Silence(s: Session, now: nat): nat
    requires now < U64
  {
    (now - s.lastPacket) % U64
  }

  predicate TimedOut(s: Session, now: nat)
    requires now < U64
  {
    && s.nextNonce != SENT_HELLO
    && Silence(s, now) >= s.setup.setupResetAfter
    && (Silence(s, now) >= s.setup.resetAfter || !s.established)
  }

  function AfterTimeout(s: Session, now: nat): Session
    requires now < U64
  {
    if TimedOut(s, now) then Cleared(s).(lastPacket := now % U32) else s
  }

  /** What encryption starts from: a session that timed out, or whose nonce is about to wrap,
      begins again. */
  function Prepared(s: Session, now: nat): Session
    requires now < U64
  {
    var t := AfterTimeout(s, now);
    if t.nextNonce >= NONCE_LIMIT then Cleared(t) else t
  }

  function SendHandshake(s: Session, newTemp: Key, payload: nat): (Session, Packet) {
    var ourTemp := if s.nextNonce == INIT || s.nextNonce == RECEIVED_HELLO then newTemp else s.ourTemp;
    var hello := s.nextNonce < RECEIVED_HELLO;
    var boxKey := SharedSecret(s.setup.ourPerm, if hello then s.setup.herPerm else s.herTemp, s.setup.password);
    (s.(ourTemp := ourTemp, isInitiator := s.isInitiator || hello, nextNonce := if hello then SENT_HELLO else SENT_KEY),
     Handshake(s.nextNonce, s.setup.ourPerm, s.setup.password, boxKey, ourTemp, payload))
  }

  function SendTraffic(s: Session, payload: nat): (Session, Packet) {
    var secret := if s.nextNonce == RECEIVED_KEY then SharedSecret(s.ourTemp, s.herTemp, None) else s.secret;
    (s.(secret := secret, nextNonce := s.nextNonce + 1),
     Traffic(s.nextNonce, secret, EncryptNonce(s.nextNonce, s.isInitiator), payload))
  }

  /** CryptoAuth_encrypt(). */
  function Encrypt(s: Session, now: nat, newTemp: Key, payload: nat): (Session, Packet)
    requires now < U64
  {
    var t := Prepared(s, now);
    if t.nextNonce < RECEIVED_KEY then SendHandshake(t, newTemp, payload) else SendTraffic(t, payload)
  }

  /** The peer shows a password that it may use, or none where none is asked for. */
  predicate Welcome(s: Session, auth: Option<nat>) {
    match auth
    case None => !s.setup.requireAuth
    case Some(password) => password in s.setup.users && s.setup.users[password]
  }

  /** The checks that decryptHandshake() makes before it looks at its own state, in order. */
  function AuthFault(s: Session, auth: Option<nat>): Option<DecryptErr> {
    if auth.Some? && auth.value in s.setup.users then
      if s.setup.users[auth.value] then None else Some(IP_RESTRICTED)
    else if s.setup.requireAuth then Some(AUTH_REQUIRED)
    else if auth.Some? then Some(UNRECOGNIZED_AUTH)
    else None
  }

  function HandshakeSecret(s: Session, p: Packet): Secret
    requires p.Handshake?
  {
    SharedSecret(if p.nonce < KEY then s.setup.ourPerm else s.ourTemp, s.setup.herPerm, p.auth)
  }

  /** Lines 686-711: a repeat must repeat and a new packet must be new. */
  predicate WrongRepeat(s: Session, p: Packet)
    requires p.Handshake?
  {
    || (p.nonce == HELLO && p.tempKey == s.herTemp)
    || (p.nonce == KEY && s.nextNonce >= RECEIVED_KEY && p.tempKey == s.herTemp)
    || (p.nonce == REPEAT_KEY && s.nextNonce >= RECEIVED_KEY && p.tempKey != s.herTemp)
  }

  function HandshakeFault(s: Session, p: Packet): Option<DecryptErr>
    requires p.Handshake?
  {
    if p.publicKey != s.setup.herPerm then Some(WRONG_PERM_PUBKEY)
    else if AuthFault(s, p.auth).Some? then AuthFault(s, p.auth)
    else if p.nonce >= KEY && !s.isInitiator then Some(STRAY_KEY)
    else if p.boxKey != HandshakeSecret(s, p) then Some(HANDSHAKE_DECRYPT_FAILED)
    else if p.tempKey == ZERO then Some(WISEGUY)
    else if WrongRepeat(s, p) then Some(INVALID_PACKET)
    else None
  }

  /** An acceptable hello: stand firm, start over as the responder, or recognise the repeat. */
  function ReceiveHello(s: Session, tempKey: Key, payload: nat): (Session, Outcome) {
    if tempKey != s.herTemp then
      if s.nextNonce == SENT_HELLO && s.setup.ourPerm <= s.setup.herPerm then (s, Accepted(payload))
      else (Cleared(s).(herTemp := tempKey, nextNonce := RECEIVED_HELLO), Accepted(payload))
    else if s.nextNonce == RECEIVED_HELLO || s.nextNonce == SENT_KEY then
      (s.(replay := RP.Fresh()), Accepted(payload))
    else (s, Dropped(INVALID_PACKET))
  }

  /** An acceptable key packet: the first one, or another one before any traffic has come in. */
  function ReceiveKey(s: Session, tempKey: Key, payload: nat): (Session, Outcome) {
    if s.nextNonce in {INIT, RECEIVED_HELLO, SENT_KEY} then (s, Dropped(STRAY_KEY))
    else if s.nextNonce <= RECEIVED_KEY then
      (s.(herTemp := tempKey, nextNonce := RECEIVED_KEY, replay := RP.Fresh()), Accepted(payload))
    else if (s.nextNonce + 1) % U32 <= s.nextNonce then (s, Stopped)
    else
      (s.(herTemp := tempKey, secret := SharedSecret(s.ourTemp, tempKey, None), nextNonce := s.nextNonce + 1,
          replay := RP.Fresh()), Accepted(payload))
  }

  function ReceiveHandshake(s: Session, p: Packet): (Session, Outcome)
    requires p.Handshake?
  {
    match HandshakeFault(s, p)
    case Some(error) => (s, Dropped(error))
    case None =>
      if p.nonce < KEY then ReceiveHello(s, p.tempKey, p.payload) else ReceiveKey(s, p.tempKey, p.payload)
  }

  /** The secret that incoming traffic is opened with (lines 862-869 and 891). */
  function TrafficSecret(s: Session): Secret {
    if s.established then s.secret else SharedSecret(s.ourTemp, s.herTemp, None)
  }

  predicate Opens(s: Session, p: Packet)
    requires p.Traffic?
  {
    p.boxKey == TrafficSecret(s) && p.boxNonce == DecryptNonce(p.nonce, s.isInitiator)
  }

  /** A traffic packet; the first one establishes the session. */
  function ReceiveTraffic(s: Session, p: Packet, now: nat, junk: int): (Session, Outcome)
    requires p.Traffic?
  {
    if !s.established && s.nextNonce < SENT_KEY then (s, Dropped(NO_SESSION))
    else if !Opens(s, p) then (s, Dropped(DECRYPT))
    else
      var (w, unseen) := RP.Check(s.replay, p.nonce, junk);
      if !unseen then (s.(replay := w), Dropped(REPLAY))
      else if s.established then (s.(replay := w, lastPacket := now % U32), Accepted(p.payload))
      else
        (s.(replay := w, lastPacket := now % U32, established := true, nextNonce := (s.nextNonce + 3) % U32,
            secret := TrafficSecret(s)), Accepted(p.payload))
  }

  /** CryptoAuth_decrypt(). */
  function Decrypt(s: Session, p: Packet, now: nat, junk: int): (Session, Outcome) {
    match p
    case Runt => (s, Dropped(RUNT))
    case Handshake(nonce, _, _, _, _, _) =>
      if s.established && nonce >= KEY then (s, Dropped(KEY_PKT_ESTABLISHED_SESSION))
      else ReceiveHandshake(s, p)
    case Traffic(_, _, _, _) => ReceiveTraffic(s, p, now, junk)
  }

  // ---------------------------------------------------------------- the invariant is inductive

  lemma EncryptSound(s: Session, now: nat, newTemp: Key, payload: nat)
    requires Sound(s) && now < U64 && newTemp != ZERO
    ensures Sound(Encrypt(s, now, newTemp, payload).0) && ProperPacket(Encrypt(s, now, newTemp, payload).1)
    ensures Encrypt(s, now, newTemp, payload).1.Traffic? ==> Encrypt(s, now, newTemp, payload).1.nonce < NONCE_LIMIT
  {}

  /** A fresh window accepts any nonce: the first packet that opens establishes the session. */
  lemma FreshWindowAccepts(nonce: nat, junk: int)
    ensures RP.Check(RP.Fresh(), nonce, junk).1
  {
    RP.CheckRefinesSet(RP.Fresh(), {}, nonce, junk);
  }

  /** The one step that trips an assertion, and the one that leaves the state unsound: bumping a
      counter that is about to wrap (lines 756 and 878). */
  ghost predicate Wraps(s: Session, p: Packet) {
    || (p.Handshake? && s.nextNonce == U32 - 1 && !s.established && p.nonce >= KEY && HandshakeFault(s, p).None?)
    || (p.Traffic? && s.nextNonce >= U32 - 3 && !s.established && Opens(s, p))
  }

  /** Exactly when nothing wraps, no assertion fails and the invariant is kept: every protocol
      assertion of the handshake holds in every state that the invariant allows. */
  lemma {:induction false} DecryptSound(s: Session, p: Packet, now: nat, junk: int)
    requires Sound(s) && ProperPacket(p)
    ensures (Decrypt(s, p, now, junk).1 != Stopped && Sound(Decrypt(s, p, now, junk).0)) <==> !Wraps(s, p)
  {
    hide RP.Check;
    if p.Traffic? { FreshWindowAccepts(p.nonce, junk); }
  }

  /** With headroom nothing wraps; only a session at the very end of its nonces lacks it. */
  lemma HeadroomSuffices(s: Session, p: Packet)
    requires s.nextNonce < U32 - 3
    ensures !Wraps(s, p)
  {}

  /** A sound session at the end of its counter: one more repeat of the key packet trips the
      assertion at line 824. */
  lemma WrapExample(our: Key, her: Key, temp: Key, hers: Key)
    requires our != ZERO && her != ZERO && temp != ZERO && hers != ZERO
    ensures
      var setup := Setup(our, her, None, map[], false, 10, 60);
      var s := Session(setup, U32 - 1, true, false, temp, hers, SharedSecret(temp, hers, None), RP.Fresh(), 0);
      var p := Handshake(REPEAT_KEY, her, None, SharedSecret(temp, her, None), hers, 0);
      Sound(s) && ProperPacket(p) && Decrypt(s, p, 0, 0).1 == Stopped
  {}
}
