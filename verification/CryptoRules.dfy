/** What the operations of a session do, said in the terms of its fields and of the numbers that the
    protocol fixes (crypto/CryptoAuth.h:224-243), apart from the functions that compute it. */
module CryptoRules {
  import opened CTypes
  import RP = ReplayProtector
  import opened CryptoSession

  // ---------------------------------------------------------------- secrets and nonces

  /** A secret fixes the two key pairs, though not who is who, and the password. */
  lemma SecretMeaning(a: Key, b: Key, p: Option<nat>, c: Key, d: Key, q: Option<nat>)
    ensures SharedSecret(a, b, p) == SharedSecret(c, d, q) <==> p == q && ((a == c && b == d) || (a == d && b == c))
    ensures SharedSecret(a, b, p) != NoSecret
  {}

  /** One side opens what was encrypted with its own counter by a side in the opposite role, and
      nothing else; the initiator's counter is in the second word. */
  lemma NonceMeaning(n: nat, initiator: bool, m: nat, other: bool)
    requires n > 0
    ensures EncryptNonce(n, initiator) == DecryptNonce(m, other) <==> n == m && initiator != other
    ensures EncryptNonce(n, initiator) == EncryptNonce(m, other) <==> n == m && initiator == other
    ensures EncryptNonce(n, true) == BoxNonce(0, n)
  {}

  // ---------------------------------------------------------------- timing out

  /** Seconds since the last packet, in 64-bit unsigned arithmetic. */
  function SecondsSince(last: nat, now: nat): int {
    if now >= last then now - last else now - last + 0x1_0000_0000_0000_0000
  }

  predicate Keeps(s: Session, now: nat) {
    || s.nextNonce == 1
    || SecondsSince(s.lastPacket, now) < s.setup.setupResetAfter
    || (s.established && SecondsSince(s.lastPacket, now) < s.setup.resetAfter)
  }

  /** Every negotiated field is as in a session that has just been made. */
  predicate Blank(s: Session) {
    && s.nextNonce == 0 && !s.isInitiator && !s.established
    && s.ourTemp == 0 && s.herTemp == 0 && s.secret == NoSecret
    && s.replay == RP.Fresh()
  }

  lemma ResetExact(s: Session)
    ensures Blank(Cleared(s)) && Cleared(s).setup == s.setup && Cleared(s).lastPacket == s.lastPacket
  {}

  lemma NewExact(setup: Setup, now: nat)
    ensures Blank(New(setup, now))
    ensures New(setup, now).setup == setup && New(setup, now).lastPacket == now % 0x1_0000_0000
  {}

  /** A session is left alone while it waits for the answer to a hello, while the silence is short,
      and, once established, while it is not longer than the longer limit; else it starts over. */
  lemma TimeoutExact(s: Session, now: nat)
    requires now < U64 && s.lastPacket < U32
    ensures Keeps(s, now) ==> AfterTimeout(s, now) == s
    ensures !Keeps(s, now) ==>
      var t := AfterTimeout(s, now); Blank(t) && t.setup == s.setup && t.lastPacket == now % 0x1_0000_0000
  {}

  // ---------------------------------------------------------------- sending

  /** The state that the next packet is sent from: 0 when the session has timed out or its counter
      is about to wrap. */
  function SendingState(s: Session, now: nat): nat {
    if Keeps(s, now) && s.nextNonce < 0xffff_fff0 then s.nextNonce else 0
  }

  /** The temporary key of a handshake packet: made up for the first hello and the first key
      packet, the same in every repeat. */
  function SendingKey(s: Session, now: nat, newTemp: Key): Key {
    if SendingState(s, now) in {0, 2} then newTemp else s.ourTemp
  }

  /** Up to state 1 a hello is sent, for the permanent key of the peer ... */
  lemma SendHelloExact(s: Session, now: nat, newTemp: Key, payload: nat)
    requires Sound(s) && now < U64 && SendingState(s, now) <= 1
    ensures var (t, p) := Encrypt(s, now, newTemp, payload);
      && p == Handshake(SendingState(s, now), s.setup.ourPerm, s.setup.password,
                        SharedSecret(s.setup.ourPerm, s.setup.herPerm, s.setup.password),
                        SendingKey(s, now, newTemp), payload)
      && t.setup == s.setup && t.nextNonce == 1 && t.isInitiator && !t.established
      && t.ourTemp == SendingKey(s, now, newTemp) && t.herTemp == 0 && t.secret == NoSecret && t.replay == RP.Fresh()
      && t.lastPacket == if Keeps(s, now) then s.lastPacket else now % 0x1_0000_0000
  {}

  /** ... in states 2 and 3 a key packet, for the temporary key of the hello ... */
  lemma SendKeyExact(s: Session, now: nat, newTemp: Key, payload: nat)
    requires Sound(s) && now < U64 && 2 <= SendingState(s, now) <= 3
    ensures var (t, p) := Encrypt(s, now, newTemp, payload);
      && p == Handshake(SendingState(s, now), s.setup.ourPerm, s.setup.password,
                        SharedSecret(s.setup.ourPerm, s.herTemp, s.setup.password),
                        SendingKey(s, now, newTemp), payload)
      && t == s.(nextNonce := 3, ourTemp := SendingKey(s, now, newTemp))
  {}

  /** ... and from 4 on the message itself, with the secret of the two temporary keys and the
      counter in the word of the sender's role. */
  lemma SendTrafficExact(s: Session, now: nat, newTemp: Key, payload: nat)
    requires Sound(s) && now < U64 && SendingState(s, now) >= 4
    ensures var (t, p) := Encrypt(s, now, newTemp, payload);
      && p == Traffic(s.nextNonce, SharedSecret(s.ourTemp, s.herTemp, None),
                      if s.isInitiator then BoxNonce(0, s.nextNonce) else BoxNonce(s.nextNonce, 0), payload)
      && t == s.(nextNonce := s.nextNonce + 1, secret := SharedSecret(s.ourTemp, s.herTemp, None))
  {}

  // ---------------------------------------------------------------- receiving a handshake

  /** How far a handshake packet gets: each check in the order of the code. */
  predicate ForThisState(s: Session, p: Packet)
    requires p.Handshake?
  {
    s.established ==> p.nonce < 2
  }

  predicate FromThePeer(s: Session, p: Packet)
    requires p.Handshake?
  {
    ForThisState(s, p) && p.publicKey == s.setup.herPerm
  }

  predicate LetIn(s: Session, p: Packet)
    requires p.Handshake?
  {
    FromThePeer(s, p) && Welcome(s, p.auth)
  }

  predicate Expected(s: Session, p: Packet)
    requires p.Handshake?
  {
    LetIn(s, p) && (p.nonce >= 2 ==> s.isInitiator)
  }

  /** A hello is boxed for our permanent key, a key packet for the key of our hello. */
  predicate Opened(s: Session, p: Packet)
    requires p.Handshake?
  {
    && Expected(s, p)
    && p.boxKey == SharedSecret(if p.nonce < 2 then s.setup.ourPerm else s.ourTemp, s.setup.herPerm, p.auth)
  }

  predicate WithKey(s: Session, p: Packet)
    requires p.Handshake?
  {
    Opened(s, p) && p.tempKey != 0
  }

  /** A first packet brings a key we do not have yet; a repeat brings the one we have, if we have
      one and it still matters. */
  predicate Timely(s: Session, p: Packet)
    requires p.Handshake?
  {
    && (p.nonce == 0 ==> p.tempKey != s.herTemp)
    && (p.nonce == 1 ==> p.tempKey != s.herTemp || s.nextNonce in {2, 3})
    && (p.nonce == 2 && s.nextNonce >= 4 ==> p.tempKey != s.herTemp)
    && (p.nonce == 3 && s.nextNonce >= 4 ==> p.tempKey == s.herTemp)
  }

  /** A handshake packet is accepted exactly when it passes every check, and then its message is
      handed on.  In particular no password is taken that is not recognised and meant for this
      peer, and none may be missing where one is required. */
  lemma {:induction false} HandshakeAccepted(s: Session, p: Packet, now: nat, junk: int)
    requires Sound(s) && ProperPacket(p) && p.Handshake?
    ensures Decrypt(s, p, now, junk).1.Accepted? <==>
      WithKey(s, p) && Timely(s, p) && (p.nonce >= 2 ==> s.nextNonce != 0xffff_ffff)
    ensures Decrypt(s, p, now, junk).1.Accepted? ==> Decrypt(s, p, now, junk).1 == Accepted(p.payload)
    ensures Decrypt(s, p, now, junk).1.Accepted? ==>
      match p.auth
      case None => !s.setup.requireAuth
      case Some(password) => password in s.setup.users && s.setup.users[password]
    ensures Decrypt(s, p, now, junk).1.Dropped? ==> Decrypt(s, p, now, junk).0 == s
  {
    hide RP.Fresh;
  }

  /** Which error each refusal gives. */
  lemma {:induction false} HandshakeRefused(s: Session, p: Packet, now: nat, junk: int)
    requires Sound(s) && ProperPacket(p) && p.Handshake?
    ensures
      var out := Decrypt(s, p, now, junk).1;
      var known := p.auth.Some? && p.auth.value in s.setup.users;
      && (out == Dropped(KEY_PKT_ESTABLISHED_SESSION) <==> !ForThisState(s, p))
      && (out == Dropped(WRONG_PERM_PUBKEY) <==> ForThisState(s, p) && p.publicKey != s.setup.herPerm)
      && (out == Dropped(IP_RESTRICTED) <==> FromThePeer(s, p) && known && !s.setup.users[p.auth.value])
      && (out == Dropped(AUTH_REQUIRED) <==> FromThePeer(s, p) && !known && s.setup.requireAuth)
      && (out == Dropped(UNRECOGNIZED_AUTH) <==>
            FromThePeer(s, p) && !known && p.auth.Some? && !s.setup.requireAuth)
      && (out == Dropped(STRAY_KEY) <==> LetIn(s, p) && p.nonce >= 2 && !s.isInitiator)
      && (out == Dropped(HANDSHAKE_DECRYPT_FAILED) <==> Expected(s, p) && !Opened(s, p))
      && (out == Dropped(WISEGUY) <==> Opened(s, p) && p.tempKey == 0)
      && (out == Dropped(INVALID_PACKET) <==> WithKey(s, p) && !Timely(s, p))
      && (out == Stopped <==> WithKey(s, p) && Timely(s, p) && p.nonce >= 2 && s.nextNonce == 0xffff_ffff)
  {
    hide RP.Fresh;
  }

  /** A hello with a new key makes any session the responder for that key, an established one too,
      except that a session which has said hello itself stands firm against a higher permanent key.
      A repeat with the known key changes nothing. */
  lemma {:induction false} HelloEffect(s: Session, p: Packet, now: nat, junk: int)
    requires Sound(s) && ProperPacket(p) && p.Handshake? && p.nonce < 2 && Decrypt(s, p, now, junk).1.Accepted?
    ensures
      var t := Decrypt(s, p, now, junk).0;
      if p.tempKey == s.herTemp || (s.nextNonce == 1 && s.setup.ourPerm <= s.setup.herPerm) then t == s
      else
        && t.setup == s.setup && t.lastPacket == s.lastPacket
        && t.nextNonce == 2 && !t.isInitiator && !t.established && t.ourTemp == 0 && t.herTemp == p.tempKey
        && t.secret == NoSecret && t.replay == RP.Fresh()
  {
    hide RP.Fresh;
  }

  /** A key packet gives an initiator the key in it.  When it already sends traffic it moves on by
      one and takes the new secret. */
  lemma {:induction false} KeyEffect(s: Session, p: Packet, now: nat, junk: int)
    requires Sound(s) && ProperPacket(p) && p.Handshake? && p.nonce >= 2 && Decrypt(s, p, now, junk).1.Accepted?
    ensures
      var t := Decrypt(s, p, now, junk).0;
      && t == s.(nextNonce := t.nextNonce, herTemp := p.tempKey, secret := t.secret)
      && t.nextNonce == (if s.nextNonce <= 4 then 4 else s.nextNonce + 1)
      && t.secret == (if s.nextNonce <= 4 then NoSecret else SharedSecret(s.ourTemp, p.tempKey, None))
      && t.replay == RP.Fresh()
  {
    hide RP.Fresh;
  }

  // ---------------------------------------------------------------- receiving traffic

  /** Keys have been exchanged. */
  predicate SetUp(s: Session) {
    s.established || s.nextNonce >= 3
  }

  /** Boxed by the peer under the present keys and in the opposite role. */
  predicate ForUs(s: Session, p: Packet)
    requires p.Traffic?
  {
    && p.boxKey == SharedSecret(s.ourTemp, s.herTemp, None)
    && p.boxNonce == if s.isInitiator then BoxNonce(p.nonce, 0) else BoxNonce(0, p.nonce)
  }

  /** Traffic is accepted exactly when the keys are there, the box opens and the window has not seen
      the counter; the message is handed on, the session is established and its clock renewed. */
  lemma {:induction false} TrafficExact(s: Session, p: Packet, now: nat, junk: int)
    requires Sound(s) && ProperPacket(p) && p.Traffic?
    ensures
      var (t, out) := Decrypt(s, p, now, junk);
      var (w, unseen) := RP.Check(s.replay, p.nonce, junk);
      && (out == Dropped(NO_SESSION) <==> !SetUp(s))
      && (out == Dropped(DECRYPT) <==> SetUp(s) && !ForUs(s, p))
      && (out == Dropped(REPLAY) <==> SetUp(s) && ForUs(s, p) && !unseen)
      && (out == Accepted(p.payload) <==> SetUp(s) && ForUs(s, p) && unseen)
      && (!SetUp(s) || !ForUs(s, p) ==> t == s)
      && (SetUp(s) && ForUs(s, p) && !unseen ==> t == s.(replay := w))
      && (SetUp(s) && ForUs(s, p) && unseen ==>
            t == s.(replay := w, lastPacket := now % 0x1_0000_0000, established := true,
                    secret := SharedSecret(s.ourTemp, s.herTemp, None),
                    nextNonce := if s.established then s.nextNonce else (s.nextNonce + 3) % 0x1_0000_0000))
  {
    hide RP.Check, RP.Fresh;
  }

  lemma RuntExact(s: Session, now: nat, junk: int)
    ensures Decrypt(s, Runt, now, junk) == (s, Dropped(RUNT))
  {}
}
