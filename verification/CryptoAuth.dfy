/** The code of crypto/CryptoAuth.c that updates a session in place.  Every Assert_true of the
    handshake is an assert here; each method is proved against the session functions. */
module CryptoAuth {
  import opened CTypes
  import RP = ReplayProtector
  import opened CryptoSession

  class SessionPvt {
    var setup: Setup
    var nextNonce: nat
    var isInitiator: bool
    var established: bool
    var ourTempPrivKey: Key
    var herTempPubKey: Key
    var sharedSecret: Secret
    var replayProtector: RP.Window
    var timeOfLastPacket: nat

    function State(): Session
      reads this
    {
      Session(setup, nextNonce, isInitiator, established, ourTempPrivKey, herTempPubKey, sharedSecret,
              replayProtector, timeOfLastPacket)
    }

    /** CryptoAuth_newSession(). */
    constructor (setup: Setup, now: nat)
      ensures State() == New(setup, now)
    {
      this.setup, nextNonce, isInitiator, established := setup, INIT, false, false;
      ourTempPrivKey, herTempPubKey, sharedSecret := ZERO, ZERO, NoSecret;
      replayProtector, timeOfLastPacket := RP.Fresh(), now % U32;
    }

    /** reset(). */
    method Reset()
      modifies this
      ensures State() == Cleared(old(State()))
    {
      nextNonce := INIT;
      isInitiator := false;
      ourTempPrivKey := ZERO;
      herTempPubKey := ZERO;
      sharedSecret := NoSecret;
      established := false;
      replayProtector := RP.Fresh();
    }

    /** resetIfTimeout(). */
    method ResetIfTimeout(now: nat)
      requires now < U64
      modifies this
      ensures State() == AfterTimeout(old(State()), now)
    {
      if nextNonce == SENT_HELLO { return; }
      var silence := (now - timeOfLastPacket) % U64;
      if silence < setup.setupResetAfter {
        return;
      } else if silence < setup.resetAfter {
        if established { return; }
      }
      timeOfLastPacket := now % U32;
      Reset();
    }

    /** encryptHandshake(). */
    method EncryptHandshake(newTemp: Key, payload: nat) returns (p: Packet)
      requires Sound(State()) && nextNonce < RECEIVED_KEY && newTemp != ZERO
      modifies this
      ensures (State(), p) == SendHandshake(old(State()), newTemp, payload)
    {
      assert setup.herPerm != ZERO;
      var headerNonce := nextNonce;
      if nextNonce == INIT || nextNonce == RECEIVED_HELLO {
        ourTempPrivKey := newTemp;
      }
      var boxKey;
      if nextNonce < RECEIVED_HELLO {
        boxKey := SharedSecret(setup.ourPerm, setup.herPerm, setup.password);
        isInitiator := true;
        assert nextNonce <= SENT_HELLO;
        nextNonce := SENT_HELLO;
      } else {
        assert herTempPubKey != ZERO;
        boxKey := SharedSecret(setup.ourPerm, herTempPubKey, setup.password);
        assert nextNonce <= SENT_KEY;
        nextNonce := SENT_KEY;
      }
      assert nextNonce < RECEIVED_HELLO <==> herTempPubKey == ZERO;
      p := Handshake(headerNonce, setup.ourPerm, setup.password, boxKey, ourTempPrivKey, payload);
    }

    /** CryptoAuth_encrypt(). */
    method EncryptPacket(now: nat, newTemp: Key, payload: nat) returns (p: Packet)
      requires Sound(State()) && now < U64 && newTemp != ZERO
      modifies this
      ensures (State(), p) == Encrypt(old(State()), now, newTemp, payload)
      ensures Sound(State()) && ProperPacket(p)
    {
      EncryptSound(State(), now, newTemp, payload);
      ResetIfTimeout(now);
      if nextNonce >= NONCE_LIMIT {
        Reset();
      }
      if nextNonce <= RECEIVED_KEY {
        if nextNonce < RECEIVED_KEY {
          p := EncryptHandshake(newTemp, payload);
          return;
        } else {
          assert ourTempPrivKey != ZERO;
          assert herTempPubKey != ZERO;
          sharedSecret := SharedSecret(ourTempPrivKey, herTempPubKey, None);
        }
      }
      p := Traffic(nextNonce, sharedSecret, EncryptNonce(nextNonce, isInitiator), payload);
      nextNonce := nextNonce + 1;
    }

    /** decryptMessage(): open the box, then file the nonce. */
    method DecryptMessage(p: Packet, secret: Secret, junk: int) returns (error: Option<DecryptErr>)
      requires p.Traffic?
      modifies this`replayProtector
      ensures error == Some(DECRYPT) <==> !(p.boxKey == secret && p.boxNonce == DecryptNonce(p.nonce, isInitiator))
      ensures error == Some(DECRYPT) ==> replayProtector == old(replayProtector)
      ensures error != Some(DECRYPT) ==>
        var (w, unseen) := RP.Check(old(replayProtector), p.nonce, junk);
        replayProtector == w && error == if unseen then None else Some(REPLAY)
    {
      if p.boxKey != secret || p.boxNonce != DecryptNonce(p.nonce, isInitiator) {
        return Some(DECRYPT);
      }
      var (w, unseen) := RP.Check(replayProtector, p.nonce, junk);
      replayProtector := w;
      return if unseen then None else Some(REPLAY);
    }

    /** Lines 719-759.  Answers what nextNonce is to become, or why the packet is dropped. */
    method AcceptKey(nonce: nat, tempKey: Key) returns (error: Option<DecryptErr>, next: nat)
      requires Sound(State()) && !established && nonce in {KEY, REPEAT_KEY} && tempKey != ZERO
      requires nonce == REPEAT_KEY && nextNonce >= RECEIVED_KEY ==> tempKey == herTempPubKey
      modifies this`herTempPubKey, this`sharedSecret
      ensures error == if nextNonce in {INIT, RECEIVED_HELLO, SENT_KEY} then Some(STRAY_KEY) else None
      ensures error.None? ==>
        && herTempPubKey == tempKey
        && next == (if nextNonce <= RECEIVED_KEY then RECEIVED_KEY else (nextNonce + 1) % U32)
        && sharedSecret ==
           (if nextNonce <= RECEIVED_KEY then NoSecret else SharedSecret(ourTempPrivKey, tempKey, None))
      ensures error.Some? ==> herTempPubKey == old(herTempPubKey) && sharedSecret == old(sharedSecret)
    {
      next := RECEIVED_KEY;
      assert nonce == KEY || nonce == REPEAT_KEY;
      if nextNonce == INIT || nextNonce == RECEIVED_HELLO || nextNonce == SENT_KEY {
        return Some(STRAY_KEY), next;
      } else if nextNonce == SENT_HELLO {
        herTempPubKey := tempKey;
      } else if nextNonce == RECEIVED_KEY {
        if nonce == KEY {
          herTempPubKey := tempKey;
        } else {
          assert herTempPubKey == tempKey;
        }
      } else {
        assert !established;
        if nonce == KEY {
          herTempPubKey := tempKey;
          assert ourTempPrivKey != ZERO;
          assert herTempPubKey != ZERO;
          sharedSecret := SharedSecret(ourTempPrivKey, herTempPubKey, None);
        } else {
          assert herTempPubKey == tempKey;
        }
        next := (nextNonce + 1) % U32;
      }
      return None, next;
    }

    /** Lines 761-818.  `finished` when the packet leaves the session as it is. */
    method AcceptHello(nonce: nat, tempKey: Key, ghost payload: nat)
      returns (error: Option<DecryptErr>, next: nat, finished: bool)
      requires Sound(State()) && nonce < KEY && tempKey != ZERO
      modifies this
      ensures ReceiveHello(old(State()), tempKey, payload).1 ==
              if error.Some? then Dropped(error.value) else Accepted(payload)
      ensures finished ==> State() == old(State()) && State() == ReceiveHello(old(State()), tempKey, payload).0
      ensures !finished ==>
        && error.None?
        && State().(nextNonce := next, replay := RP.Fresh()) == ReceiveHello(old(State()), tempKey, payload).0
        && (nextNonce < next || (nextNonce <= RECEIVED_KEY && next == nextNonce))
    {
      next := RECEIVED_HELLO;
      assert nonce == HELLO || nonce == REPEAT_HELLO;
      if herTempPubKey != tempKey {
        if nextNonce == SENT_HELLO {
          if setup.herPerm < setup.ourPerm {
            Reset();
            herTempPubKey := tempKey;
          } else {
            return None, next, true;
          }
        } else if nextNonce == INIT {
          herTempPubKey := tempKey;
        } else {
          Reset();
          herTempPubKey := tempKey;
        }
      } else if nextNonce == RECEIVED_HELLO || nextNonce == SENT_KEY {
        next := nextNonce;
      } else {
        return Some(INVALID_PACKET), next, true;
      }
      return None, next, false;
    }

    /** decryptHandshake(). */
    method DecryptHandshake(p: Packet) returns (outcome: Outcome)
      requires Sound(State()) && p.Handshake? && ProperPacket(p) && (p.nonce >= KEY ==> !established)
      modifies this
      ensures outcome == ReceiveHandshake(old(State()), p).1
      ensures outcome != Stopped ==> State() == ReceiveHandshake(old(State()), p).0
    {
      assert setup.herPerm != ZERO;
      if setup.herPerm != p.publicKey { return Dropped(WRONG_PERM_PUBKEY); }
      assert nextNonce < RECEIVED_HELLO <==> herTempPubKey == ZERO;
      var known := p.auth.Some? && p.auth.value in setup.users;
      if known {
        if !setup.users[p.auth.value] { return Dropped(IP_RESTRICTED); }
      }
      if setup.requireAuth && !known { return Dropped(AUTH_REQUIRED); }
      if !known && p.auth.Some? { return Dropped(UNRECOGNIZED_AUTH); }
      var secret;
      if p.nonce < KEY {
        if p.nonce != HELLO { assert p.nonce == REPEAT_HELLO; }
        secret := SharedSecret(setup.ourPerm, setup.herPerm, p.auth);
      } else {
        if p.nonce != KEY { assert p.nonce == REPEAT_KEY; }
        if !isInitiator { return Dropped(STRAY_KEY); }
        secret := SharedSecret(ourTempPrivKey, setup.herPerm, p.auth);
      }
      if p.boxKey != secret { return Dropped(HANDSHAKE_DECRYPT_FAILED); }
      if p.tempKey == ZERO { return Dropped(WISEGUY); }
      if p.nonce == HELLO {
        if herTempPubKey == p.tempKey { return Dropped(INVALID_PACKET); }
      } else if p.nonce == KEY && nextNonce >= RECEIVED_KEY {
        if herTempPubKey == p.tempKey {
          assert herTempPubKey != ZERO;
          return Dropped(INVALID_PACKET);
        }
      } else if p.nonce == REPEAT_KEY && nextNonce >= RECEIVED_KEY {
        if herTempPubKey != p.tempKey {
          assert herTempPubKey != ZERO;
          return Dropped(INVALID_PACKET);
        }
      }
      var error, next;
      if p.nonce >= KEY {
        error, next := AcceptKey(p.nonce, p.tempKey);
        if error.Some? { return Dropped(STRAY_KEY); }
      } else {
        var finished;
        error, next, finished := AcceptHello(p.nonce, p.tempKey, p.payload);
        if error.Some? { return Dropped(error.value); }
        if finished { return Accepted(p.payload); }
      }
      // Line 824; only the bump of a counter at its very end can trip it.
      if !(nextNonce < next || (nextNonce <= RECEIVED_KEY && next == nextNonce)) { return Stopped; }
      nextNonce := next;
      replayProtector := RP.Fresh();
      return Accepted(p.payload);
    }

    /** CryptoAuth_decrypt(). */
    method DecryptPacket(p: Packet, now: nat, junk: int) returns (outcome: Outcome)
      requires Sound(State()) && ProperPacket(p)
      modifies this
      ensures outcome == Decrypt(old(State()), p, now, junk).1
      ensures outcome != Stopped ==> State() == Decrypt(old(State()), p, now, junk).0
      ensures (outcome != Stopped && Sound(State())) <==> !old(Wraps(State(), p))
    {
      DecryptSound(State(), p, now, junk);
      if p.Runt? { return Dropped(RUNT); }
      if !established {
        if p.nonce >= FIRST_TRAFFIC {
          if nextNonce < SENT_KEY { return Dropped(NO_SESSION); }
          assert ourTempPrivKey != ZERO;
          assert herTempPubKey != ZERO;
          var secret := SharedSecret(ourTempPrivKey, herTempPubKey, None);
          var error := DecryptMessage(p, secret, junk);
          if error.Some? { return Dropped(error.value); }
          sharedSecret := secret;
          established := true;
          nextNonce := (nextNonce + 3) % U32;
          timeOfLastPacket := now % U32;
          return Accepted(p.payload);
        }
        outcome := DecryptHandshake(p);
      } else if p.nonce >= FIRST_TRAFFIC {
        assert sharedSecret != NoSecret;
        var error := DecryptMessage(p, sharedSecret, junk);
        if error.Some? { return Dropped(error.value); }
        timeOfLastPacket := now % U32;
        outcome := Accepted(p.payload);
      } else if p.nonce <= REPEAT_HELLO {
        outcome := DecryptHandshake(p);
      } else {
        outcome := Dropped(KEY_PKT_ESTABLISHED_SESSION);
      }
    }
  }
}
