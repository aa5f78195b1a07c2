/** Authentication handshakes and the sessions they open. A log no emulator keeps records
    what happened, so that a session can be traced to the handshake behind it. */
module Authentication {
  import opened Bytes

  type Octets = seq<byte>

  datatype Cipher = Legacy | Iso | Aes

  const RANDOM_LENGTH: nat := 16
  const TI_LENGTH: nat := 4
  const CAPABILITY_LENGTH: nat := 6
  const AES_KEY_LENGTH: nat := 16

  datatype Status = Ok | MoreFrames | IllegalCommand | LengthError | AuthenticationError | NoSuchKey
    | PermissionDenied | MemoryError

  datatype Reply = Reply(status: Status, payload: Octets)

  /** The ciphers and derivations, any of which may fail. */
  datatype Crypto = Crypto(
    encrypt: (Cipher, Octets, Octets, Octets) -> Option<Octets>,
    decrypt: (Cipher, Octets, Octets, Octets) -> Option<Octets>,
    deriveNative: (Cipher, Octets, Octets, Octets) -> Octets,
    deriveEv2: (Octets, Octets, Octets) -> Option<(Octets, Octets)>,
    opens: (Cipher, Octets) -> bool)

  ghost predicate KeepsLength(c: Crypto)
  {
    && (forall a, k, iv, d :: c.encrypt(a, k, iv, d).Some? ==> |c.encrypt(a, k, iv, d).value| == |d|)
    && (forall a, k, iv, d :: c.decrypt(a, k, iv, d).Some? ==> |c.decrypt(a, k, iv, d).value| == |d|)
  }

  /** What the selected application and the card allow at the moment of a command. */
  datatype Card = Card(ev2: bool, numKeys: nat, disabled: set<nat>, available: set<nat>, accepts: set<Kind>,
                       keyOf: nat -> Octets, capabilities: Octets)

  // ---- What happened --------------------------------------------------------------------

  datatype Kind = Native(cipher: Cipher) | First | NonFirst

  /** A challenge sent to the reader; `ti` is drawn only by a First. An EV2 handshake keeps
      the key it started with as `master`; a native one reads its key when it is completed. */
  datatype Handshake = Handshake(kind: Kind, key: nat, rndB: Octets, ti: Octets, master: Octets)

  datatype Event =
    | Started(h: Handshake)
    | Completed(h: Handshake, master: Octets, rndA: Octets, echo: Octets)

  /** A challenge as it is stored: sixteen octets, the unused ones zero. */
  function Stored(rndB: Octets): (s: Octets)
    ensures |s| == if |rndB| <= RANDOM_LENGTH then RANDOM_LENGTH else |rndB|
    ensures s[..|rndB|] == rndB
  {
    rndB + Zeros(if |rndB| < RANDOM_LENGTH then RANDOM_LENGTH - |rndB| else 0)
  }

  /** The reader returned the challenge rotated by one octet. */
  predicate Matched(h: Handshake, echo: Octets)
  {
    |echo| <= |Stored(h.rndB)| && echo == RotateLeft(Stored(h.rndB)[..|echo|], 1)
  }

  /** An EV2 handshake is completed with the key it was started with. */
  predicate SameKey(e: Event)
    requires e.Completed?
  {
    e.h.kind.Native? || e.master == e.h.master
  }

  /** No handshake completes but the one last started, only on a matching echo, and under
      the key it was started with. */
  predicate LogOk(log: seq<Event>)
  {
    forall i :: 0 <= i < |log| && log[i].Completed? ==>
      i > 0 && log[i - 1] == Started(log[i].h) && Matched(log[i].h, log[i].echo) && SameKey(log[i])
  }

  /** The transaction identifier drawn by the latest First that completed. */
  function LatestTi(log: seq<Event>): Option<Octets>
  {
    if log == [] then None
    else
      var e := log[|log| - 1];
      if e.Completed? && e.h.kind == First then Some(e.h.ti) else LatestTi(log[..|log| - 1])
  }

  lemma LatestTiPush(log: seq<Event>, e: Event)
    ensures LatestTi(log + [e]) == if e.Completed? && e.h.kind == First then Some(e.h.ti) else LatestTi(log)
  {
    assert (log + [e])[..|log|] == log;
  }

  predicate Ends(log: seq<Event>, e: Event)
  {
    log != [] && log[|log| - 1] == e
  }

  /** The secrets of a handshake in progress share one storage. */
  datatype Storage =
    | Wiped
    | NativeArm(rndB: Octets, encrypted: Octets)
    | Ev2Arm(master: Octets, rndB: Octets, ti: Octets, cardCaps: Octets, readerCaps: Octets)

  // ---- Lengths --------------------------------------------------------------------------

  function ChallengeLength(cipher: Cipher, keyLength: nat): nat
  {
    if cipher == Aes || (cipher == Iso && keyLength == 24) then 16 else 8
  }

  function BlockSize(cipher: Cipher): nat
  {
    if cipher == Aes then 16 else 8
  }

  function FirstBytes(s: Octets, n: nat): (t: Octets)
    ensures |t| == n
  {
    if |s| >= n then s[..n] else s + Zeros(n - |s|)
  }

  // ---- Traces ---------------------------------------------------------------------------

  predicate HoldsNative(s: Storage, h: Handshake, cipher: Cipher, key: nat)
  {
    && h.kind == Native(cipher) && h.key == key
    && s.NativeArm? && s.rndB == Stored(h.rndB) && |s.encrypted| >= 16
  }

  predicate HoldsEv2(s: Storage, h: Handshake, nonFirst: bool, key: nat)
  {
    && h.kind == (if nonFirst then NonFirst else First) && h.key == key
    && s.Ev2Arm? && s.rndB == h.rndB && |h.rndB| == RANDOM_LENGTH && s.master == h.master
    && (!nonFirst ==> s.ti == h.ti)
  }

  /** The last event completed the native handshake this session came from. */
  predicate NativeTrace(c: Crypto, log: seq<Event>, cipher: Cipher, key: nat, messaging: Option<Octets>)
  {
    && log != [] && log[|log| - 1].Completed?
    && var e := log[|log| - 1];
    && e.h.kind == Native(cipher) && e.h.key == key
    && messaging == Some(c.deriveNative(cipher, e.master, e.rndA, Stored(e.h.rndB)))
  }

  predicate Ev2Trace(c: Crypto, log: seq<Event>, key: nat, enc: Octets, mac: Octets)
  {
    && log != [] && log[|log| - 1].Completed?
    && var e := log[|log| - 1];
    && e.h.kind in {First, NonFirst} && e.h.key == key
    && c.deriveEv2(e.master, e.rndA, e.h.rndB) == Some((enc, mac))
  }

  lemma LogPush(log: seq<Event>, e: Event)
    requires LogOk(log)
    requires e.Completed? ==> Ends(log, Started(e.h)) && Matched(e.h, e.echo) && SameKey(e)
    ensures LogOk(log + [e])
    ensures LatestTi(log + [e]) == if e.Completed? && e.h.kind == First then Some(e.h.ti) else LatestTi(log)
    ensures Ends(log + [e], e)
  {
    LatestTiPush(log, e);
  }

  // ---- State ----------------------------------------------------------------------------

  /** The fields of a handshake in progress. */
  datatype Pending = Pending(step2: bool, cipher: Cipher, key: nat, ev2: bool, nonFirst: bool, ev2Key: nat,
                             storage: Storage)

  const NOTHING_PENDING: Pending := Pending(false, Legacy, 0, false, false, 0, Wiped)

  /** The fields of the native and the EV2 session. */
  datatype Sessions = Sessions(cipher: Option<Cipher>, key: nat, messaging: Option<Octets>,
                               ev2: bool, ev2Key: nat, enc: Octets, mac: Octets,
                               ti: Octets, cardCaps: Octets, readerCaps: Octets, counter: nat)

  function WithoutNative(s: Sessions): Sessions
  {
    s.(cipher := None, key := 0, messaging := None)
  }

  function WithoutEv2(s: Sessions, keepContext: bool): Sessions
  {
    var t := s.(ev2 := false, ev2Key := 0, enc := [], mac := []);
    if keepContext then t else t.(ti := [], cardCaps := [], readerCaps := [], counter := 0)
  }

  predicate Awaiting(p: Pending)
  {
    p.step2 || p.ev2
  }

  predicate Authenticated(s: Sessions)
  {
    s.cipher.Some? || s.ev2
  }

  /** At most one handshake is in progress, and it is the one started last. */
  predicate PendingOk(p: Pending, s: Sessions, log: seq<Event>, h: Handshake)
  {
    && !(p.step2 && p.ev2)
    && (Awaiting(p) ==> Ends(log, Started(h)))
    && (p.step2 ==> HoldsNative(p.storage, h, p.cipher, p.key))
    && (p.ev2 ==> HoldsEv2(p.storage, h, p.nonFirst, p.ev2Key))
    && (p.ev2 && p.nonFirst ==> LatestTi(log) == Some(s.ti))
    && (!Awaiting(p) ==> p.storage == Wiped)
  }

  /** At most one session is open, and it comes from the handshake completed last. */
  predicate SessionsOk(c: Crypto, s: Sessions, log: seq<Event>)
  {
    && !(s.cipher.Some? && s.ev2)
    && (s.cipher.Some? ==> NativeTrace(c, log, s.cipher.value, s.key, s.messaging))
    && (s.ev2 ==> Ev2Trace(c, log, s.ev2Key, s.enc, s.mac) && LatestTi(log) == Some(s.ti))
    && (s.cipher.None? ==> s.messaging.None?)
    && (!s.ev2 ==> s.enc == s.mac == [])
  }

  predicate StateOk(c: Crypto, p: Pending, s: Sessions, log: seq<Event>, h: Handshake)
  {
    && LogOk(log) && PendingOk(p, s, log, h) && SessionsOk(c, s, log)
    && (Awaiting(p) ==> !Authenticated(s))
  }

  /** A handshake starts: whatever session was open is gone. */
  lemma StartKeeps(c: Crypto, p: Pending, s: Sessions, log: seq<Event>, h: Handshake)
    requires LogOk(log) && SessionsOk(c, s, log) && !Authenticated(s)
    requires p.step2 != p.ev2
    requires p.step2 ==> HoldsNative(p.storage, h, p.cipher, p.key)
    requires p.ev2 ==> HoldsEv2(p.storage, h, p.nonFirst, p.ev2Key)
    requires p.ev2 && p.nonFirst ==> LatestTi(log) == Some(s.ti)
    ensures StateOk(c, p, s, log + [Started(h)], h)
  {
    LogPush(log, Started(h));
  }

  lemma CompleteNative(c: Crypto, s: Sessions, log: seq<Event>, h: Handshake, e: Event)
    requires LogOk(log) && Ends(log, Started(h)) && e.Completed? && e.h == h && Matched(h, e.echo)
    requires s.cipher.Some? && !s.ev2 && s.enc == s.mac == []
    requires h.kind == Native(s.cipher.value) && h.key == s.key
    requires s.messaging == Some(c.deriveNative(s.cipher.value, e.master, e.rndA, Stored(h.rndB)))
    ensures StateOk(c, NOTHING_PENDING, s, log + [e], h)
  {
    LogPush(log, e);
  }

  lemma CompleteEv2(c: Crypto, s: Sessions, log: seq<Event>, h: Handshake, e: Event)
    requires LogOk(log) && Ends(log, Started(h)) && e.Completed? && e.h == h && Matched(h, e.echo) && e.master == h.master
    requires s.ev2 && s.cipher.None? && s.messaging.None?
    requires h.kind in {First, NonFirst} && h.key == s.ev2Key
    requires c.deriveEv2(e.master, e.rndA, h.rndB) == Some((s.enc, s.mac))
    requires if h.kind == First then s.ti == h.ti else LatestTi(log) == Some(s.ti)
    ensures StateOk(c, NOTHING_PENDING, s, log + [e], h)
  {
    LogPush(log, e);
  }

  class Authenticator {
    const crypto: Crypto
    var pending: Pending
    var sessions: Sessions

    ghost var log: seq<Event>
    ghost var current: Handshake

    ghost predicate Valid()
      reads this
    {
      StateOk(crypto, pending, sessions, log, current)
    }

    constructor (crypto: Crypto)
      ensures Valid() && log == [] && !Awaiting(pending) && !Authenticated(sessions) && this.crypto == crypto
    {
      this.crypto := crypto;
      pending := NOTHING_PENDING;
      sessions := Sessions(None, 0, None, false, 0, [], [], [], [], [], 0);
      log, current := [], Handshake(First, 0, [], [], []);
    }

    // ---- Clearing ---------------------------------------------------------------------

    method ClearPending()
      requires Valid()
      modifies this`pending
      ensures Valid() && pending == NOTHING_PENDING
    {
      pending := NOTHING_PENDING;
    }

    method ClearActive()
      requires Valid() && pending == NOTHING_PENDING
      modifies this`sessions
      ensures Valid() && !Authenticated(sessions)
    {
      sessions := WithoutEv2(WithoutNative(sessions), false);
    }

    /** Ends the handshake in progress and any session with it. */
    method Fail()
      requires Valid()
      modifies this`pending, this`sessions
      ensures Valid() && pending == NOTHING_PENDING && !Authenticated(sessions)
    {
      ClearPending();
      ClearActive();
    }

    method Reject(status: Status) returns (r: Reply)
      requires Valid() && pending == NOTHING_PENDING
      modifies this`sessions
      ensures Valid() && !Authenticated(sessions) && r == Reply(status, [])
    {
      ClearActive();
      return Reply(status, []);
    }

    /** Another command arrives while work is pending. */
    method AbortPending(otherWork: bool) returns (aborted: bool)
      requires Valid()
      modifies this`pending, this`sessions
      ensures Valid() && !Awaiting(pending)
      ensures aborted == (old(Awaiting(pending)) || otherWork)
      ensures old(Awaiting(pending)) ==> !Authenticated(sessions)
      ensures !old(Awaiting(pending)) ==> sessions == old(sessions)
    {
      if !Awaiting(pending) && !otherWork { return false; }
      var authentication := Awaiting(pending);
      ClearPending();
      if authentication { ClearActive(); }
      return true;
    }

    // ---- Native handshake ---------------------------------------------------------------

    method Step1(card: Card, cipher: Cipher, key: nat, random: Option<Octets>, retryable: bool) returns (r: Reply)
      requires Valid() && KeepsLength(crypto)
      requires random.Some? ==> |random.value| == ChallengeLength(cipher, |card.keyOf(key)|)
      modifies this
      ensures Valid() && !pending.ev2
      ensures pending.step2 == (r.status == MoreFrames) == StartsNative(crypto, card, cipher, key, random)
      ensures pending.step2 ==>
        && random.Some? && current == Handshake(Native(cipher), key, random.value, [], [])
        && log == old(log) + [Started(current)]
        && Some(r.payload) == crypto.encrypt(cipher, card.keyOf(key), Zeros(16), random.value)
        && pending == NOTHING_PENDING.(step2 := true, cipher := cipher, key := key,
                                       storage := NativeArm(Stored(random.value), Stored(r.payload)))
      ensures pending.step2 ==> |r.payload| == (if cipher == Aes || (cipher == Iso && |card.keyOf(key)| == 24) then 16 else 8)
      ensures !pending.step2 ==> log == old(log) && r.payload == []
      ensures !pending.step2 ==>
        r.status == (if key in card.disabled then PermissionDenied else if key >= card.numKeys then NoSuchKey
                     else if Native(cipher) !in card.accepts then AuthenticationError else MemoryError)
      ensures !pending.step2 ==> !Authenticated(sessions) || (random.None? && retryable && sessions == old(sessions))
    {
      hide StateOk;
      ClearPending();
      if key in card.disabled {
        r := Reject(PermissionDenied);
        return;
      }
      if key >= card.numKeys {
        r := Reject(NoSuchKey);
        return;
      }
      if Native(cipher) !in card.accepts {
        r := Reject(AuthenticationError);
        return;
      }
      if random.None? {
        if !retryable { ClearActive(); }
        return Reply(MemoryError, []);
      }
      var encrypted := crypto.encrypt(cipher, card.keyOf(key), Zeros(16), random.value);
      ClearActive();
      if encrypted.None? { return Reply(MemoryError, []); }
      StartNative(cipher, key, random.value, encrypted.value);
      return Reply(MoreFrames, encrypted.value);
    }

    method StartNative(cipher: Cipher, key: nat, rndB: Octets, encrypted: Octets)
      requires Valid() && pending == NOTHING_PENDING && !Authenticated(sessions)
      modifies this`pending, this`log, this`current
      ensures Valid()
      ensures pending == NOTHING_PENDING.(step2 := true, cipher := cipher, key := key,
                                          storage := NativeArm(Stored(rndB), Stored(encrypted)))
      ensures current == Handshake(Native(cipher), key, rndB, [], []) && log == old(log) + [Started(current)]
    {
      hide LogOk, LatestTi, Stored;
      current := Handshake(Native(cipher), key, rndB, [], []);
      pending := NOTHING_PENDING.(step2 := true, cipher := cipher, key := key,
                                  storage := NativeArm(Stored(rndB), Stored(encrypted)));
      StartKeeps(crypto, pending, sessions, log, current);
      log := log + [Started(current)];
    }

    /** The reader's answer to a native challenge. A session opens only when the token
        carries the rotated challenge; every other outcome ends the handshake. */
    method Step2(card: Card, token: Octets, memory: bool) returns (r: Reply)
      requires Valid() && KeepsLength(crypto)
      modifies this
      ensures Valid() && !Awaiting(pending)
      ensures r.status == Ok ==> old(pending.step2) && sessions.cipher.Some?
      ensures (r.status == Ok) == (old(pending.step2) && old(AcceptsNative(crypto, card, pending, token, memory)))
      ensures r.status == Ok ==>
        var plain := old(NativePlain(crypto, card, pending, token)).value;
        var n := ChallengeLength(old(pending.cipher), |card.keyOf(old(pending.key))|);
        && log == old(log) + [Completed(old(current), card.keyOf(old(pending.key)), plain[..n], plain[n..])]
        && Some(r.payload) == crypto.encrypt(old(pending.cipher), card.keyOf(old(pending.key)),
                                             old(NativeIv(pending.storage, pending.cipher, n)), RotateLeft(plain[..n], 1))
        && sessions.cipher == Some(old(pending.cipher)) && sessions.key == old(pending.key)
        && sessions.messaging == Some(crypto.deriveNative(old(pending.cipher), card.keyOf(old(pending.key)), plain[..n],
                                                 old(pending.storage.rndB)))
      ensures r.status != Ok ==> log == old(log) && (old(pending.step2) ==> !Authenticated(sessions))
    {
      hide LogOk, LatestTi, Stored, NativeTrace, Ev2Trace;
      if !pending.step2 {
        ClearPending();
        return Reply(AuthenticationError, []);
      }
      var cipher, key := pending.cipher, card.keyOf(pending.key);
      var n := ChallengeLength(cipher, |key|);
      if |token| != 2 * n {
        Fail();
        return Reply(AuthenticationError, []);
      }
      var iv := NativeIv(pending.storage, cipher, n);
      var plain := crypto.decrypt(cipher, key, iv, token);
      if plain.None? {
        Fail();
        return Reply(MemoryError, []);
      }
      var rndA, echo := plain.value[..n], plain.value[n..];
      if echo != RotateLeft(pending.storage.rndB[..n], 1) {
        Fail();
        return Reply(AuthenticationError, []);
      }
      assert Matched(current, echo);
      var session := crypto.deriveNative(cipher, key, rndA, pending.storage.rndB);
      var answer := crypto.encrypt(cipher, key, iv, RotateLeft(rndA, 1));
      if answer.None? || !crypto.opens(cipher, session) || !memory {
        Fail();
        return Reply(MemoryError, []);
      }
      OpenNative(key, rndA, echo, session);
      return Reply(Ok, answer.value);
    }

    method OpenNative(master: Octets, rndA: Octets, echo: Octets, session: Octets)
      requires Valid() && pending.step2 && Matched(current, echo)
      requires session == crypto.deriveNative(pending.cipher, master, rndA, pending.storage.rndB)
      modifies this`pending, this`sessions, this`log
      ensures Valid() && pending == NOTHING_PENDING && sessions.cipher == Some(old(pending.cipher))
      ensures sessions.key == old(pending.key) && sessions.messaging == Some(session)
      ensures log == old(log) + [Completed(current, master, rndA, echo)]
    {
      hide LogOk, LatestTi, Stored, Matched;
      sessions := sessions.(messaging := Some(session), cipher := Some(pending.cipher), key := pending.key);
      sessions := WithoutEv2(sessions, false);
      CompleteNative(crypto, sessions, log, current, Completed(current, master, rndA, echo));
      pending := NOTHING_PENDING;
      log := log + [Completed(current, master, rndA, echo)];
    }

    // ---- EV2 handshake ------------------------------------------------------------------

    /** AuthenticateEV2First and NonFirst. A NonFirst keeps the transaction context of the
        session it replaces. */
    method StartEv2(card: Card, apdu: Octets, nonFirst: bool, random: Option<Octets>, retryable: bool)
      returns (r: Reply)
      requires Valid() && KeepsLength(crypto)
      requires random.Some? ==> |random.value| == RANDOM_LENGTH + (if nonFirst then 0 else TI_LENGTH)
      modifies this
      ensures Valid() && !pending.step2
      ensures pending.ev2 == (r.status == MoreFrames) == StartsEv2(crypto, card, old(sessions), apdu, nonFirst, random)
      ensures pending.ev2 ==> |apdu| >= 2 && random.Some? && pending.nonFirst == nonFirst
      ensures pending.ev2 ==>
        && current == Handshake(if nonFirst then NonFirst else First, apdu[1],
                                random.value[..RANDOM_LENGTH], random.value[RANDOM_LENGTH..], card.keyOf(apdu[1]))
        && log == old(log) + [Started(current)]
        && pending == NOTHING_PENDING.(ev2 := true, nonFirst := nonFirst, ev2Key := apdu[1],
                                       storage := ArmFor(card, apdu, nonFirst, random.value))
        && Some(r.payload) == crypto.encrypt(Aes, card.keyOf(apdu[1]), Zeros(16), current.rndB)
      ensures pending.ev2 ==> sessions == WithoutEv2(WithoutNative(old(sessions)), nonFirst)
      ensures !pending.ev2 ==> log == old(log) && r.payload == []
      ensures !pending.ev2 ==> !Authenticated(sessions) || (random.None? && retryable && sessions == old(sessions))
    {
      hide StateOk;
      ClearPending();
      if !card.ev2 {
        r := Reject(IllegalCommand);
        return;
      }
      if (nonFirst && |apdu| != 2) || (!nonFirst && |apdu| < 3) || (!nonFirst && |apdu| != 3 + apdu[2] as int) {
        r := Reject(LengthError);
        return;
      }
      if nonFirst && !sessions.ev2 {
        r := Reject(AuthenticationError);
        return;
      }
      var key := apdu[1];
      if key in card.disabled {
        r := Reject(PermissionDenied);
        return;
      }
      var kind := if nonFirst then NonFirst else First;
      if key !in card.available || kind !in card.accepts {
        r := Reject(NoSuchKey);
        return;
      }
      var master := card.keyOf(key);
      if |master| != AES_KEY_LENGTH {
        r := Reject(AuthenticationError);
        return;
      }
      if random.None? {
        if !retryable { ClearActive(); }
        return Reply(MemoryError, []);
      }
      var rndB, drawn := random.value[..RANDOM_LENGTH], random.value[RANDOM_LENGTH..];
      var encrypted := crypto.encrypt(Aes, master, Zeros(16), rndB);
      if encrypted.None? {
        r := Reject(MemoryError);
        return;
      }
      var arm := if nonFirst then Ev2Arm(master, rndB, [], [], [])
                 else Ev2Arm(master, rndB, drawn, FirstBytes(card.capabilities, CAPABILITY_LENGTH),
                             FirstBytes(apdu[3..], CAPABILITY_LENGTH));
      BeginEv2(Handshake(kind, key, rndB, drawn, master), nonFirst, arm);
      return Reply(MoreFrames, encrypted.value);
    }

    method BeginEv2(h: Handshake, nonFirst: bool, arm: Storage)
      requires Valid() && pending == NOTHING_PENDING && HoldsEv2(arm, h, nonFirst, h.key)
      requires nonFirst ==> sessions.ev2
      modifies this`pending, this`sessions, this`log, this`current
      ensures Valid() && pending == NOTHING_PENDING.(ev2 := true, nonFirst := nonFirst, ev2Key := h.key, storage := arm)
      ensures current == h && log == old(log) + [Started(h)]
      ensures sessions == WithoutEv2(WithoutNative(old(sessions)), nonFirst)
    {
      hide LogOk, LatestTi, HoldsEv2;
      sessions := WithoutEv2(WithoutNative(sessions), nonFirst);
      pending := NOTHING_PENDING.(ev2 := true, nonFirst := nonFirst, ev2Key := h.key, storage := arm);
      current := h;
      StartKeeps(crypto, pending, sessions, log, h);
      log := log + [Started(h)];
    }

    /** The reader's answer to an EV2 challenge. */
    method ContinueEv2(token: Octets) returns (r: Reply)
      requires Valid() && KeepsLength(crypto)
      modifies this
      ensures Valid() && !Awaiting(pending)
      ensures r.status == Ok ==> old(pending.ev2) && sessions.ev2 && sessions.counter == 0
      ensures r.status == Ok ==> old(AcceptsEv2(crypto, pending, token))
      ensures r.status == Ok ==>
        var clear := crypto.decrypt(Aes, old(pending.storage.master), Zeros(16), token).value;
        && log == old(log) + [Completed(old(current), old(pending.storage.master), clear[..RANDOM_LENGTH], clear[RANDOM_LENGTH..])]
        && Some(r.payload) == crypto.encrypt(Aes, old(pending.storage.master), Zeros(16), old(AnswerTo(pending, clear[..RANDOM_LENGTH])))
        && Some((sessions.enc, sessions.mac)) ==
             crypto.deriveEv2(old(pending.storage.master), clear[..RANDOM_LENGTH], old(pending.storage.rndB))
      ensures r.status == Ok ==> sessions == Opened(old(pending), old(sessions), sessions.enc, sessions.mac)
      ensures r.status != Ok ==> log == old(log) && (old(pending.ev2) ==> !Authenticated(sessions))
      ensures old(pending.ev2) && old(AcceptsEv2(crypto, pending, token)) ==> r.status == Ok
    {
      hide LogOk, LatestTi, NativeTrace, Ev2Trace;
      if !pending.ev2 {
        ClearPending();
        return Reply(AuthenticationError, []);
      }
      if |token| != 2 * RANDOM_LENGTH {
        Fail();
        return Reply(AuthenticationError, []);
      }
      var arm := pending.storage;
      var clear := crypto.decrypt(Aes, arm.master, Zeros(16), token);
      if clear.None? {
        Fail();
        return Reply(MemoryError, []);
      }
      var rndA, echo := clear.value[..RANDOM_LENGTH], clear.value[RANDOM_LENGTH..];
      if echo != RotateLeft(arm.rndB, 1) {
        Fail();
        return Reply(AuthenticationError, []);
      }
      MatchedWhole(current, echo);
      var keys := crypto.deriveEv2(arm.master, rndA, arm.rndB);
      if keys.None? {
        Fail();
        return Reply(MemoryError, []);
      }
      var answer := crypto.encrypt(Aes, arm.master, Zeros(16), AnswerTo(pending, rndA));
      if answer.None? {
        Fail();
        return Reply(MemoryError, []);
      }
      OpenEv2(arm.master, rndA, echo, keys.value.0, keys.value.1);
      return Reply(Ok, answer.value);
    }

    method OpenEv2(master: Octets, rndA: Octets, echo: Octets, enc: Octets, mac: Octets)
      requires Valid() && pending.ev2 && Matched(current, echo) && master == pending.storage.master
      requires crypto.deriveEv2(master, rndA, pending.storage.rndB) == Some((enc, mac))
      modifies this`pending, this`sessions, this`log
      ensures Valid() && pending == NOTHING_PENDING && sessions == Opened(old(pending), old(sessions), enc, mac)
      ensures log == old(log) + [Completed(current, master, rndA, echo)]
    {
      hide LogOk, LatestTi, Stored, Matched;
      var arm := pending.storage;
      sessions := sessions.(enc := enc, mac := mac, ev2Key := pending.ev2Key);
      if !pending.nonFirst {
        sessions := sessions.(ti := arm.ti, cardCaps := arm.cardCaps, readerCaps := arm.readerCaps);
      }
      sessions := WithoutNative(sessions.(ev2 := true, counter := 0));
      CompleteEv2(crypto, sessions, log, current, Completed(current, master, rndA, echo));
      pending := NOTHING_PENDING;
      log := log + [Completed(current, master, rndA, echo)];
    }
  }

  /** ISO and AES chain from the last block of the challenge sent. */
  function NativeIv(s: Storage, cipher: Cipher, n: nat): Octets
    requires s.NativeArm? && BlockSize(cipher) <= n <= |s.encrypted|
  {
    if cipher == Legacy then Zeros(8) else s.encrypted[n - BlockSize(cipher)..n]
  }

  /** The reader's token in the clear. */
  function NativePlain(c: Crypto, card: Card, p: Pending, token: Octets): Option<Octets>
  {
    var key := card.keyOf(p.key);
    var n := ChallengeLength(p.cipher, |key|);
    if p.storage.NativeArm? && |p.storage.encrypted| >= 16 && |token| == 2 * n
    then c.decrypt(p.cipher, key, NativeIv(p.storage, p.cipher, n), token)
    else None
  }

  /** A token that proves knowledge of the challenge and of the key. */
  predicate AcceptsNative(c: Crypto, card: Card, p: Pending, token: Octets, memory: bool)
  {
    var key := card.keyOf(p.key);
    var n := ChallengeLength(p.cipher, |key|);
    var plain := NativePlain(c, card, p, token);
    && plain.Some? && |plain.value| == 2 * n && |p.storage.rndB| >= n
    && plain.value[n..] == RotateLeft(p.storage.rndB[..n], 1)
    && c.encrypt(p.cipher, key, NativeIv(p.storage, p.cipher, n), RotateLeft(plain.value[..n], 1)).Some?
    && c.opens(p.cipher, c.deriveNative(p.cipher, key, plain.value[..n], p.storage.rndB)) && memory
  }

  lemma MatchedWhole(h: Handshake, echo: Octets)
    requires |h.rndB| == RANDOM_LENGTH && echo == RotateLeft(h.rndB, 1)
    ensures Matched(h, echo)
  {
  }

  /** The session an EV2 handshake opens: a First brings its own transaction identifier and
      capabilities, a NonFirst keeps those of the session before it. */
  function Opened(p: Pending, s: Sessions, enc: Octets, mac: Octets): Sessions
    requires p.storage.Ev2Arm?
  {
    var t := WithoutNative(s.(ev2 := true, ev2Key := p.ev2Key, enc := enc, mac := mac, counter := 0));
    if p.nonFirst then t
    else t.(ti := p.storage.ti, cardCaps := p.storage.cardCaps, readerCaps := p.storage.readerCaps)
  }

  /** What an EV2 handshake keeps: key and challenge, and for a First the new transaction
      identifier and six octets of each side's capabilities. */
  function ArmFor(card: Card, apdu: Octets, nonFirst: bool, random: Octets): (s: Storage)
    requires |apdu| >= (if nonFirst then 2 else 3) && |random| == RANDOM_LENGTH + (if nonFirst then 0 else TI_LENGTH)
    ensures s.Ev2Arm? && |s.rndB| == RANDOM_LENGTH
    ensures !nonFirst ==> |s.ti| == TI_LENGTH && |s.cardCaps| == |s.readerCaps| == CAPABILITY_LENGTH
  {
    if nonFirst then Ev2Arm(card.keyOf(apdu[1]), random[..RANDOM_LENGTH], [], [], [])
    else Ev2Arm(card.keyOf(apdu[1]), random[..RANDOM_LENGTH], random[RANDOM_LENGTH..],
                FirstBytes(card.capabilities, CAPABILITY_LENGTH), FirstBytes(apdu[3..], CAPABILITY_LENGTH))
  }

  /** The checks a native start command has to pass. */
  predicate StartsNative(c: Crypto, card: Card, cipher: Cipher, key: nat, random: Option<Octets>)
  {
    && key !in card.disabled && key < card.numKeys && Native(cipher) in card.accepts && random.Some?
    && c.encrypt(cipher, card.keyOf(key), Zeros(16), random.value).Some?
  }

  /** The checks an EV2 start command has to pass. */
  predicate StartsEv2(c: Crypto, card: Card, s: Sessions, apdu: Octets, nonFirst: bool, random: Option<Octets>)
  {
    && card.ev2 && (nonFirst ==> |apdu| == 2 && s.ev2)
    && (!nonFirst ==> |apdu| >= 3 && |apdu| == 3 + apdu[2] as int)
    && apdu[1] !in card.disabled && apdu[1] in card.available
    && (if nonFirst then NonFirst else First) in card.accepts
    && |card.keyOf(apdu[1])| == AES_KEY_LENGTH
    && random.Some? && |random.value| >= RANDOM_LENGTH
    && c.encrypt(Aes, card.keyOf(apdu[1]), Zeros(16), random.value[..RANDOM_LENGTH]).Some?
  }

  /** The card's answer: the reader's own challenge rotated, behind the new transaction
      identifier and before the capabilities when the handshake is a First. */
  function AnswerTo(p: Pending, rndA: Octets): Octets
    requires p.storage.Ev2Arm?
  {
    if p.nonFirst then RotateLeft(rndA, 1)
    else p.storage.ti + RotateLeft(rndA, 1) + p.storage.cardCaps + p.storage.readerCaps
  }

  /** A token that proves knowledge of the challenge and of the key. */
  predicate AcceptsEv2(c: Crypto, p: Pending, token: Octets)
  {
    && p.storage.Ev2Arm? && |token| == 2 * RANDOM_LENGTH
    && var clear := c.decrypt(Aes, p.storage.master, Zeros(16), token);
    && clear.Some? && |clear.value| == 2 * RANDOM_LENGTH
    && var rndA := clear.value[..RANDOM_LENGTH];
    && clear.value[RANDOM_LENGTH..] == RotateLeft(p.storage.rndB, 1)
    && c.deriveEv2(p.storage.master, rndA, p.storage.rndB).Some?
    && c.encrypt(Aes, p.storage.master, Zeros(16), AnswerTo(p, rndA)).Some?
  }

  // ---- Tracing a session ---------------------------------------------------------------

  /** The session's handshake is the last one started; the reader answered its challenge
      and no handshake was started since, and the session's keys are derived from the key and
      the two challenges of that handshake. An EV2 session's transaction identifier was
      drawn by a First that completed, and by the latest one. */
  ghost predicate SessionHasHandshake(c: Crypto, s: Sessions, log: seq<Event>)
  {
    && |log| >= 2
    && var e := log[|log| - 1];
    && e.Completed? && log[|log| - 2] == Started(e.h) && Matched(e.h, e.echo) && SameKey(e)
    && (s.cipher.Some? ==> e.h.kind == Native(s.cipher.value) && e.h.key == s.key
                           && s.messaging == Some(c.deriveNative(s.cipher.value, e.master, e.rndA, Stored(e.h.rndB))))
    && (s.ev2 ==> e.h.kind in {First, NonFirst} && e.h.key == s.ev2Key
                  && c.deriveEv2(e.h.master, e.rndA, e.h.rndB) == Some((s.enc, s.mac)))
    && (s.ev2 ==> exists i :: LatestFirst(log, i, s.ti))
  }

  predicate LatestFirst(log: seq<Event>, i: int, ti: Octets)
  {
    && 0 <= i < |log| && log[i].Completed? && log[i].h.kind == First && log[i].h.ti == ti
    && forall j :: i < j < |log| && log[j].Completed? ==> log[j].h.kind != First
  }

  lemma {:induction false} LatestTiFound(log: seq<Event>) returns (i: nat)
    requires LatestTi(log).Some?
    ensures LatestFirst(log, i, LatestTi(log).value)
  {
    var n := |log| - 1;
    if log[n].Completed? && log[n].h.kind == First {
      i := n;
    } else {
      i := LatestTiFound(log[..n]);
    }
  }

  lemma TracedToHandshake(c: Crypto, p: Pending, s: Sessions, log: seq<Event>, h: Handshake)
    requires StateOk(c, p, s, log, h)
    ensures Authenticated(s) ==> SessionHasHandshake(c, s, log)
  {
    if s.ev2 {
      var i := LatestTiFound(log);
    }
  }
}
