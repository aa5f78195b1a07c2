/** Runs of authentication commands, and the handshakes of a reader that knows the key. */
module AuthenticationRuns {
  import opened Bytes
  import opened Authentication

  // ---- Runs -----------------------------------------------------------------------------

  datatype Request =
    | Step1Request(card: Card, cipher: Cipher, key: nat, random: Option<Octets>, retryable: bool)
    | Step2Request(card: Card, token: Octets, memory: bool)
    | StartRequest(card: Card, apdu: Octets, nonFirst: bool, random: Option<Octets>, retryable: bool)
    | ContinueRequest(token: Octets)
    | OtherCommand(otherWork: bool)
    | Reselect

  /** Random draws have the length that was asked for. */
  predicate Drawn(q: Request)
  {
    && (q.Step1Request? && q.random.Some? ==> |q.random.value| == ChallengeLength(q.cipher, |q.card.keyOf(q.key)|))
    && (q.StartRequest? && q.random.Some? ==>
          |q.random.value| == RANDOM_LENGTH + (if q.nonFirst then 0 else TI_LENGTH))
  }

  /** The token, deciphered under the key, is the two parts. */
  ghost predicate Deciphers(c: Crypto, cipher: Cipher, key: Octets, token: Octets, clear: Octets)
  {
    exists iv :: c.decrypt(cipher, key, iv, token) == Some(clear)
  }

  /** The request is one that makes this event: a start that passes its checks and draws the
      handshake's challenge, or a token that deciphers to what the event records. */
  ghost predicate Caused(c: Crypto, q: Request, e: Event)
  {
    match e
    case Started(h) =>
      || (q.Step1Request? && q.key !in q.card.disabled && q.key < q.card.numKeys && Native(q.cipher) in q.card.accepts
          && q.random.Some? && h == Handshake(Native(q.cipher), q.key, q.random.value, [], []))
      || (q.StartRequest? && |q.apdu| >= 2 && q.random.Some? && |q.random.value| >= RANDOM_LENGTH
          && q.apdu[1] !in q.card.disabled && q.apdu[1] in q.card.available && |q.card.keyOf(q.apdu[1])| == 16
          && (if q.nonFirst then NonFirst else First) in q.card.accepts
          && h == Handshake(if q.nonFirst then NonFirst else First, q.apdu[1], q.random.value[..RANDOM_LENGTH],
                            q.random.value[RANDOM_LENGTH..], q.card.keyOf(q.apdu[1])))
    case Completed(h, master, rndA, echo) =>
      || (q.Step2Request? && h.kind.Native? && master == q.card.keyOf(h.key)
          && Deciphers(c, h.kind.cipher, master, q.token, rndA + echo))
      || (q.ContinueRequest? && h.kind in {First, NonFirst} && master == h.master && Deciphers(c, Aes, master, q.token, rndA + echo))
  }

  /** One request adds at most one event, and one it is the cause of. */
  method Serve(a: Authenticator, q: Request) returns (ghost e: Option<Event>)
    requires a.Valid() && KeepsLength(a.crypto) && Drawn(q)
    modifies a
    ensures a.Valid() && a.log == old(a.log) + (if e.Some? then [e.value] else [])
    ensures e.Some? ==> Caused(a.crypto, q, e.value)
    ensures q.Step1Request? ==> (e.Some? <==> StartsNative(a.crypto, q.card, q.cipher, q.key, q.random))
    ensures q.StartRequest? ==> (e.Some? <==> StartsEv2(a.crypto, q.card, old(a.sessions), q.apdu, q.nonFirst, q.random))
    ensures q.Step2Request? ==> (e.Some? <==> old(a.pending.step2) && old(AcceptsNative(a.crypto, q.card, a.pending, q.token, q.memory)))
    ensures q.ContinueRequest? ==> (e.Some? <==> old(a.pending.ev2) && old(AcceptsEv2(a.crypto, a.pending, q.token)))
  {
    hide StateOk, KeepsLength, AcceptsNative, AcceptsEv2;
    e := None;
    match q
    case Step1Request(card, cipher, key, random, retryable) =>
      var r := a.Step1(card, cipher, key, random, retryable);
      e := if a.pending.step2 then Some(Started(a.current)) else None;
    case Step2Request(card, token, memory) => e := Answer2(a, card, token, memory);
    case StartRequest(card, apdu, nonFirst, random, retryable) =>
      var r := a.StartEv2(card, apdu, nonFirst, random, retryable);
      e := if a.pending.ev2 then Some(Started(a.current)) else None;
    case ContinueRequest(token) => e := AnswerEv2(a, token);
    case OtherCommand(otherWork) => var _ := a.AbortPending(otherWork);
    case Reselect => a.Fail();
  }

  method Answer2(a: Authenticator, card: Card, token: Octets, memory: bool) returns (ghost e: Option<Event>)
    requires a.Valid() && KeepsLength(a.crypto)
    modifies a
    ensures a.Valid() && a.log == old(a.log) + (if e.Some? then [e.value] else [])
    ensures e.Some? ==> Caused(a.crypto, Step2Request(card, token, memory), e.value)
    ensures e.Some? <==> old(a.pending.step2) && old(AcceptsNative(a.crypto, card, a.pending, token, memory))
  {
    hide KeepsLength, LogOk, LatestTi, NativeTrace, Ev2Trace;
    ghost var p := a.pending;
    ghost var plain := NativePlain(a.crypto, card, p, token);
    var r := a.Step2(card, token, memory);
    e := None;
    if r.status == Ok {
      ghost var n := ChallengeLength(p.cipher, |card.keyOf(p.key)|);
      e := Some(a.log[|a.log| - 1]);
      assert plain.value[..n] + plain.value[n..] == plain.value;
      assert a.crypto.decrypt(p.cipher, card.keyOf(p.key), NativeIv(p.storage, p.cipher, n), token) == plain;
    }
  }

  method AnswerEv2(a: Authenticator, token: Octets) returns (ghost e: Option<Event>)
    requires a.Valid() && KeepsLength(a.crypto)
    modifies a
    ensures a.Valid() && a.log == old(a.log) + (if e.Some? then [e.value] else [])
    ensures e.Some? ==> Caused(a.crypto, ContinueRequest(token), e.value)
    ensures e.Some? <==> old(a.pending.ev2) && old(AcceptsEv2(a.crypto, a.pending, token))
  {
    hide KeepsLength, LogOk, LatestTi, NativeTrace, Ev2Trace;
    ghost var p := a.pending;
    var r := a.ContinueEv2(token);
    e := None;
    if r.status == Ok {
      ghost var clear := a.crypto.decrypt(Aes, p.storage.master, Zeros(16), token);
      e := Some(a.log[|a.log| - 1]);
      assert clear.value[..RANDOM_LENGTH] + clear.value[RANDOM_LENGTH..] == clear.value;
    }
  }

  /** Each event has a request that caused it, in the order of the requests. */
  ghost predicate Explained(c: Crypto, requests: seq<Request>, log: seq<Event>, causes: seq<nat>)
  {
    && |causes| == |log|
    && (forall i :: 0 <= i < |log| ==> causes[i] < |requests| && Caused(c, requests[causes[i]], log[i]))
    && (forall i, j :: 0 <= i < j < |causes| ==> causes[i] < causes[j])
  }

  lemma ExplainedStep(c: Crypto, requests: seq<Request>, log: seq<Event>, causes: seq<nat>, k: nat, e: Option<Event>)
    requires k < |requests| && Explained(c, requests[..k], log, causes)
    requires e.Some? ==> Caused(c, requests[k], e.value)
    ensures Explained(c, requests[..k + 1], log + (if e.Some? then [e.value] else []),
                      causes + (if e.Some? then [k] else []))
  {
    hide Caused;
    assert forall i :: 0 <= i < k ==> requests[..k + 1][i] == requests[..k][i];
  }

  /** Whatever is asked, in whatever order: one handshake and one session at most, never
      both; every session comes from the handshake started last, and every event of the log
      from the request that caused it. */
  method ServeAll(crypto: Crypto, requests: seq<Request>) returns (a: Authenticator, ghost causes: seq<nat>)
    requires KeepsLength(crypto)
    requires forall i :: 0 <= i < |requests| ==> Drawn(requests[i])
    ensures fresh(a) && a.Valid() && a.crypto == crypto
    ensures !(a.pending.step2 && a.pending.ev2)
    ensures !(a.sessions.cipher.Some? && a.sessions.ev2)
    ensures Awaiting(a.pending) ==> !Authenticated(a.sessions)
    ensures Authenticated(a.sessions) ==> SessionHasHandshake(crypto, a.sessions, a.log)
    ensures Explained(crypto, requests, a.log, causes)
  {
    hide KeepsLength, Explained, Caused, SessionHasHandshake;
    a := new Authenticator(crypto);
    causes := [];
    assert Explained(crypto, requests[..0], a.log, causes) by { NothingExplained(crypto, requests[..0]); }
    for k := 0 to |requests|
      invariant fresh(a) && a.Valid() && a.crypto == crypto
      invariant Explained(crypto, requests[..k], a.log, causes)
    {
      ghost var before := a.log;
      ghost var e := Serve(a, requests[k]);
      ExplainedStep(crypto, requests, before, causes, k, e);
      causes := causes + (if e.Some? then [k] else []);
    }
    assert requests[..|requests|] == requests;
    TracedToHandshake(a.crypto, a.pending, a.sessions, a.log, a.current);
  }

  lemma NothingExplained(c: Crypto, requests: seq<Request>)
    ensures Explained(c, requests, [], [])
  {
  }

  // ---- A reader that knows the key ---------------------------------------------------------

  /** An initialisation vector as the ciphers are given it. */
  predicate IsIv(cipher: Cipher, iv: Octets)
  {
    |iv| == 16 || |iv| == BlockSize(cipher)
  }

  /** The ciphers take whole blocks only, and here at least one. */
  predicate Whole(cipher: Cipher, d: Octets)
  {
    |d| > 0 && |d| % BlockSize(cipher) == 0
  }

  /** What a reader can do with the key: decipher what the card enciphered, and make a token
      that the card deciphers to a given text. */
  datatype Reader = Reader(read: (Octets, Octets) -> Octets, token: (Octets, Octets) -> Octets)

  ghost predicate Knows(reader: Reader, c: Crypto, cipher: Cipher, key: Octets)
  {
    && (forall iv, d :: IsIv(cipher, iv) && c.encrypt(cipher, key, iv, d).Some? ==>
          reader.read(iv, c.encrypt(cipher, key, iv, d).value) == d)
    && (forall iv, d :: IsIv(cipher, iv) && Whole(cipher, d) ==> c.decrypt(cipher, key, iv, reader.token(iv, d)) == Some(d))
  }

  /** The card's cipher works on every whole number of blocks. */
  ghost predicate Enciphers(c: Crypto, cipher: Cipher, key: Octets)
  {
    forall iv, d :: IsIv(cipher, iv) && Whole(cipher, d) ==> c.encrypt(cipher, key, iv, d).Some?
  }

  /** A native session can be opened with any key derived from `key`. */
  ghost predicate OpensDerived(c: Crypto, cipher: Cipher, key: Octets)
  {
    forall x, y :: |x| == ChallengeLength(cipher, |key|) && |y| == RANDOM_LENGTH ==>
      c.opens(cipher, c.deriveNative(cipher, key, x, y))
  }

  ghost predicate DerivesEv2(c: Crypto, key: Octets)
  {
    forall x, y :: |x| == RANDOM_LENGTH && |y| == RANDOM_LENGTH ==> c.deriveEv2(key, x, y).Some?
  }

  /** A reader that knows the key completes a native handshake as long as no step of the
      card's own fails: it learns the challenge, finds its own one in the answer, and derives
      the session key the card holds. */
  method HonestNative(a: Authenticator, card: Card, cipher: Cipher, key: nat, reader: Reader, random: Octets, rndA: Octets)
    returns (rndB: Octets, answer: Octets, session: Octets)
    requires a.Valid() && KeepsLength(a.crypto)
    requires |random| == |rndA| == ChallengeLength(cipher, |card.keyOf(key)|)
    requires StartsNative(a.crypto, card, cipher, key, Some(random))
    requires Knows(reader, a.crypto, cipher, card.keyOf(key))
    requires Enciphers(a.crypto, cipher, card.keyOf(key)) && OpensDerived(a.crypto, cipher, card.keyOf(key))
    modifies a
    ensures rndA != [] && rndB == random && answer == rndA[1..] + [rndA[0]]
    ensures session == a.crypto.deriveNative(cipher, card.keyOf(key), rndA, Stored(rndB))
    ensures a.Valid() && a.sessions.cipher == Some(cipher) && a.sessions.key == key && a.sessions.messaging == Some(session)
  {
    hide StateOk, Stored, Knows, Enciphers, OpensDerived, KeepsLength, AcceptsNative;
    var master, n := card.keyOf(key), |random|;
    var challenge := a.Step1(card, cipher, key, Some(random), false);
    assert |challenge.payload| == n by { LengthKept(a.crypto, cipher, master, Zeros(16), random); }
    ReadsBack(reader, a.crypto, cipher, master, Zeros(16), random);
    rndB := reader.read(Zeros(16), challenge.payload);
    var iv := if cipher == Legacy then Zeros(8) else challenge.payload[n - BlockSize(cipher)..];
    SentIv(a.pending.storage, cipher, n, challenge.payload);
    var token := reader.token(iv, rndA + RotateLeft(rndB, 1));
    HonestNativeToken(a.crypto, card, a.pending, reader, iv, rndA);
    session := a.crypto.deriveNative(cipher, master, rndA, Stored(rndB));
    var r := a.Step2(card, token, true);
    ReadsBack(reader, a.crypto, cipher, master, iv, RotateLeft(rndA, 1));
    answer := reader.read(iv, r.payload);
    RotateByOne(rndA);
  }

  lemma LengthKept(c: Crypto, cipher: Cipher, key: Octets, iv: Octets, d: Octets)
    requires KeepsLength(c)
    ensures c.encrypt(cipher, key, iv, d).Some? ==> |c.encrypt(cipher, key, iv, d).value| == |d|
  {
  }

  /** The token of a reader that knows the key is accepted. */
  lemma HonestNativeToken(c: Crypto, card: Card, p: Pending, reader: Reader, iv: Octets, rndA: Octets)
    requires KeepsLength(c) && p.storage.NativeArm? && |p.storage.rndB| == RANDOM_LENGTH && |p.storage.encrypted| >= 16
    requires |rndA| == ChallengeLength(p.cipher, |card.keyOf(p.key)|) && iv == NativeIv(p.storage, p.cipher, |rndA|)
    requires Knows(reader, c, p.cipher, card.keyOf(p.key))
    requires Enciphers(c, p.cipher, card.keyOf(p.key)) && OpensDerived(c, p.cipher, card.keyOf(p.key))
    ensures var n := |rndA|; var clear := rndA + RotateLeft(p.storage.rndB[..n], 1); var token := reader.token(iv, clear);
      && AcceptsNative(c, card, p, token, true)
      && NativePlain(c, card, p, token) == Some(clear) && clear[..n] == rndA
  {
    hide RotateLeft;
    var n := |rndA|;
    var clear := rndA + RotateLeft(p.storage.rndB[..n], 1);
    var token := reader.token(iv, clear);
    assert Whole(p.cipher, clear) && Whole(p.cipher, RotateLeft(rndA, 1)) && IsIv(p.cipher, iv);
    assert c.decrypt(p.cipher, card.keyOf(p.key), iv, token) == Some(clear);
    assert clear[..n] == rndA && clear[n..] == RotateLeft(p.storage.rndB[..n], 1);
  }

  /** The vector the card uses is the end of the challenge it sent. */
  lemma SentIv(s: Storage, cipher: Cipher, n: nat, sent: Octets)
    requires s.NativeArm? && s.encrypted == Stored(sent) && |sent| == n && BlockSize(cipher) <= n
    ensures NativeIv(s, cipher, n) == if cipher == Legacy then Zeros(8) else sent[n - BlockSize(cipher)..]
  {
    hide Stored;
    assert s.encrypted[n - BlockSize(cipher)..n] == s.encrypted[..n][n - BlockSize(cipher)..];
  }

  /** A reader that knows the key completes an EV2 handshake as long as no step of the card's
      own fails: it learns the challenge, finds its own one in the answer, and derives the
      session keys the card holds. A First brings a new transaction identifier, which the
      answer carries; a NonFirst keeps the identifier and the capabilities of the session it
      replaces. */
  method HonestEv2(a: Authenticator, card: Card, apdu: Octets, nonFirst: bool, reader: Reader, random: Octets, rndA: Octets)
    returns (rndB: Octets, answer: Octets, keys: Option<(Octets, Octets)>)
    requires a.Valid() && KeepsLength(a.crypto) && |rndA| == RANDOM_LENGTH
    requires |random| == RANDOM_LENGTH + (if nonFirst then 0 else TI_LENGTH)
    requires StartsEv2(a.crypto, card, a.sessions, apdu, nonFirst, Some(random))
    requires Knows(reader, a.crypto, Aes, card.keyOf(apdu[1]))
    requires Enciphers(a.crypto, Aes, card.keyOf(apdu[1])) && DerivesEv2(a.crypto, card.keyOf(apdu[1]))
    modifies a
    ensures rndB == random[..RANDOM_LENGTH]
    ensures keys == a.crypto.deriveEv2(card.keyOf(apdu[1]), rndA, rndB)
    ensures a.Valid() && a.sessions.ev2 && a.sessions.ev2Key == apdu[1] && a.sessions.counter == 0
    ensures keys == Some((a.sessions.enc, a.sessions.mac))
    ensures nonFirst ==>
      && answer == rndA[1..] + [rndA[0]] && a.sessions.ti == old(a.sessions.ti)
      && a.sessions.cardCaps == old(a.sessions.cardCaps) && a.sessions.readerCaps == old(a.sessions.readerCaps)
    ensures !nonFirst ==>
      && a.sessions.ti == random[RANDOM_LENGTH..]
      && |a.sessions.cardCaps| == |a.sessions.readerCaps| == 6
      && (forall i :: 0 <= i < 6 ==>
            && a.sessions.cardCaps[i] == (if i < |card.capabilities| then card.capabilities[i] else 0)
            && a.sessions.readerCaps[i] == (if 3 + i < |apdu| then apdu[3 + i] else 0))
      && answer == a.sessions.ti + (rndA[1..] + [rndA[0]]) + a.sessions.cardCaps + a.sessions.readerCaps
  {
    hide StateOk;
    hide Knows, Enciphers, DerivesEv2, KeepsLength, AcceptsEv2;
    var key := card.keyOf(apdu[1]);
    var challenge := a.StartEv2(card, apdu, nonFirst, Some(random), false);
    ReadsBack(reader, a.crypto, Aes, key, Zeros(16), random[..RANDOM_LENGTH]);
    rndB := reader.read(Zeros(16), challenge.payload);
    var token := reader.token(Zeros(16), rndA + RotateLeft(rndB, 1));
    HonestToken(a.crypto, a.pending, reader, rndA);
    keys := a.crypto.deriveEv2(key, rndA, rndB);
    ghost var pending := a.pending;
    var r := a.ContinueEv2(token);
    ReadsBack(reader, a.crypto, Aes, key, Zeros(16), AnswerTo(pending, rndA));
    answer := reader.read(Zeros(16), r.payload);
    RotateByOne(rndA);
  }

  lemma ReadsBack(reader: Reader, c: Crypto, cipher: Cipher, key: Octets, iv: Octets, d: Octets)
    requires Knows(reader, c, cipher, key) && IsIv(cipher, iv)
    ensures c.encrypt(cipher, key, iv, d).Some? ==> reader.read(iv, c.encrypt(cipher, key, iv, d).value) == d
  {
  }

  /** The token of a reader that knows the key is accepted. */
  lemma HonestToken(c: Crypto, p: Pending, reader: Reader, rndA: Octets)
    requires KeepsLength(c) && p.storage.Ev2Arm? && |rndA| == |p.storage.rndB| == RANDOM_LENGTH
    requires !p.nonFirst ==> |p.storage.ti| == TI_LENGTH && |p.storage.cardCaps| == |p.storage.readerCaps| == CAPABILITY_LENGTH
    requires Knows(reader, c, Aes, p.storage.master)
    requires Enciphers(c, Aes, p.storage.master) && DerivesEv2(c, p.storage.master)
    ensures var token := reader.token(Zeros(16), rndA + RotateLeft(p.storage.rndB, 1));
      && AcceptsEv2(c, p, token)
      && c.decrypt(Aes, p.storage.master, Zeros(16), token) == Some(rndA + RotateLeft(p.storage.rndB, 1))
      && (rndA + RotateLeft(p.storage.rndB, 1))[..RANDOM_LENGTH] == rndA
  {
    hide RotateLeft;
    var clear := rndA + RotateLeft(p.storage.rndB, 1);
    var token := reader.token(Zeros(16), clear);
    assert Whole(Aes, clear) && IsIv(Aes, Zeros(16));
    assert c.decrypt(Aes, p.storage.master, Zeros(16), token) == Some(clear);
    assert clear[..RANDOM_LENGTH] == rndA && clear[RANDOM_LENGTH..] == RotateLeft(p.storage.rndB, 1);
    assert Whole(Aes, AnswerTo(p, rndA));
  }

  // ---- The hypotheses fit ciphers that refuse partial blocks -----------------------------------

  function SomeIf(ok: bool, d: Octets): Option<Octets>
  {
    if ok then Some(d) else None
  }

  /** Ciphers that refuse partial blocks, and sessions that refuse keys of the wrong length. */
  function Guarded(): Crypto
  {
    Crypto((cipher, key, iv, d) => SomeIf(Whole(cipher, d), d),
           (cipher, key, iv, d) => SomeIf(Whole(cipher, d), d),
           (cipher, key, x, y) => Zeros(16),
           (key, x, y) => if |x| == RANDOM_LENGTH && |y| == RANDOM_LENGTH then Some((x, y)) else None,
           (cipher, key) => |key| == 16)
  }

  /** The honest runs can be asked of ciphers with those guards. */
  lemma GuardsAllowed(cipher: Cipher, key: Octets)
    ensures KeepsLength(Guarded())
    ensures Knows(Reader((iv, d) => d, (iv, d) => d), Guarded(), cipher, key)
    ensures Enciphers(Guarded(), cipher, key) && OpensDerived(Guarded(), cipher, key) && DerivesEv2(Guarded(), key)
    ensures Guarded().encrypt(cipher, key, [], [0]).None? && !Guarded().opens(cipher, [])
  {
  }
}
