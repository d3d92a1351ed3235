/** The four handshake computations as functions of what each side knows, and what follows for both
    sides from a message being accepted (wireguard/device/noise-protocol.go:177-549). */
module NoiseHandshake {
  import opened NoiseTerms
  import opened Options

  datatype MessageInitiation = MessageInitiation(sender: nat, ephemeral: PublicKey, staticBox: Term, stampBox: Term)

  datatype MessageResponse = MessageResponse(sender: nat, receiver: nat, ephemeral: PublicKey, emptyBox: Term)

  /** The running hash and chaining key. */
  datatype Transcript = Transcript(hash: Term, chainKey: Term)

  // ---------- initiation ----------

  /** After the responder's static key and the initiator's ephemeral key have been mixed in. */
  function Opening(responder: PublicKey, ephemeral: PublicKey): Transcript {
    Transcript(MixHash(MixHash(INITIAL_HASH, Key(responder)), Key(ephemeral)), MixKey(INITIAL_CHAIN_KEY, Key(ephemeral)))
  }

  datatype InitiationBoxes = InitiationBoxes(staticBox: Term, stampBox: Term, transcript: Transcript)

  /** CreateMessageInitiation: the initiator with static key `sk` talks to `remoteStatic`, with which
      it shares `staticStatic`; None is its error return. */
  function InitiationFor(sk: PrivateKey, remoteStatic: PublicKey, staticStatic: Option<Term>, e: PrivateKey, now: nat): Option<InitiationBoxes> {
    var t := Opening(remoteStatic, PublicOf(e));
    var es := SharedSecret(e, remoteStatic);
    if es.None? || staticStatic.None? then None
    else
      var (ck1, key1) := Kdf2(t.chainKey, es.value);
      var staticBox := Seal(key1, Key(PublicOf(sk)), t.hash);
      var h1 := MixHash(t.hash, staticBox);
      var (ck2, key2) := Kdf2(ck1, staticStatic.value);
      var stampBox := Seal(key2, Stamp(now), h1);
      Some(InitiationBoxes(staticBox, stampBox, Transcript(MixHash(h1, stampBox), ck2)))
  }

  /** The first half of ConsumeMessageInitiation: decrypt the initiator's static key. */
  function InitiatorOf(sk: PrivateKey, msg: MessageInitiation): Option<PublicKey> {
    var t := Opening(PublicOf(sk), msg.ephemeral);
    var es := SharedSecret(sk, msg.ephemeral);
    if es.None? then None
    else
      var key1 := Kdf2(t.chainKey, es.value).1;
      var box := Open(key1, msg.staticBox, t.hash);
      if box.Some? && box.value.Key? then Some(box.value.pk) else None
  }

  datatype Consumed = Consumed(timestamp: nat, transcript: Transcript)

  /** The second half: verify the timestamp with the secret shared with that peer. */
  function ConsumeInitiation(sk: PrivateKey, staticStatic: Option<Term>, msg: MessageInitiation): Option<Consumed> {
    var t := Opening(PublicOf(sk), msg.ephemeral);
    var es := SharedSecret(sk, msg.ephemeral);
    if es.None? || staticStatic.None? then None
    else
      var ck1 := Kdf2(t.chainKey, es.value).0;
      var h1 := MixHash(t.hash, msg.staticBox);
      var (ck2, key2) := Kdf2(ck1, staticStatic.value);
      var box := Open(key2, msg.stampBox, h1);
      if box.Some? && box.value.Stamp?
      then Some(Consumed(box.value.t, Transcript(MixHash(h1, msg.stampBox), ck2)))
      else None
  }

  /** An initiation is accepted exactly by the device it was made for and under the secret it was
      made with, and then both ends hold the same transcript, and the responder has learned the
      initiator's key and timestamp. */
  lemma InitiationAgreement(a: PrivateKey, remoteStatic: PublicKey, ssA: Option<Term>, e: PrivateKey, now: nat,
                            b: PrivateKey, ssB: Option<Term>, sender: nat)
    requires InitiationFor(a, remoteStatic, ssA, e, now).Some?
    ensures var boxes := InitiationFor(a, remoteStatic, ssA, e, now).value;
            var msg := MessageInitiation(sender, PublicOf(e), boxes.staticBox, boxes.stampBox);
            && (InitiatorOf(b, msg).Some? <==> remoteStatic == PublicOf(b))
            && (InitiatorOf(b, msg).Some? ==> InitiatorOf(b, msg).value == PublicOf(a))
            && (ConsumeInitiation(b, ssB, msg).Some? <==> remoteStatic == PublicOf(b) && ssA == ssB)
            && (ConsumeInitiation(b, ssB, msg).Some? ==> ConsumeInitiation(b, ssB, msg).value == Consumed(now, boxes.transcript))
  {
    SharedSecretAgrees(e, b);
  }

  /** An accepted initiation is one that its sender could have made: whatever the message, if `b` accepts it from
      the peer with key `pk`, then it is the initiation of the owner of that key to `b`, for some ephemeral
      key and the timestamp `b` reads, and `b` holds its transcript. */
  lemma OnlyInitiations(b: PrivateKey, msg: MessageInitiation, pk: PublicKey) returns (a: PrivateKey, e: PrivateKey)
    requires InitiatorOf(b, msg) == Some(pk) && ConsumeInitiation(b, SharedSecret(b, pk), msg).Some?
    ensures pk == PublicOf(a) && msg.ephemeral == PublicOf(e)
    ensures var got := ConsumeInitiation(b, SharedSecret(b, pk), msg).value;
            var made := InitiationFor(a, PublicOf(b), SharedSecret(a, PublicOf(b)), e, got.timestamp);
            made == Some(InitiationBoxes(msg.staticBox, msg.stampBox, got.transcript))
  {
    a, e := pk.of, msg.ephemeral.of;
    SharedSecretAgrees(a, b);
    SharedSecretAgrees(e, b);
  }

  // ---------- response ----------

  datatype ResponseBox = ResponseBox(emptyBox: Term, transcript: Transcript)

  /** The three Diffie-Hellman and preshared-key steps both ends take: mix in the responder's
      ephemeral key, the two secrets and the preshared key. */
  function FinishTranscript(t: Transcript, ephemeral: PublicKey, ee: Term, se: Term, psk: Term): (Transcript, Term) {
    var h1 := MixHash(t.hash, Key(ephemeral));
    var ck := MixKey(MixKey(MixKey(t.chainKey, Key(ephemeral)), ee), se);
    var (ck', tau, key) := Kdf3(ck, psk);
    (Transcript(MixHash(h1, tau), ck'), key)
  }

  /** CreateMessageResponse from the responder's state; None is its error return. */
  function ResponseFor(t: Transcript, remoteEphemeral: PublicKey, remoteStatic: PublicKey, psk: Term, e: PrivateKey): Option<ResponseBox> {
    var ee := SharedSecret(e, remoteEphemeral);
    var se := SharedSecret(e, remoteStatic);
    if ee.None? || se.None? then None
    else
      var (t', key) := FinishTranscript(t, PublicOf(e), ee.value, se.value, psk);
      var emptyBox := Seal(key, Nil, t'.hash);
      Some(ResponseBox(emptyBox, t'.(hash := MixHash(t'.hash, emptyBox))))
  }

  /** ConsumeMessageResponse from the initiator's state: the final transcript, or None. The field of the box has
      room for an empty plaintext only. */
  function ConsumeResponse(t: Transcript, localEphemeral: PrivateKey, sk: PrivateKey, psk: Term, msg: MessageResponse): Option<Transcript> {
    var ee := SharedSecret(localEphemeral, msg.ephemeral);
    var se := SharedSecret(sk, msg.ephemeral);
    if ee.None? || se.None? then None
    else
      var (t', key) := FinishTranscript(t, msg.ephemeral, ee.value, se.value, psk);
      if Open(key, msg.emptyBox, t'.hash) == Some(Nil) then Some(t'.(hash := MixHash(t'.hash, msg.emptyBox))) else None
  }

  lemma FinishInjective(t: Transcript, e: PublicKey, ee: Term, se: Term, psk: Term,
                        t': Transcript, ee': Term, se': Term, psk': Term)
    requires FinishTranscript(t, e, ee, se, psk).1 == FinishTranscript(t', e, ee', se', psk').1
    requires FinishTranscript(t, e, ee, se, psk).0.hash == FinishTranscript(t', e, ee', se', psk').0.hash
    ensures t == t' && ee == ee' && se == se' && psk == psk'
  {
    var c1, c1' := MixKey(t.chainKey, Key(e)), MixKey(t'.chainKey, Key(e));
    var c2, c2' := MixKey(c1, ee), MixKey(c1', ee');
    Kdf3Injective(MixKey(c2, se), psk, MixKey(c2', se'), psk');
    Kdf1Injective(c2, se, c2', se');
    Kdf1Injective(c1, ee, c1', ee');
    Kdf1Injective(t.chainKey, Key(e), t'.chainKey, Key(e));
  }

  /** A response is accepted exactly when the responder answered this very handshake: same
      transcript so far, the initiator's own ephemeral and static keys, and the same preshared key.
      Whatever states the two ends are in, acceptance means full agreement afterwards. */
  lemma ResponseAgreement(tA: Transcript, eA: PrivateKey, a: PrivateKey, pskA: Term,
                          tB: Transcript, remoteEphemeral: PublicKey, remoteStatic: PublicKey, pskB: Term, eB: PrivateKey,
                          sender: nat, receiver: nat)
    requires ResponseFor(tB, remoteEphemeral, remoteStatic, pskB, eB).Some?
    ensures var box := ResponseFor(tB, remoteEphemeral, remoteStatic, pskB, eB).value;
            var msg := MessageResponse(sender, receiver, PublicOf(eB), box.emptyBox);
            var got := ConsumeResponse(tA, eA, a, pskA, msg);
            && (got.Some? <==> tA == tB && remoteEphemeral == PublicOf(eA) && remoteStatic == PublicOf(a) && pskA == pskB)
            && (got.Some? ==> got.value == box.transcript)
  {
    hide FinishTranscript, SharedSecret;
    var box := ResponseFor(tB, remoteEphemeral, remoteStatic, pskB, eB).value;
    var msg := MessageResponse(sender, receiver, PublicOf(eB), box.emptyBox);
    SharedSecretAgrees(eA, eB);
    SharedSecretAgrees(a, eB);
    if ConsumeResponse(tA, eA, a, pskA, msg).Some? {
      var eeA, seA := SharedSecret(eA, PublicOf(eB)).value, SharedSecret(a, PublicOf(eB)).value;
      var eeB, seB := SharedSecret(eB, remoteEphemeral).value, SharedSecret(eB, remoteStatic).value;
      FinishInjective(tA, PublicOf(eB), eeA, seA, pskA, tB, eeB, seB, pskB);
      SharedSecretInjective(eB, remoteEphemeral, PublicOf(eA));
      SharedSecretInjective(eB, remoteStatic, PublicOf(a));
    }
  }

  /** An accepted response is one to this very handshake: whatever the message, if the initiator accepts it, then
      it is the response a responder with the same transcript and preshared key makes to the initiator's keys,
      for some ephemeral key, and the initiator holds its transcript. */
  lemma OnlyResponses(t: Transcript, localEphemeral: PrivateKey, sk: PrivateKey, psk: Term, msg: MessageResponse) returns (e: PrivateKey)
    requires ConsumeResponse(t, localEphemeral, sk, psk, msg).Some?
    ensures msg.ephemeral == PublicOf(e)
    ensures ResponseFor(t, PublicOf(localEphemeral), PublicOf(sk), psk, e)
         == Some(ResponseBox(msg.emptyBox, ConsumeResponse(t, localEphemeral, sk, psk, msg).value))
  {
    hide FinishTranscript;
    e := msg.ephemeral.of;
    SharedSecretAgrees(localEphemeral, e);
    SharedSecretAgrees(sk, e);
  }

  // ---------- the session ----------

  /** The transport keys (send, receive) of the two ends. */
  function SessionKeys(chainKey: Term, isInitiator: bool): (Term, Term) {
    var (k1, k2) := Kdf2(chainKey, Nil);
    if isInitiator then (k1, k2) else (k2, k1)
  }

  /** Two ends whose roles differ have crossed keys exactly when their chaining keys agree, and the two
      directions never use the same key. */
  lemma SessionKeysCross(ckA: Term, ckB: Term)
    ensures var (sendA, recvA) := SessionKeys(ckA, true);
            var (sendB, recvB) := SessionKeys(ckB, false);
            && (sendA == recvB <==> ckA == ckB) && (recvA == sendB <==> ckA == ckB)
            && sendA != recvA
  {
    Kdf2Distinct(ckA, Nil);
    if Kdf2(ckA, Nil).0 == Kdf2(ckB, Nil).0 || Kdf2(ckA, Nil).1 == Kdf2(ckB, Nil).1 {
      Kdf2Injective(ckA, Nil, ckB, Nil);
    }
  }

  /** A full run: for all keys, the honest messages are accepted and lead both ends to the same
      transcript and crossed transport keys, if and only if the preshared keys agree. */
  lemma SessionAgreement(a: PrivateKey, b: PrivateKey, eA: PrivateKey, eB: PrivateKey, pskA: Term, pskB: Term,
                         now: nat, indexA: nat, indexB: nat)
    ensures var ss := SharedSecret(a, PublicOf(b));
            var init := InitiationFor(a, PublicOf(b), ss, eA, now);
            init.Some? &&
            var msg1 := MessageInitiation(indexA, PublicOf(eA), init.value.staticBox, init.value.stampBox);
            InitiatorOf(b, msg1) == Some(PublicOf(a)) &&
            var got1 := ConsumeInitiation(b, SharedSecret(b, PublicOf(a)), msg1);
            got1.Some? && got1.value.timestamp == now &&
            var resp := ResponseFor(got1.value.transcript, PublicOf(eA), PublicOf(a), pskB, eB);
            resp.Some? &&
            var msg2 := MessageResponse(indexB, indexA, PublicOf(eB), resp.value.emptyBox);
            var got2 := ConsumeResponse(init.value.transcript, eA, a, pskA, msg2);
            && (got2.Some? <==> pskA == pskB)
            && (got2.Some? ==>
                  && got2.value == resp.value.transcript
                  && var (sendA, recvA) := SessionKeys(got2.value.chainKey, true);
                     var (sendB, recvB) := SessionKeys(resp.value.transcript.chainKey, false);
                     sendA == recvB && recvA == sendB && sendA != recvA)
  {
    hide Kdf2, Kdf3, FinishTranscript, Opening, Open;
    SharedSecretAgrees(a, b);
    SharedSecretAgrees(eA, b);
    SharedSecretAgrees(eA, eB);
    SharedSecretAgrees(a, eB);
    var ss := SharedSecret(a, PublicOf(b));
    var init := InitiationFor(a, PublicOf(b), ss, eA, now);
    InitiationAgreement(a, PublicOf(b), ss, eA, now, b, ss, indexA);
    var resp := ResponseFor(init.value.transcript, PublicOf(eA), PublicOf(a), pskB, eB);
    ResponseAgreement(init.value.transcript, eA, a, pskA, init.value.transcript, PublicOf(eA), PublicOf(a), pskB, eB, indexB, indexA);
    SessionKeysCross(resp.value.transcript.chainKey, resp.value.transcript.chainKey);
  }
}
