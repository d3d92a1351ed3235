/** The Noise protocol framework, revision 34, as far as its pattern IKpsk2 needs it: the symmetric state of its section
    5.2, the handshake state of section 5.3 with the preshared-key rules of section 9, and an interpreter of message
    patterns. The four handshake computations are this interpreter on the two messages of IKpsk2
    (wireguard/device/noise-protocol.go:177-549; wireguard/device/noise-helpers.go:24-63). */
module NoiseFramework {
  import opened Options
  import opened NoiseTerms
  import H = NoiseHandshake

  // ---------- symmetric state ----------

  /** The running hash, the chaining key, and the key and nonce of the next box. */
  datatype SymmetricState = SymmetricState(h: Term, ck: Term, k: Option<Term>, n: nat)

  /** Output `i` of HKDF. */
  function Hkdf(chainingKey: Term, input: Term, i: nat): Term
    requires i > 0
  {
    Hmac(Hmac(chainingKey, [input]), (if i == 1 then [] else [Hkdf(chainingKey, input, i - 1)]) + [Num(i)])
  }

  function InitializeSymmetric(protocolName: string): SymmetricState {
    var h := Hash(Nil, Text(protocolName));
    SymmetricState(h, h, None, 0)
  }

  function MixHash(s: SymmetricState, data: Term): SymmetricState {
    s.(h := Hash(s.h, data))
  }

  function MixKey(s: SymmetricState, input: Term): SymmetricState {
    s.(ck := Hkdf(s.ck, input, 1), k := Some(Hkdf(s.ck, input, 2)), n := 0)
  }

  function MixKeyAndHash(s: SymmetricState, input: Term): SymmetricState {
    MixHash(s, Hkdf(s.ck, input, 2)).(ck := Hkdf(s.ck, input, 1), k := Some(Hkdf(s.ck, input, 3)), n := 0)
  }

  /** Without a key the plaintext is sent as it is. None is a box with another nonce than zero, for which there is no
      term. */
  function EncryptAndHash(s: SymmetricState, plain: Term): Option<(SymmetricState, Term)> {
    if s.k.None? then Some((MixHash(s, plain), plain))
    else if s.n != 0 then None
    else Some((MixHash(s.(n := 1), Seal(s.k.value, plain, s.h)), Seal(s.k.value, plain, s.h)))
  }

  /** None also if the box was not sealed with this key and hash. */
  function DecryptAndHash(s: SymmetricState, data: Term): Option<(SymmetricState, Term)> {
    if s.k.None? then Some((MixHash(s, data), data))
    else if s.n != 0 || !data.Seal? || data.sealKey != s.k.value || data.ad != s.h then None
    else Some((MixHash(s.(n := 1), data), data.plain))
  }

  /** The key from the initiator to the responder, and the other one. */
  function Split(s: SymmetricState): (Term, Term) {
    (Hkdf(s.ck, Nil, 1), Hkdf(s.ck, Nil, 2))
  }

  // ---------- message patterns ----------

  datatype Token = E | S | EE | ES | SE | SS | PSK

  /** A pattern in which the initiator knows the responder's static key before; `name` is the protocol name. */
  datatype Pattern = Pattern(name: string, messages: seq<seq<Token>>)

  const IK_PSK2 := Pattern("Noise_IKpsk2_25519_ChaChaPoly_BLAKE2s", [[E, ES, S, SS], [E, EE, SE, PSK]])

  const PROLOGUE := "WireGuard v1 zx2c4 Jason@zx2c4.com"

  datatype HandshakeState = HandshakeState(sym: SymmetricState, initiator: bool, psk: Term, s: PrivateKey, e: Option<PrivateKey>,
                                           rs: Option<PublicKey>, re: Option<PublicKey>)

  /** The initiator knows the responder's static key, the responder does not know the initiator's. */
  function Initialize(pattern: Pattern, prologue: string, initiator: bool, psk: Term, s: PrivateKey, rs: PublicKey): HandshakeState {
    var sym := InitializeSymmetric(pattern.name);
    var known := if initiator then rs else PublicOf(s);
    HandshakeState(MixHash(MixHash(sym, Text(prologue)), Key(known)), initiator, psk, s, None, if initiator then Some(rs) else None, None)
  }

  function Dh(own: Option<PrivateKey>, remote: Option<PublicKey>): Option<Term> {
    if own.None? || remote.None? then None else SharedSecret(own.value, remote.value)
  }

  /** The secret of a token of two letters: the first is the initiator's key, the second the responder's. */
  function Secret(hs: HandshakeState, token: Token): Option<Term> {
    match token
    case EE => Dh(hs.e, hs.re)
    case ES => if hs.initiator then Dh(hs.e, hs.rs) else Dh(Some(hs.s), hs.re)
    case SE => if hs.initiator then Dh(Some(hs.s), hs.re) else Dh(hs.e, hs.rs)
    case SS => Dh(Some(hs.s), hs.rs)
    case _ => None
  }

  /** In a handshake with preshared keys, an ephemeral key is also mixed into the chaining key. */
  function MixEphemeral(s: SymmetricState, pk: PublicKey): SymmetricState {
    MixKey(MixHash(s, Key(pk)), Key(pk))
  }

  /** What a token that is not sent does to the state of either end. */
  function Mixed(hs: HandshakeState, token: Token): Option<HandshakeState> {
    if token == PSK then Some(hs.(sym := MixKeyAndHash(hs.sym, hs.psk)))
    else
      var secret := Secret(hs, token);
      if secret.None? then None else Some(hs.(sym := MixKey(hs.sym, secret.value)))
  }

  /** One token of a message that is written with the ephemeral key `e`, and what it adds to the message. */
  function WriteToken(hs: HandshakeState, token: Token, e: PrivateKey): Option<(HandshakeState, seq<Term>)> {
    match token
    case E => Some((hs.(e := Some(e), sym := MixEphemeral(hs.sym, PublicOf(e))), [Key(PublicOf(e))]))
    case S =>
      var box := EncryptAndHash(hs.sym, Key(PublicOf(hs.s)));
      if box.None? then None else Some((hs.(sym := box.value.0), [box.value.1]))
    case _ =>
      var mixed := Mixed(hs, token);
      if mixed.None? then None else Some((mixed.value, []))
  }

  function WriteTokens(hs: HandshakeState, tokens: seq<Token>, e: PrivateKey): Option<(HandshakeState, seq<Term>)>
    decreases tokens
  {
    if tokens == [] then Some((hs, []))
    else
      var first := WriteToken(hs, tokens[0], e);
      if first.None? then None
      else
        var rest := WriteTokens(first.value.0, tokens[1..], e);
        if rest.None? then None else Some((rest.value.0, first.value.1 + rest.value.1))
  }

  function WriteMessage(hs: HandshakeState, tokens: seq<Token>, e: PrivateKey, payload: Term): Option<(HandshakeState, seq<Term>)> {
    var head := WriteTokens(hs, tokens, e);
    if head.None? then None
    else
      var box := EncryptAndHash(head.value.0.sym, payload);
      if box.None? then None else Some((head.value.0.(sym := box.value.0), head.value.1 + [box.value.1]))
  }

  /** One token of a message that is read, and what is left of the message. */
  function ReadToken(hs: HandshakeState, token: Token, msg: seq<Term>): Option<(HandshakeState, seq<Term>)> {
    match token
    case E =>
      if msg == [] || !msg[0].Key? then None
      else Some((hs.(re := Some(msg[0].pk), sym := MixEphemeral(hs.sym, msg[0].pk)), msg[1..]))
    case S =>
      if msg == [] then None
      else
        var box := DecryptAndHash(hs.sym, msg[0]);
        if box.None? || !box.value.1.Key? then None else Some((hs.(rs := Some(box.value.1.pk), sym := box.value.0), msg[1..]))
    case _ =>
      var mixed := Mixed(hs, token);
      if mixed.None? then None else Some((mixed.value, msg))
  }

  function ReadTokens(hs: HandshakeState, tokens: seq<Token>, msg: seq<Term>): Option<(HandshakeState, seq<Term>)>
    decreases tokens
  {
    if tokens == [] then Some((hs, msg))
    else
      var first := ReadToken(hs, tokens[0], msg);
      if first.None? then None else ReadTokens(first.value.0, tokens[1..], first.value.1)
  }

  function ReadMessage(hs: HandshakeState, tokens: seq<Token>, msg: seq<Term>): Option<(HandshakeState, Term)> {
    var head := ReadTokens(hs, tokens, msg);
    if head.None? || |head.value.1| != 1 then None
    else
      var box := DecryptAndHash(head.value.0.sym, head.value.1[0]);
      if box.None? then None else Some((head.value.0.(sym := box.value.0), box.value.1))
  }

  // ---------- the handshake is IKpsk2 ----------

  function TranscriptOf(hs: HandshakeState): H.Transcript {
    H.Transcript(hs.sym.h, hs.sym.ck)
  }

  /** The key schedule of the program is HKDF. */
  lemma KdfIsHkdf(ck: Term, input: Term)
    ensures Kdf1(ck, input) == Hkdf(ck, input, 1)
    ensures Kdf2(ck, input) == (Hkdf(ck, input, 1), Hkdf(ck, input, 2))
    ensures Kdf3(ck, input) == (Hkdf(ck, input, 1), Hkdf(ck, input, 2), Hkdf(ck, input, 3))
  {
    assert [] + [Num(1)] == [Num(1)];
    assert [Hkdf(ck, input, 1)] + [Num(2)] == [Hkdf(ck, input, 1), Num(2)];
    assert [Hkdf(ck, input, 2)] + [Num(3)] == [Hkdf(ck, input, 2), Num(3)];
  }

  /** Tokens are written one after the other. */
  lemma WriteStep(hs: HandshakeState, token: Token, rest: seq<Token>, e: PrivateKey)
    ensures WriteToken(hs, token, e).None? ==> WriteTokens(hs, [token] + rest, e) == None
    ensures WriteToken(hs, token, e).Some? ==>
              var (hs', part) := WriteToken(hs, token, e).value;
              var tail := WriteTokens(hs', rest, e);
              WriteTokens(hs, [token] + rest, e) == if tail.None? then None else Some((tail.value.0, part + tail.value.1))
  {
    hide WriteToken;
    assert ([token] + rest)[1..] == rest;
  }

  lemma WriteNone(hs: HandshakeState, e: PrivateKey)
    ensures WriteTokens(hs, [], e) == Some((hs, []))
  {
  }

  lemma ReadStep(hs: HandshakeState, token: Token, rest: seq<Token>, msg: seq<Term>)
    ensures ReadToken(hs, token, msg).None? ==> ReadTokens(hs, [token] + rest, msg) == None
    ensures ReadToken(hs, token, msg).Some? ==>
              ReadTokens(hs, [token] + rest, msg) == ReadTokens(ReadToken(hs, token, msg).value.0, rest, ReadToken(hs, token, msg).value.1)
  {
    hide ReadToken;
    assert ([token] + rest)[1..] == rest;
  }

  lemma ReadNone(hs: HandshakeState, msg: seq<Term>)
    ensures ReadTokens(hs, [], msg) == Some((hs, msg))
  {
  }

  lemma WriteFour(hs: HandshakeState, a: Token, b: Token, c: Token, d: Token, e: PrivateKey)
    ensures var r := WriteTokens(hs, [a, b, c, d], e);
            var r1 := WriteToken(hs, a, e);
            if r1.None? then r == None
            else
              var r2 := WriteToken(r1.value.0, b, e);
              if r2.None? then r == None
              else
                var r3 := WriteToken(r2.value.0, c, e);
                if r3.None? then r == None
                else
                  var r4 := WriteToken(r3.value.0, d, e);
                  if r4.None? then r == None
                  else r == Some((r4.value.0, r1.value.1 + (r2.value.1 + (r3.value.1 + r4.value.1))))
  {
    hide WriteToken, WriteTokens;
    assert [a, b, c, d] == [a] + [b, c, d] && [b, c, d] == [b] + [c, d] && [c, d] == [c] + [d] && [d] == [d] + [];
    WriteStep(hs, a, [b, c, d], e);
    var r1 := WriteToken(hs, a, e);
    if r1.Some? {
      WriteStep(r1.value.0, b, [c, d], e);
      var r2 := WriteToken(r1.value.0, b, e);
      if r2.Some? {
        WriteStep(r2.value.0, c, [d], e);
        var r3 := WriteToken(r2.value.0, c, e);
        if r3.Some? {
          WriteStep(r3.value.0, d, [], e);
          var r4 := WriteToken(r3.value.0, d, e);
          if r4.Some? {
            WriteNone(r4.value.0, e);
            assert r4.value.1 + [] == r4.value.1;
          }
        }
      }
    }
  }

  lemma ReadFour(hs: HandshakeState, a: Token, b: Token, c: Token, d: Token, msg: seq<Term>)
    ensures var r := ReadTokens(hs, [a, b, c, d], msg);
            var r1 := ReadToken(hs, a, msg);
            if r1.None? then r == None
            else
              var r2 := ReadToken(r1.value.0, b, r1.value.1);
              if r2.None? then r == None
              else
                var r3 := ReadToken(r2.value.0, c, r2.value.1);
                r == if r3.None? then None else ReadToken(r3.value.0, d, r3.value.1)
  {
    hide ReadToken, ReadTokens;
    assert [a, b, c, d] == [a] + [b, c, d] && [b, c, d] == [b] + [c, d] && [c, d] == [c] + [d] && [d] == [d] + [];
    ReadStep(hs, a, [b, c, d], msg);
    var r1 := ReadToken(hs, a, msg);
    if r1.Some? {
      ReadStep(r1.value.0, b, [c, d], r1.value.1);
      var r2 := ReadToken(r1.value.0, b, r1.value.1);
      if r2.Some? {
        ReadStep(r2.value.0, c, [d], r2.value.1);
        var r3 := ReadToken(r2.value.0, c, r2.value.1);
        if r3.Some? {
          ReadStep(r3.value.0, d, [], r3.value.1);
          var r4 := ReadToken(r3.value.0, d, r3.value.1);
          if r4.Some? {
            ReadNone(r4.value.0, r4.value.1);
          }
        }
      }
    }
  }

  /** The state before the first message has been written or read. */
  lemma OpeningIs(initiator: bool, psk: Term, s: PrivateKey, rs: PublicKey, e: PublicKey)
    ensures var hs := Initialize(IK_PSK2, PROLOGUE, initiator, psk, s, rs);
            var sym := MixEphemeral(hs.sym, e);
            H.Opening(if initiator then rs else PublicOf(s), e) == H.Transcript(sym.h, sym.ck)
  {
    hide Hkdf;
    KdfIsHkdf(INITIAL_CHAIN_KEY, Key(e));
  }

  /** CreateMessageInitiation writes the first message of IKpsk2 with the timestamp as its payload. */
  lemma InitiationIsIK(psk: Term, sk: PrivateKey, remoteStatic: PublicKey, e: PrivateKey, now: nat)
    ensures var made := WriteMessage(Initialize(IK_PSK2, PROLOGUE, true, psk, sk, remoteStatic), IK_PSK2.messages[0], e, Stamp(now));
            var boxes := H.InitiationFor(sk, remoteStatic, SharedSecret(sk, remoteStatic), e, now);
            && (made.Some? <==> boxes.Some?)
            && (made.Some? ==>
                  && made.value.1 == [Key(PublicOf(e)), boxes.value.staticBox, boxes.value.stampBox]
                  && TranscriptOf(made.value.0) == boxes.value.transcript
                  && made.value.0.e == Some(e) && made.value.0.s == sk && made.value.0.psk == psk && made.value.0.initiator)
  {
    hide Hkdf, SharedSecret, H.Opening, WriteTokens, Initialize, MixEphemeral, Kdf2;
    var hs := Initialize(IK_PSK2, PROLOGUE, true, psk, sk, remoteStatic);
    WriteFour(hs, E, ES, S, SS, e);
    OpeningIs(true, psk, sk, remoteStatic, PublicOf(e));
    InitialKnows(true, psk, sk, remoteStatic);
    var t := H.Opening(remoteStatic, PublicOf(e));
    var es, ss := SharedSecret(e, remoteStatic), SharedSecret(sk, remoteStatic);
    if es.Some? {
      KdfIsHkdf(t.chainKey, es.value);
      if ss.Some? {
        KdfIsHkdf(Kdf2(t.chainKey, es.value).0, ss.value);
      }
    }
  }

  lemma InitialKnows(initiator: bool, psk: Term, s: PrivateKey, rs: PublicKey)
    ensures var hs := Initialize(IK_PSK2, PROLOGUE, initiator, psk, s, rs);
            && hs.initiator == initiator && hs.psk == psk && hs.s == s && hs.e == None && hs.re == None
            && hs.rs == (if initiator then Some(rs) else None) && hs.sym.k == None
  {
  }

  /** The tokens up to the initiator's static key, as the responder reads them. */
  lemma StaticRead(psk: Term, sk: PrivateKey, msg: H.MessageInitiation)
    ensures var hs := Initialize(IK_PSK2, PROLOGUE, false, psk, sk, LowOrder(0));
            var pk := H.InitiatorOf(sk, msg);
            var r1 := ReadToken(hs, E, [Key(msg.ephemeral), msg.staticBox, msg.stampBox]);
            && r1.Some?
            && var r2 := ReadToken(r1.value.0, ES, r1.value.1);
               if r2.None? then pk.None?
               else
                 var r3 := ReadToken(r2.value.0, S, r2.value.1);
                 && (r3.Some? <==> pk.Some?)
                 && (r3.Some? ==>
                       && r3.value.1 == [msg.stampBox] && IsHeard(r3.value.0, psk, sk, msg) && r3.value.0.rs == pk
                       && SharedSecret(sk, msg.ephemeral).Some?
                       && var t := H.Opening(PublicOf(sk), msg.ephemeral);
                          r3.value.0.sym.h == Hash(t.hash, msg.staticBox) && r3.value.0.sym.ck == Kdf2(t.chainKey, SharedSecret(sk, msg.ephemeral).value).0)
  {
    hide Hkdf, SharedSecret, H.Opening, Initialize, MixEphemeral, Kdf2;
    var m := [Key(msg.ephemeral), msg.staticBox, msg.stampBox];
    OpeningIs(false, psk, sk, LowOrder(0), msg.ephemeral);
    InitialKnows(false, psk, sk, LowOrder(0));
    assert m[1..] == [msg.staticBox, msg.stampBox] && m[1..][1..] == [msg.stampBox];
    var es := SharedSecret(sk, msg.ephemeral);
    if es.Some? {
      KdfIsHkdf(H.Opening(PublicOf(sk), msg.ephemeral).chainKey, es.value);
    }
  }

  /** The responder's own keys, and the ephemeral key of the message. */
  predicate IsHeard(hs: HandshakeState, psk: Term, sk: PrivateKey, msg: H.MessageInitiation) {
    hs.re == Some(msg.ephemeral) && hs.s == sk && hs.psk == psk && !hs.initiator
  }

  /** ConsumeMessageInitiation reads it. */
  lemma ConsumedInitiationIsIK(psk: Term, sk: PrivateKey, msg: H.MessageInitiation)
    ensures var read := ReadMessage(Initialize(IK_PSK2, PROLOGUE, false, psk, sk, LowOrder(0)), IK_PSK2.messages[0],
                                    [Key(msg.ephemeral), msg.staticBox, msg.stampBox]);
            var pk := H.InitiatorOf(sk, msg);
            && (read.Some? ==> pk.Some? && read.value.0.rs == pk && IsHeard(read.value.0, psk, sk, msg))
            && (pk.Some? ==>
                  var got := if read.Some? && read.value.1.Stamp? then Some(H.Consumed(read.value.1.t, TranscriptOf(read.value.0))) else None;
                  H.ConsumeInitiation(sk, SharedSecret(sk, pk.value), msg) == got)
  {
    hide Hkdf, SharedSecret, H.Opening, ReadTokens, Initialize, Kdf2, H.InitiatorOf;
    var hs := Initialize(IK_PSK2, PROLOGUE, false, psk, sk, LowOrder(0));
    ReadFour(hs, E, ES, S, SS, [Key(msg.ephemeral), msg.staticBox, msg.stampBox]);
    StaticRead(psk, sk, msg);
    var pk := H.InitiatorOf(sk, msg);
    if pk.Some? && SharedSecret(sk, pk.value).Some? {
      var ck1 := Kdf2(H.Opening(PublicOf(sk), msg.ephemeral).chainKey, SharedSecret(sk, msg.ephemeral).value).0;
      KdfIsHkdf(ck1, SharedSecret(sk, pk.value).value);
    }
  }

  /** The tokens of the second message at either end. */
  lemma FinishIs(sym: SymmetricState, e: PublicKey, ee: Term, se: Term, psk: Term)
    ensures var mixed := MixKeyAndHash(MixKey(MixKey(MixEphemeral(sym, e), ee), se), psk);
            && mixed.k.Some? && mixed.n == 0
            && H.FinishTranscript(H.Transcript(sym.h, sym.ck), e, ee, se, psk) == (H.Transcript(mixed.h, mixed.ck), mixed.k.value)
  {
    hide Hkdf, Kdf1, Kdf3;
    var ck1 := Kdf1(sym.ck, Key(e));
    var ck2 := Kdf1(ck1, ee);
    KdfIsHkdf(sym.ck, Key(e));
    KdfIsHkdf(ck1, ee);
    KdfIsHkdf(ck2, se);
    KdfIsHkdf(Kdf1(ck2, se), psk);
  }

  /** CreateMessageResponse writes the second message, with no payload. */
  lemma ResponseIsIK(hs: HandshakeState, e: PrivateKey)
    requires !hs.initiator && hs.rs.Some? && hs.re.Some?
    ensures var made := WriteMessage(hs, IK_PSK2.messages[1], e, Nil);
            var box := H.ResponseFor(TranscriptOf(hs), hs.re.value, hs.rs.value, hs.psk, e);
            && (made.Some? <==> box.Some?)
            && (made.Some? ==> made.value.1 == [Key(PublicOf(e)), box.value.emptyBox] && TranscriptOf(made.value.0) == box.value.transcript)
  {
    hide SharedSecret, WriteTokens, MixEphemeral, MixKey, MixKeyAndHash, H.FinishTranscript;
    WriteFour(hs, E, EE, SE, PSK, e);
    var ee, se := SharedSecret(e, hs.re.value), SharedSecret(e, hs.rs.value);
    if ee.Some? && se.Some? {
      FinishIs(hs.sym, PublicOf(e), ee.value, se.value, hs.psk);
    }
  }

  /** ConsumeMessageResponse reads it. */
  lemma ConsumedResponseIsIK(hs: HandshakeState, msg: H.MessageResponse)
    requires hs.initiator && hs.e.Some?
    ensures var read := ReadMessage(hs, IK_PSK2.messages[1], [Key(msg.ephemeral), msg.emptyBox]);
            var got := if read.Some? && read.value.1 == Nil then Some(TranscriptOf(read.value.0)) else None;
            H.ConsumeResponse(TranscriptOf(hs), hs.e.value, hs.s, hs.psk, msg) == got
  {
    hide SharedSecret, ReadTokens, MixEphemeral, MixKey, MixKeyAndHash, H.FinishTranscript;
    var m := [Key(msg.ephemeral), msg.emptyBox];
    ReadFour(hs, E, EE, SE, PSK, m);
    assert m[1..] == [msg.emptyBox];
    var ee, se := SharedSecret(hs.e.value, msg.ephemeral), SharedSecret(hs.s, msg.ephemeral);
    if ee.Some? && se.Some? {
      FinishIs(hs.sym, msg.ephemeral, ee.value, se.value, hs.psk);
    }
  }

  /** The transport keys are those of Split; the initiator sends with the first. */
  lemma KeysAreSplit(hs: HandshakeState)
    ensures H.SessionKeys(TranscriptOf(hs).chainKey, true) == Split(hs.sym)
    ensures H.SessionKeys(TranscriptOf(hs).chainKey, false) == (Split(hs.sym).1, Split(hs.sym).0)
  {
    KdfIsHkdf(hs.sym.ck, Nil);
  }
}
