/** Symbolic cryptography for the Noise IKpsk2 handshake: every primitive is a constructor of a free
    term algebra, and a Diffie-Hellman secret is the unordered pair of its two private keys
    (wireguard/device/noise-helpers.go:24-63, 100-108; wireguard/device/noise-protocol.go:135-175). */
module NoiseTerms {
  import opened Options

  /** Private keys are numbered; a public key is the point of a private key, or a low-order point,
      which makes every shared secret zero. */
  type PrivateKey = nat
  datatype PublicKey = Point(of: PrivateKey) | LowOrder(n: nat)

  datatype Term =
    | Nil                                       // no bytes
    | Zeroed                                    // an array overwritten with zeros
    | Text(s: string)
    | Num(n: nat)                               // a single byte
    | Key(pk: PublicKey)
    | Psk(k: nat)
    | Stamp(t: nat)                             // a TAI64N timestamp
    | Shared(lo: PrivateKey, hi: PrivateKey)
    | Hash(state: Term, data: Term)
    | Hmac(key: Term, input: seq<Term>)
    | Seal(sealKey: Term, plain: Term, ad: Term)

  function PublicOf(sk: PrivateKey): PublicKey {
    Point(sk)
  }

  /** NoisePrivateKey.sharedSecret: an error for a secret of all zeros. */
  function SharedSecret(sk: PrivateKey, pk: PublicKey): Option<Term> {
    match pk
    case LowOrder(_) => None
    case Point(other) => if sk <= other then Some(Shared(sk, other)) else Some(Shared(other, sk))
  }

  /** Both ends compute the same secret. */
  lemma SharedSecretAgrees(a: PrivateKey, b: PrivateKey)
    ensures SharedSecret(a, PublicOf(b)) == SharedSecret(b, PublicOf(a)) != None
  {
  }

  /** A secret computed with a known private key determines the other end's public key. */
  lemma SharedSecretInjective(sk: PrivateKey, p: PublicKey, q: PublicKey)
    requires SharedSecret(sk, p) == SharedSecret(sk, q) != None
    ensures p == q
  {
  }

  function Kdf1(key: Term, input: Term): Term {
    Hmac(Hmac(key, [input]), [Num(1)])
  }

  function Kdf2(key: Term, input: Term): (Term, Term) {
    var prk := Hmac(key, [input]);
    var t0 := Hmac(prk, [Num(1)]);
    (t0, Hmac(prk, [t0, Num(2)]))
  }

  function Kdf3(key: Term, input: Term): (Term, Term, Term) {
    var prk := Hmac(key, [input]);
    var t0 := Hmac(prk, [Num(1)]);
    var t1 := Hmac(prk, [t0, Num(2)]);
    (t0, t1, Hmac(prk, [t1, Num(3)]))
  }

  function MixHash(h: Term, data: Term): Term {
    Hash(h, data)
  }

  function MixKey(c: Term, data: Term): Term {
    Kdf1(c, data)
  }

  /** aead.Open with the zero nonce: the plaintext of a box sealed with this key and this
      associated data, and an error for anything else. */
  function Open(key: Term, box: Term, ad: Term): Option<Term> {
    if box.Seal? && box.sealKey == key && box.ad == ad then Some(box.plain) else None
  }

  const INITIAL_CHAIN_KEY: Term := Hash(Nil, Text("Noise_IKpsk2_25519_ChaChaPoly_BLAKE2s"))
  const INITIAL_HASH: Term := Hash(INITIAL_CHAIN_KEY, Text("WireGuard v1 zx2c4 Jason@zx2c4.com"))

  /** The chain functions lose nothing: equal outputs come from equal inputs. */
  lemma Kdf1Injective(k: Term, x: Term, k': Term, x': Term)
    requires Kdf1(k, x) == Kdf1(k', x')
    ensures k == k' && x == x'
  {
    assert [x][0] == [x'][0];
  }

  lemma Kdf2Injective(k: Term, x: Term, k': Term, x': Term)
    requires Kdf2(k, x).0 == Kdf2(k', x').0 || Kdf2(k, x).1 == Kdf2(k', x').1
    ensures k == k' && x == x'
  {
    var p, p' := Hmac(k, [x]), Hmac(k', [x']);
    assert Kdf2(k, x).1.input[0] == Kdf2(k, x).0 && Kdf2(k', x').1.input[0] == Kdf2(k', x').0;
    assert p == p';
    assert [x][0] == [x'][0];
  }

  lemma Kdf3Injective(k: Term, x: Term, k': Term, x': Term)
    requires Kdf3(k, x).1 == Kdf3(k', x').1 || Kdf3(k, x).2 == Kdf3(k', x').2
    ensures k == k' && x == x'
  {
    var p, p' := Hmac(k, [x]), Hmac(k', [x']);
    assert p == p';
    assert [x][0] == [x'][0];
  }

  /** The two keys derived in one call differ. */
  lemma Kdf2Distinct(k: Term, x: Term)
    ensures Kdf2(k, x).0 != Kdf2(k, x).1
  {
    assert |[Num(1)]| == 1;
  }
}
