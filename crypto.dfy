/**
 * The cryptographic calls of the Python relays, as opaque collaborators.
 * RSA-OAEP and AES-GCM are library code; the relays only pass bytes in and out,
 * so the model takes the four calls as functions supplied by the caller and
 * keeps only their shapes: a 12-byte nonce, a 16-byte tag, and decryption that
 * may fail (a bad tag, a truncated nonce or tag, a wrong key size).
 */
module Crypto {
  import opened Bytes
  import opened Frame

  /** RSA key objects; the relays never look inside them. */
  type RsaKey = Bytes

  /** What `aes_encrypt` returns besides the nonce it drew. */
  datatype Sealed = Sealed(ciphertext: Bytes, tag: Tag)

  /**
   * `rsa_encrypt`, `rsa_decrypt`, and AES-GCM encryption and decryption. The random
   * nonce that `aes_encrypt` draws with `os.urandom(12)` is passed in; `None` stands
   * for an exception raised by the library.
   */
  datatype Primitives = Primitives(
    rsaEncrypt: (RsaKey, Bytes) -> Bytes,
    rsaDecrypt: (RsaKey, Bytes) -> Option<Bytes>,
    aesEncrypt: (Bytes, Nonce, Bytes) -> Option<Sealed>,
    aesDecrypt: (Bytes, Bytes, Bytes, Bytes) -> Option<Bytes>)

  /** The frame `aes_encrypt` output is sent as, or nothing when encryption raised. */
  function SealFrame(p: Primitives, key: Bytes, nonce: Nonce, plaintext: Bytes): (r: Option<Bytes>)
    ensures r.Some? <==> p.aesEncrypt(key, nonce, plaintext).Some?
  {
    match p.aesEncrypt(key, nonce, plaintext)
    case None => None
    case Some(s) => Some(Join(nonce, s.tag, s.ciphertext))
  }

  /** Decryption of a received frame, cut at offsets 12 and 28. */
  function OpenFrame(p: Primitives, key: Bytes, data: Bytes): Option<Bytes>
  {
    var parts := Split(data);
    p.aesDecrypt(key, parts.nonce, parts.ciphertext, parts.tag)
  }

  /** AES-GCM decrypts what it encrypted, under the same key and nonce. */
  ghost predicate AeadInverts(p: Primitives)
  {
    forall key: Bytes, nonce: Nonce, plaintext: Bytes ::
      p.aesEncrypt(key, nonce, plaintext).Some? ==>
        p.aesDecrypt(key, nonce, p.aesEncrypt(key, nonce, plaintext).value.ciphertext,
                     p.aesEncrypt(key, nonce, plaintext).value.tag) == Some(plaintext)
  }

  /** With a 32-byte key, AES-GCM encryption does not raise. */
  ghost predicate AeadAcceptsAes256(p: Primitives)
  {
    forall key: Bytes, nonce: Nonce, plaintext: Bytes :: |key| == KeyLength ==> p.aesEncrypt(key, nonce, plaintext).Some?
  }

  /** The private key recovers what was wrapped with the public key. */
  ghost predicate RsaMatches(p: Primitives, publicKey: RsaKey, privateKey: RsaKey)
  {
    forall m :: p.rsaDecrypt(privateKey, p.rsaEncrypt(publicKey, m)) == Some(m)
  }

  /** OAEP decryption with a private key of another pair fails. */
  ghost predicate RsaRejects(p: Primitives, publicKey: RsaKey, privateKey: RsaKey)
  {
    forall m :: p.rsaDecrypt(privateKey, p.rsaEncrypt(publicKey, m)) == None
  }

  /** The ciphertext size of RSA-OAEP under the 2048-bit keys `generate_rsa_keys` makes. */
  const RsaBlockLength: nat := 256

  /** OAEP decryption raises on a ciphertext that is not one full block. */
  ghost predicate RsaNeedsFullBlock(p: Primitives, privateKey: RsaKey)
  {
    forall c: Bytes :: |c| != RsaBlockLength ==> p.rsaDecrypt(privateKey, c).None?
  }

  /** A sealed frame opens to its plaintext: the writer's layout and the reader's offsets agree. */
  lemma OpenSealedFrame(p: Primitives, key: Bytes, nonce: Nonce, plaintext: Bytes)
    requires AeadInverts(p) && p.aesEncrypt(key, nonce, plaintext).Some?
    ensures SealFrame(p, key, nonce, plaintext).Some?
    ensures Split(SealFrame(p, key, nonce, plaintext).value).nonce == nonce
    ensures OpenFrame(p, key, SealFrame(p, key, nonce, plaintext).value) == Some(plaintext)
  {
    var s := p.aesEncrypt(key, nonce, plaintext).value;
    SplitJoin(nonce, s.tag, s.ciphertext);
  }
}
