/**
 The envelope of an encrypted payload: a nonce, and behind it the ciphertext with its
 authentication tag. The cipher itself is abstract.
 */
module Envelope {
  import opened Wrappers
  import opened Chunker

  const NONCE_BYTES: nat := 12
  const KEY_BYTES: nat := 32
  const TAG_BYTES: nat := 16

  /** AES-256-GCM with additional authenticated data. */
  datatype Cipher = Cipher(
    encrypt: (Bytes, Bytes, Bytes, Bytes) -> Bytes,
    decrypt: (Bytes, Bytes, Bytes, Bytes) -> Option<Bytes>)

  /**
   What is assumed of the cipher, for keys and nonces of the right length: the tag makes every
   ciphertext at least 16 bytes long, decryption inverts encryption, and nothing else decrypts.
   */
  ghost predicate LawfulCipher(c: Cipher) {
    && (forall text, key, nonce, aad :: |key| == KEY_BYTES && |nonce| == NONCE_BYTES ==>
          |c.encrypt(text, key, nonce, aad)| >= TAG_BYTES
          && c.decrypt(c.encrypt(text, key, nonce, aad), key, nonce, aad) == Some(text))
    && (forall sealed, key, nonce, aad ::
          (|key| == KEY_BYTES && |nonce| == NONCE_BYTES && c.decrypt(sealed, key, nonce, aad).Some?) ==>
            sealed == c.encrypt(c.decrypt(sealed, key, nonce, aad).value, key, nonce, aad))
  }

  datatype CryptoError = InvalidKeyLength | TooShort | DecryptionFailed

  method SealPayload(c: Cipher, plaintext: Bytes, key: Bytes, nonce: Bytes, aad: Bytes)
    returns (r: Result<Bytes, CryptoError>)
    requires |nonce| == NONCE_BYTES
    ensures r == Sealed(c, plaintext, key, nonce, aad)
  {
    if |key| != KEY_BYTES {
      return Err(InvalidKeyLength);
    }
    var ciphertext := c.encrypt(plaintext, key, nonce, aad);
    var sealed := new Byte[|nonce| + |ciphertext|];
    SetAt(sealed, nonce, 0);
    assert sealed[..|nonce|] == nonce;
    SetAt(sealed, ciphertext, |nonce|);
    assert sealed[..] == sealed[..|nonce| + |ciphertext|];
    return Ok(sealed[..]);
  }

  function Sealed(c: Cipher, plaintext: Bytes, key: Bytes, nonce: Bytes, aad: Bytes): Result<Bytes, CryptoError> {
    if |key| != KEY_BYTES then Err(InvalidKeyLength) else Ok(nonce + c.encrypt(plaintext, key, nonce, aad))
  }

  /** Split the nonce off and decrypt the rest. */
  function Opened(c: Cipher, sealed: Bytes, key: Bytes, aad: Bytes): Result<Bytes, CryptoError> {
    if |sealed| < NONCE_BYTES + TAG_BYTES then Err(TooShort)
    else if |key| != KEY_BYTES then Err(InvalidKeyLength)
    else
      match c.decrypt(sealed[NONCE_BYTES..], key, sealed[..NONCE_BYTES], aad)
      case Some(text) => Ok(text)
      case None => Err(DecryptionFailed)
  }

  ghost predicate IsSealing(c: Cipher, sealed: Bytes, text: Bytes, key: Bytes, nonce: Bytes, aad: Bytes) {
    |nonce| == NONCE_BYTES && Sealed(c, text, key, nonce, aad) == Ok(sealed)
  }

  /** An envelope opens to a text exactly when it is that text, sealed under this key, AAD and some nonce. */
  lemma OpensExactlyWhatWasSealed(c: Cipher, sealed: Bytes, text: Bytes, key: Bytes, aad: Bytes)
    requires LawfulCipher(c)
    ensures Opened(c, sealed, key, aad) == Ok(text) <==> exists nonce :: IsSealing(c, sealed, text, key, nonce, aad)
  {
    if Opened(c, sealed, key, aad) == Ok(text) {
      var nonce, rest := sealed[..NONCE_BYTES], sealed[NONCE_BYTES..];
      assert sealed == nonce + rest;
      assert rest == c.encrypt(text, key, nonce, aad);
      assert IsSealing(c, sealed, text, key, nonce, aad);
    }
    forall nonce | IsSealing(c, sealed, text, key, nonce, aad) ensures Opened(c, sealed, key, aad) == Ok(text) {
      assert sealed[..NONCE_BYTES] == nonce;
      assert sealed[NONCE_BYTES..] == c.encrypt(text, key, nonce, aad);
    }
  }
}
