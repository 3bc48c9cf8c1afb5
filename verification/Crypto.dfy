/**
 Ideal cryptography. Every primitive is a free constructor, so keys are equal
 only when everything that went into them is equal, and a sealed value opens
 only under the key that sealed it.
 */
module Crypto {
  import opened Encoding
  import opened Wrappers

  datatype Term =
    | Atom(bytes: Bytes)
    // HKDF: Derive(ikm, salt, info); a missing salt is Atom([]).
    | Kdf(ikm: Term, salt: Term, info: Bytes)
    // XChaCha20-Poly1305 under a random nonce, as Enigma.Encrypt produces it.
    | Seal(key: Term, nonce: nat, plain: Term)
    // ML-KEM decapsulation of ciphertext `ct` with the key pair of `pk`. With
    // implicit rejection it never fails: for a ciphertext made for another key it
    // is a secret nobody else holds.
    | Shared(pk: Bytes, ct: Bytes)

  /** Enigma.Decrypt. */
  function Dec(key: Term, c: Term): (r: Option<Term>)
  {
    if c.Seal? && c.key == key then Some(c.plain) else None
  }
}
