/**
 * The foreign primitives the extension calls, as a free term algebra: libsodium sealed
 * boxes (`sodium_crypto_box_seal`, `sodium_crypto_box_seal_open` over a key pair rebuilt
 * from a secret and a public key), Defuse symmetric encryption (`Crypto::encrypt`,
 * `Crypto::decrypt`), password-protected keys (`KeyProtectedByPassword`), the ascii-safe
 * encodings of keys, and `json_encode` of a field-set. A ciphertext is the term that built
 * it, so every round trip holds and every mismatch of keys fails; their lemmas below are
 * the properties the extension relies on.
 */
module Primitives {
  import opened Wrappers

  /** A Defuse symmetric key; `seed` stands for the randomness it was created from. */
  datatype Key = Key(seed: nat)

  /** A libsodium box secret key, and the public key derived from it. */
  datatype SecretKey = SecretKey(seed: nat)
  datatype PublicKey = PublicKey(seed: nat)

  function PublicKeyOf(sk: SecretKey): PublicKey {
    PublicKey(sk.seed)
  }

  /** A `KeyProtectedByPassword`: a random symmetric key wrapped under a password. */
  datatype ProtectedKey = ProtectedKey(password: string, wrapped: Key)

  /** One entry of a submitted field-set: the field's name, its form type and its value. */
  datatype Field = Field(name: string, kind: string, value: string)

  type FieldSet = seq<Field>

  /**
   * A PHP string as the extension handles it: plain text, or the output of one of the
   * primitives (whose bytes are opaque to the extension).
   */
  datatype Bytes =
    | Text(s: string)
    | SealedBox(recipient: PublicKey, sealed: Bytes)
    | Ciphertext(key: Key, encrypted: Bytes)
    | SecretKeyBytes(secret: SecretKey)
    | KeyAscii(key: Key)
    | ProtectedKeyAscii(protected: ProtectedKey)
    | Json(fields: FieldSet)

  /** `empty($b)`: only "" and "0" are falsy; no ciphertext or encoding is one of them. */
  predicate EmptyBytes(b: Bytes) {
    b == Text("") || b == Text("0")
  }

  /** `sodium_crypto_box_seal($m, $pk)`. */
  function Seal(pk: PublicKey, m: Bytes): Bytes {
    SealedBox(pk, m)
  }

  /**
   * `sodium_crypto_box_seal_open($c, sodium_crypto_box_keypair_from_secretkey_and_publickey($sk, $pk))`:
   * the plaintext, or None (`false`) unless `c` was sealed to `pk` and `pk` belongs to `sk`.
   */
  function SealOpen(c: Bytes, sk: SecretKey, pk: PublicKey): Option<Bytes> {
    if c.SealedBox? && c.recipient == pk && PublicKeyOf(sk) == pk then Some(c.sealed) else None
  }

  /** `Crypto::encrypt($m, $k)`. */
  function Encrypt(m: Bytes, k: Key): Bytes {
    Ciphertext(k, m)
  }

  /** `Crypto::decrypt($c, $k)`; None stands for `WrongKeyOrModifiedCiphertextException`. */
  function Decrypt(c: Bytes, k: Key): Option<Bytes> {
    if c.Ciphertext? && c.key == k then Some(c.encrypted) else None
  }

  /** `KeyProtectedByPassword::createRandomPasswordProtectedKey($password)`, with its randomness as `seed`. */
  function CreateProtectedKey(password: string, seed: nat): ProtectedKey {
    ProtectedKey(password, Key(seed))
  }

  /**
   * `$protected->unlockKey($password)`; None stands for `WrongKeyOrModifiedCiphertextException`,
   * raised alike for a wrong password and for a wrapper that was tampered with.
   */
  function UnlockKey(p: ProtectedKey, password: string): Option<Key> {
    if p.password == password then Some(p.wrapped) else None
  }

  /** `$key->saveToAsciiSafeString()` and `Key::loadFromAsciiSafeString($s)` (None: `BadFormatException`). */
  function SaveKey(k: Key): Bytes {
    KeyAscii(k)
  }

  function LoadKey(b: Bytes): Option<Key> {
    if b.KeyAscii? then Some(b.key) else None
  }

  /** The same pair for `KeyProtectedByPassword`. */
  function SaveProtectedKey(p: ProtectedKey): Bytes {
    ProtectedKeyAscii(p)
  }

  function LoadProtectedKey(b: Bytes): Option<ProtectedKey> {
    if b.ProtectedKeyAscii? then Some(b.protected) else None
  }

  /** `json_encode` of a field-set and `json_decode(..., true)` back (None: not JSON). */
  function JsonEncode(fs: FieldSet): Bytes {
    Json(fs)
  }

  function JsonDecode(b: Bytes): Option<FieldSet> {
    if b.Json? then Some(b.fields) else None
  }

  lemma SealRoundTrip(sk: SecretKey, m: Bytes)
    ensures SealOpen(Seal(PublicKeyOf(sk), m), sk, PublicKeyOf(sk)) == Some(m)
  {
  }

  /** A box sealed to another key cannot be opened with this key pair. */
  lemma SealWrongRecipient(sk: SecretKey, pk: PublicKey, other: PublicKey, m: Bytes)
    requires other != PublicKeyOf(sk)
    ensures SealOpen(Seal(other, m), sk, pk) == None
  {
  }

  lemma SymmetricRoundTrip(k: Key, m: Bytes)
    ensures Decrypt(Encrypt(m, k), k) == Some(m)
  {
  }

  lemma SymmetricWrongKey(k: Key, k': Key, m: Bytes)
    requires k != k'
    ensures Decrypt(Encrypt(m, k), k') == None
  {
  }

  /** The just-chosen password unlocks the key it protects; any other password fails. */
  lemma UnlockRoundTrip(password: string, other: string, seed: nat)
    ensures UnlockKey(CreateProtectedKey(password, seed), password) == Some(Key(seed))
    ensures other != password ==> UnlockKey(CreateProtectedKey(password, seed), other) == None
  {
  }

  lemma EncodingsRoundTrip(k: Key, p: ProtectedKey, fs: FieldSet)
    ensures LoadKey(SaveKey(k)) == Some(k)
    ensures LoadProtectedKey(SaveProtectedKey(p)) == Some(p)
    ensures JsonDecode(JsonEncode(fs)) == Some(fs)
  {
  }

  /** No output of a primitive is mistaken for an absent value by `empty()`. */
  lemma OutputsAreNotEmpty(pk: PublicKey, k: Key, m: Bytes, fs: FieldSet)
    ensures !EmptyBytes(Seal(pk, m)) && !EmptyBytes(Encrypt(m, k))
    ensures !EmptyBytes(SaveKey(k)) && !EmptyBytes(JsonEncode(fs))
  {
  }
}
