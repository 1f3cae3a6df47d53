/** The keys, the keystore and the cryptographic engines the tool drives.
    Keys are opaque values; the engines (RSA signing and key wrapping,
    AES file ciphering, Base64, JSON) are functions the model leaves
    open.  A lemma with no hypothesis about the engines holds whatever
    they compute; the lemmas in `Envelope` name the laws they assume. */
module Crypto {
  import opened Common

  datatype PrivateKey = PrivateKey(id: nat)
  datatype PublicKey = PublicKey(id: nat)
  datatype Certificate = Certificate(subject: string, publicKey: PublicKey)

  /** A symmetric key, by its encoding (`getEncoded()`). */
  datatype SecretKey = SecretKey(encoded: seq<int8>)

  /** A keystore entry: a private key under its password (its algorithm
      may be unavailable to the runtime) with its own certificate, or a
      trusted certificate. */
  datatype KeyStoreEntry =
    | PrivateKeyEntry(key: PrivateKey, password: string, algorithmAvailable: bool, chain: Certificate)
    | TrustedCertificateEntry(certificate: Certificate)

  /** A loaded keystore: its entries by alias. */
  type KeyStore = map<string, KeyStoreEntry>

  /** `keystore.isKeyEntry(alias)`. */
  predicate IsKeyEntry(ks: KeyStore, alias: string)
  {
    alias in ks && ks[alias].PrivateKeyEntry?
  }

  /** `keystore.isCertificateEntry(alias)`. */
  predicate IsCertificateEntry(ks: KeyStore, alias: string)
  {
    alias in ks && ks[alias].TrustedCertificateEntry?
  }

  /** `keystore.getKey(alias, password)` on a key entry. */
  function GetKey(ks: KeyStore, alias: string, password: string): (r: Result<PrivateKey>)
    requires IsKeyEntry(ks, alias)
    ensures r.Ok? <==> ks[alias].algorithmAvailable && password == ks[alias].password
    ensures r.Ok? ==> r.value == ks[alias].key
    ensures r.Err? ==> r.error in {NoSuchAlgorithm, UnrecoverableKey}
  {
    if !ks[alias].algorithmAvailable then Err(NoSuchAlgorithm)
    else if password != ks[alias].password then Err(UnrecoverableKey)
    else Ok(ks[alias].key)
  }

  /** What `initialize` takes from the keystore: my private key and the
      other party's certificate. */
  datatype Identity = Identity(privateKey: PrivateKey, certificate: Certificate)

  const KeyAliasMissing: string := "private key alias not found in keystore"
  const CertificateAliasMissing: string := "recipient's certificate alias not found in keystore"
  const BadKeyPassword: string := "Bad private key password"

  /** The checks both `initialize` methods make, in their order: the key
      alias, then the certificate alias, then recovering the key, whose two
      failures are both reported as a bad password. */
  function Resolve(ks: KeyStore, keyAlias: string, password: string, certAlias: string): (r: Result<Identity>)
    ensures r.Ok? <==> && IsKeyEntry(ks, keyAlias) && IsCertificateEntry(ks, certAlias)
                       && ks[keyAlias].algorithmAvailable && password == ks[keyAlias].password
    ensures r.Ok? ==> r.value == Identity(ks[keyAlias].key, ks[certAlias].certificate)
    ensures !IsKeyEntry(ks, keyAlias) ==> r == Err(KeyStoreFailure(KeyAliasMissing))
    ensures IsKeyEntry(ks, keyAlias) && !IsCertificateEntry(ks, certAlias) ==>
      r == Err(KeyStoreFailure(CertificateAliasMissing))
    ensures IsKeyEntry(ks, keyAlias) && IsCertificateEntry(ks, certAlias) && r.Err? ==>
      r == Err(KeyStoreFailure(BadKeyPassword))
  {
    if !IsKeyEntry(ks, keyAlias) then Err(KeyStoreFailure(KeyAliasMissing))
    else if !IsCertificateEntry(ks, certAlias) then Err(KeyStoreFailure(CertificateAliasMissing))
    else match GetKey(ks, keyAlias, password)
      case Err(_) => Err(KeyStoreFailure(BadKeyPassword))
      case Ok(key) => Ok(Identity(key, ks[certAlias].certificate))
  }

  /** A missing key alias is reported whatever the certificate alias is:
      the key alias is checked first. */
  lemma KeyAliasCheckedFirst(ks: KeyStore, keyAlias: string, password: string, certAlias: string, certAlias': string)
    requires !IsKeyEntry(ks, keyAlias)
    ensures Resolve(ks, keyAlias, password, certAlias) == Resolve(ks, keyAlias, password, certAlias')
    ensures Resolve(ks, keyAlias, password, certAlias).error.message == KeyAliasMissing
  {
  }

  // ---- Key generation ----

  /** The key sizes the AES key generator accepts. */
  const AesKeySizes: set<int> := {128, 192, 256}

  /** The AES key size used when the generator was never initialised. */
  const DefaultAesKeyBits: nat := 128

  /** A `KeyGenerator` for AES; the randomness it draws is supplied by the caller. */
  class KeyGenerator {
    var keySize: Option<nat>

    constructor ()
      ensures keySize == None
    {
      keySize := None;
    }

    function KeyBits(): nat
      reads this
    {
      if keySize.Some? then keySize.value else DefaultAesKeyBits
    }

    /** `init(keysize, random)`: a size AES does not have is refused and
        leaves the generator as it was. */
    method Init(bits: int) returns (r: Outcome)
      modifies this
      ensures bits in AesKeySizes ==> r == Pass && keySize == Some(bits)
      ensures bits !in AesKeySizes ==>
        r == Fail(InvalidParameter("Wrong keysize: must be equal to 128, 192 or 256")) && keySize == old(keySize)
    {
      if bits !in AesKeySizes {
        return Fail(InvalidParameter("Wrong keysize: must be equal to 128, 192 or 256"));
      }
      keySize := Some(bits);
      return Pass;
    }

    /** `generateKey()`: a key of the configured size made of the drawn bytes. */
    method GenerateKey(random: seq<int8>) returns (k: SecretKey)
      requires |random| * 8 == KeyBits()
      ensures |k.encoded| * 8 == KeyBits() && k.encoded == random
    {
      k := SecretKey(random);
    }
  }

  // ---- Engines ----

  /** What `gson.fromJson` gives for a file's text: a syntax error, `null`
      (an empty document), or a string map. */
  datatype Json = Malformed | NullDocument | Document(fields: map<string, string>)

  /** What a deciphering stream delivered before it ended, and the
      exception that ended it, if any. */
  datatype Deciphered = Deciphered(plain: seq<int8>, error: Option<Exception>)

  /** The library engines, as functions of their inputs; an engine that
      throws returns `Err`. */
  datatype Engines = Engines(
    /** `Signature` (SHA256withRSA): `initSign`, `update`, `sign`. */
    sign: (seq<int8>, PrivateKey) -> Result<seq<int8>>,
    /** `Signature`: `initVerify`, `update`, `verify`. */
    verify: (seq<int8>, seq<int8>, PublicKey) -> Result<bool>,
    /** `Cipher` (RSA/ECB/PKCS1Padding) in encrypt mode under a public key. */
    wrap: (seq<int8>, PublicKey) -> Result<seq<int8>>,
    /** The same cipher in decrypt mode under a private key. */
    unwrap: (seq<int8>, PrivateKey) -> Result<seq<int8>>,
    /** `Base64.getEncoder().encodeToString`. */
    encode: seq<int8> -> string,
    /** `Base64.getDecoder().decode` of a non-null string. */
    decode: string -> Result<seq<int8>>,
    /** `Cipher.init(ENCRYPT_MODE, key)` (AES/CBC/PKCS5Padding). */
    initEncrypt: SecretKey -> Outcome,
    /** The bytes a `CipherOutputStream` writes for a content, under a key
        and the IV the cipher drew at `init`. */
    encrypt: (seq<int8>, SecretKey, seq<int8>) -> seq<int8>,
    /** `Cipher.init(DECRYPT_MODE, key, new IvParameterSpec(iv))`. */
    initDecrypt: (SecretKey, seq<int8>) -> Outcome,
    /** What a `CipherInputStream` delivers for an encrypted content. */
    decrypt: (seq<int8>, SecretKey, seq<int8>) -> Deciphered,
    /** `gson.toJson(config).getBytes()`. */
    toJson: map<string, string> -> seq<int8>,
    /** `gson.fromJson(new String(bytes), Map<String, String>)`. */
    fromJson: seq<int8> -> Json)
}
