/** The two halves together: what the encrypting side leaves behind, and
    what the decrypting side makes of it. */
module Envelope {
  import opened Common
  import opened Files
  import opened Crypto
  import opened FileCipher
  import opened Encryption
  import opened Decryption
  import opened Tool

  /** The engines' JSON parser gives back the map their JSON writer was given. */
  ghost predicate JsonRoundTrip(e: Engines)
  {
    forall m :: e.fromJson(e.toJson(m)) == Document(m)
  }

  /** Base64 decoding undoes Base64 encoding. */
  ghost predicate Base64RoundTrip(e: Engines)
  {
    forall b :: e.decode(e.encode(b)) == Ok(b)
  }

  /** The private key unwraps what the public key wrapped. */
  ghost predicate KeyPair(e: Engines, publicKey: PublicKey, privateKey: PrivateKey)
  {
    forall k :: e.wrap(k, publicKey).Ok? ==> e.unwrap(e.wrap(k, publicKey).value, privateKey) == Ok(k)
  }

  /** The AES cipher, under this key and IV, deciphers what it ciphered. */
  ghost predicate CipherRoundTrip(e: Engines, key: SecretKey, iv: seq<int8>)
  {
    && e.initDecrypt(key, iv).Pass?
    && forall c :: e.decrypt(e.encrypt(c, key, iv), key, iv) == Deciphered(c, None)
  }

  /** The manifest the encrypter writes has no "iv", so decrypting with it
      fails, for a JSON engine that reads back what it wrote (as Gson
      does) and whatever the other engines, the keys and the files are,
      and before any file is created: a "null" IV is Base64-decoded, or an
      earlier step has already failed. */
  lemma ManifestWithoutIvUndecryptable(files: map<Path, Entry>, cwd: Path, filePath: Path, output: Path,
                                       myKey: Option<PrivateKey>, recipient: Option<Certificate>,
                                       hash: seq<int8> -> seq<int8>, e: Engines, symmetricKey: SecretKey, iv: seq<int8>,
                                       encryptedFile: Path, decryptedFile: Path, decryptKey: Option<PrivateKey>)
    requires EncryptAndSignRun(files, cwd, filePath, output, myKey, recipient, hash, e, symmetricKey, iv).outcome.Pass?
    requires JsonRoundTrip(e)
    ensures var r := EncryptAndSignRun(files, cwd, filePath, output, myKey, recipient, hash, e, symmetricKey, iv);
      var d := DecryptAndValidateRun(r.files, cwd, encryptedFile, ConfigPathFor(cwd, filePath), decryptedFile, decryptKey, e);
      d.outcome.Fail? && d.files == r.files
  {
    var r := EncryptAndSignRun(files, cwd, filePath, output, myKey, recipient, hash, e, symmetricKey, iv);
    EncryptAndSignWrites(files, cwd, filePath, output, myKey, recipient, hash, e, symmetricKey, iv);
    var content := Open(files, cwd, filePath).value;
    var m := Manifest(e.sign(hash(content), myKey.value).value,
                      e.wrap(symmetricKey.encoded, recipient.value.publicKey).value, e);
    var p := ConfigPathFor(cwd, filePath);
    match Open(r.files, cwd, p)
    case None =>
    case Some(bytes) =>
      assert bytes == e.toJson(m);
      assert e.fromJson(bytes) == Document(m);
      MissingEntryFailsEarly(m, r.files, cwd, encryptedFile, decryptedFile, decryptKey, e);
  }

  /** The corrected manifest: the IV the file cipher used goes in as well,
      Base64-encoded under "iv". */
  function CorrectedManifest(signature: seq<int8>, wrappedKey: seq<int8>, iv: seq<int8>, e: Engines)
    : (m: map<string, string>)
    ensures m.Keys == {"sig", "key", "iv"}
    ensures m["sig"] == e.encode(signature) && m["key"] == e.encode(wrappedKey) && m["iv"] == e.encode(iv)
  {
    Manifest(signature, wrappedKey, e)["iv" := e.encode(iv)]
  }

  /** `encryptAndSign` with the corrected manifest. */
  function CorrectedEncryptAndSignRun(files: map<Path, Entry>, cwd: Path, filePath: Path, output: Path,
                                      myKey: Option<PrivateKey>, recipient: Option<Certificate>,
                                      hash: seq<int8> -> seq<int8>, e: Engines,
                                      symmetricKey: SecretKey, iv: seq<int8>): Run
  {
    match SignAndWrap(files, cwd, filePath, myKey, recipient, hash, e, symmetricKey)
    case Err(x) => Run(Fail(x), files)
    case Ok(credentials) =>
      Sealed(files, cwd, filePath, output, symmetricKey, iv, e, CorrectedManifest(credentials.0, credentials.1, iv, e))
  }

  /** The correction changes nothing but the manifest's text: same
      outcome, same files everywhere else. */
  lemma CorrectedDiffersOnlyInManifest(files: map<Path, Entry>, cwd: Path, filePath: Path, output: Path,
                                       myKey: Option<PrivateKey>, recipient: Option<Certificate>,
                                       hash: seq<int8> -> seq<int8>, e: Engines, symmetricKey: SecretKey, iv: seq<int8>)
    ensures var r := EncryptAndSignRun(files, cwd, filePath, output, myKey, recipient, hash, e, symmetricKey, iv);
      var c := CorrectedEncryptAndSignRun(files, cwd, filePath, output, myKey, recipient, hash, e, symmetricKey, iv);
      && c.outcome == r.outcome
      && c.files.Keys == r.files.Keys
      && forall q :: q in r.files && Some(q) != Locate(cwd, ConfigPathFor(cwd, filePath)) ==> c.files[q] == r.files[q]
  {
    match SignAndWrap(files, cwd, filePath, myKey, recipient, hash, e, symmetricKey)
    case Err(x) =>
    case Ok(credentials) =>
      var encrypted := FileCipher.EncryptRun(files, cwd, filePath, output, symmetricKey, iv, e);
      if encrypted.outcome.Pass? {
        var p := ConfigPathFor(cwd, filePath);
        if CanWrite(encrypted.files, cwd, p) {
          var m1 := Manifest(credentials.0, credentials.1, e);
          var m2 := CorrectedManifest(credentials.0, credentials.1, iv, e);
          var w1 := Written(encrypted.files, cwd, p, e.toJson(m1));
          var w2 := Written(encrypted.files, cwd, p, e.toJson(m2));
          assert forall q :: q in w1 && q != Locate(cwd, p).value ==> w2[q] == encrypted.files[q] == w1[q];
        }
      }
  }

  /** The envelope of the corrected encrypter decrypts: given engines that
      invert each other and the recipient's key pair, decrypting the
      encrypted output with the manifest written for the source puts the
      source's content in the decrypted file.  The manifest path may hold
      a readable file already: writing it truncates that file. */
  lemma CorrectedRoundTrip(files: map<Path, Entry>, cwd: Path, filePath: Path, output: Path,
                           myKey: Option<PrivateKey>, recipient: Certificate, recipientKey: PrivateKey,
                           hash: seq<int8> -> seq<int8>, e: Engines, symmetricKey: SecretKey, iv: seq<int8>,
                           decryptedFile: Path)
    requires CorrectedEncryptAndSignRun(files, cwd, filePath, output, myKey, Some(recipient), hash, e, symmetricKey, iv)
             .outcome.Pass?
    requires !Exists(files, cwd, ConfigPathFor(cwd, filePath)) || CanRead(files, cwd, ConfigPathFor(cwd, filePath))
    requires Locate(cwd, output) != Locate(cwd, ConfigPathFor(cwd, filePath))
    requires CanCreate(CorrectedEncryptAndSignRun(files, cwd, filePath, output, myKey, Some(recipient), hash, e,
                                                  symmetricKey, iv).files, cwd, decryptedFile)
    requires JsonRoundTrip(e) && Base64RoundTrip(e) && KeyPair(e, recipient.publicKey, recipientKey)
    requires symmetricKey.encoded != [] && CipherRoundTrip(e, symmetricKey, iv)
    ensures Open(files, cwd, filePath).Some?
    ensures var r := CorrectedEncryptAndSignRun(files, cwd, filePath, output, myKey, Some(recipient), hash, e,
                                                symmetricKey, iv);
      var d := DecryptAndValidateRun(r.files, cwd, output, ConfigPathFor(cwd, filePath), decryptedFile,
                                     Some(recipientKey), e);
      && d.outcome == Pass
      && Locate(cwd, decryptedFile).Some? && Locate(cwd, decryptedFile).value in d.files
      && d.files[Locate(cwd, decryptedFile).value] == File(Open(files, cwd, filePath).value, true, true)
  {
    var credentials := SignAndWrap(files, cwd, filePath, myKey, Some(recipient), hash, e, symmetricKey).value;
    CorrectedEnvelopeFiles(files, cwd, filePath, output, myKey, Some(recipient), hash, e, symmetricKey, iv);
    var r := CorrectedEncryptAndSignRun(files, cwd, filePath, output, myKey, Some(recipient), hash, e, symmetricKey, iv);
    OpensEnvelope(r.files, cwd, output, ConfigPathFor(cwd, filePath), decryptedFile, recipientKey, e, symmetricKey, iv,
                  credentials.0, credentials.1, Open(files, cwd, filePath).value);
  }

  /** After a corrected run the manifest is a readable file holding
      the JSON of the corrected manifest, and the output holds the ciphered
      content. */
  lemma CorrectedEnvelopeFiles(files: map<Path, Entry>, cwd: Path, filePath: Path, output: Path,
                               myKey: Option<PrivateKey>, recipient: Option<Certificate>,
                               hash: seq<int8> -> seq<int8>, e: Engines, symmetricKey: SecretKey, iv: seq<int8>)
    requires CorrectedEncryptAndSignRun(files, cwd, filePath, output, myKey, recipient, hash, e, symmetricKey, iv)
             .outcome.Pass?
    requires !Exists(files, cwd, ConfigPathFor(cwd, filePath)) || CanRead(files, cwd, ConfigPathFor(cwd, filePath))
    requires Locate(cwd, output) != Locate(cwd, ConfigPathFor(cwd, filePath))
    ensures Open(files, cwd, filePath).Some?
    ensures SignAndWrap(files, cwd, filePath, myKey, recipient, hash, e, symmetricKey).Ok?
    ensures var r := CorrectedEncryptAndSignRun(files, cwd, filePath, output, myKey, recipient, hash, e, symmetricKey, iv);
      var credentials := SignAndWrap(files, cwd, filePath, myKey, recipient, hash, e, symmetricKey).value;
      && Open(r.files, cwd, ConfigPathFor(cwd, filePath))
         == Some(e.toJson(CorrectedManifest(credentials.0, credentials.1, iv, e)))
      && Open(r.files, cwd, output) == Some(e.encrypt(Open(files, cwd, filePath).value, symmetricKey, iv))
  {
    var r := CorrectedEncryptAndSignRun(files, cwd, filePath, output, myKey, recipient, hash, e, symmetricKey, iv);
    var credentials := SignAndWrap(files, cwd, filePath, myKey, recipient, hash, e, symmetricKey).value;
    var content := Open(files, cwd, filePath).value;
    var m := CorrectedManifest(credentials.0, credentials.1, iv, e);
    var p := ConfigPathFor(cwd, filePath);
    var encrypted := FileCipher.EncryptRun(files, cwd, filePath, output, symmetricKey, iv, e);
    EncryptRunEffect(files, cwd, filePath, output, symmetricKey, iv, e);
    var outAt := Locate(cwd, output).value;
    assert encrypted.files[outAt] == File(e.encrypt(content, symmetricKey, iv), true, true);
    var pAt := Locate(cwd, p).value;
    assert pAt in files ==> encrypted.files[pAt] == files[pAt];
    assert r.files == Written(encrypted.files, cwd, p, e.toJson(m));
    assert r.files[pAt].File? && r.files[pAt].readable && r.files[pAt].content == e.toJson(m);
    assert r.files[outAt] == encrypted.files[outAt];
  }

  /** Decrypting with a manifest that carries the key wrapped for me and
      the IV recovers the content the encrypted file was ciphered from. */
  lemma OpensEnvelope(files: map<Path, Entry>, cwd: Path, encryptedFile: Path, configFile: Path, decryptedFile: Path,
                      recipientKey: PrivateKey, e: Engines, symmetricKey: SecretKey, iv: seq<int8>,
                      signature: seq<int8>, wrappedKey: seq<int8>, content: seq<int8>)
    requires Open(files, cwd, configFile) == Some(e.toJson(CorrectedManifest(signature, wrappedKey, iv, e)))
    requires Open(files, cwd, encryptedFile) == Some(e.encrypt(content, symmetricKey, iv))
    requires CanCreate(files, cwd, decryptedFile)
    requires e.unwrap(wrappedKey, recipientKey) == Ok(symmetricKey.encoded)
    requires JsonRoundTrip(e) && Base64RoundTrip(e)
    requires symmetricKey.encoded != [] && CipherRoundTrip(e, symmetricKey, iv)
    ensures var d := DecryptAndValidateRun(files, cwd, encryptedFile, configFile, decryptedFile, Some(recipientKey), e);
      && d.outcome == Pass
      && Locate(cwd, decryptedFile).Some? && Locate(cwd, decryptedFile).value in d.files
      && d.files[Locate(cwd, decryptedFile).value] == File(content, true, true)
  {
    var m := CorrectedManifest(signature, wrappedKey, iv, e);
    assert e.fromJson(e.toJson(m)) == Document(m);
    assert DecodeEntry(m, "key", e) == Ok(wrappedKey);
    assert KeySpec(symmetricKey.encoded) == Ok(symmetricKey);
    assert DecodeEntry(m, "iv", e) == Ok(iv);
    var d := DecryptAndValidateRun(files, cwd, encryptedFile, configFile, decryptedFile, Some(recipientKey), e);
    assert d == FileCipher.DecryptRun(files, cwd, encryptedFile, decryptedFile, symmetricKey, iv, e);
    DecryptRunEffect(files, cwd, encryptedFile, decryptedFile, symmetricKey, iv, e);
    CreatedKeepsSource(files, cwd, encryptedFile, decryptedFile);
    assert e.decrypt(e.encrypt(content, symmetricKey, iv), symmetricKey, iv) == Deciphered(content, None);
  }

  /** The tool with both path corrections and the corrected manifest:
      "-encrypt" on `source` writes "<source>-encrypted" and the manifest;
      "-decrypt" on "<source>-encrypted" finds that manifest and recovers
      the content of `source`. */
  lemma CorrectedToolRoundTrip(files: map<Path, Entry>, cwd: Path, source: Path,
                               myKey: Option<PrivateKey>, recipient: Certificate, recipientKey: PrivateKey,
                               hash: seq<int8> -> seq<int8>, e: Engines, symmetricKey: SecretKey, iv: seq<int8>,
                               decryptedFile: Path)
    requires WellFormed(cwd) && WellFormed(source)
    requires CorrectedEncryptAndSignRun(files, cwd, source, EncryptedPathFor(cwd, source), myKey, Some(recipient),
                                        hash, e, symmetricKey, iv).outcome.Pass?
    requires !Exists(files, cwd, ConfigPathFor(cwd, source)) || CanRead(files, cwd, ConfigPathFor(cwd, source))
    requires CanCreate(CorrectedEncryptAndSignRun(files, cwd, source, EncryptedPathFor(cwd, source), myKey,
                                                  Some(recipient), hash, e, symmetricKey, iv).files, cwd, decryptedFile)
    requires JsonRoundTrip(e) && Base64RoundTrip(e) && KeyPair(e, recipient.publicKey, recipientKey)
    requires symmetricKey.encoded != [] && CipherRoundTrip(e, symmetricKey, iv)
    ensures Open(files, cwd, source).Some?
    ensures var encrypted := EncryptedPathFor(cwd, source);
      var r := CorrectedEncryptAndSignRun(files, cwd, source, encrypted, myKey, Some(recipient), hash, e, symmetricKey, iv);
      var d := DecryptAndValidateRun(r.files, cwd, encrypted, CorrectedConfigReadPathFor(cwd, encrypted), decryptedFile,
                                     Some(recipientKey), e);
      && d.outcome == Pass
      && Locate(cwd, decryptedFile).Some? && Locate(cwd, decryptedFile).value in d.files
      && d.files[Locate(cwd, decryptedFile).value] == File(Open(files, cwd, source).value, true, true)
  {
    var encrypted := EncryptedPathFor(cwd, source);
    CorrectedFindsManifest(cwd, source);
    OutputIsNotManifest(cwd, source);
    CorrectedRoundTrip(files, cwd, source, encrypted, myKey, recipient, recipientKey, hash, e, symmetricKey, iv,
                       decryptedFile);
  }
}
