/** `Decrypter`: takes my private key and the sender's certificate from the
    keystore, then reads a manifest, unwraps the AES key it carries and
    decrypts the file with it.  No digest is taken and no signature is
    checked. */
module Decryption {
  import opened Common
  import opened Files
  import opened Digester
  import opened Crypto
  import opened FileCipher

  /** `new SecretKeySpec(bytes, "AES")` refuses an empty key. */
  function KeySpec(bytes: seq<int8>): (r: Result<SecretKey>)
    ensures r.Ok? <==> bytes != []
    ensures r.Ok? ==> r.value.encoded == bytes
  {
    if bytes == [] then Err(IllegalArgument("Empty key")) else Ok(SecretKey(bytes))
  }

  /** `Base64.decode(config.get(name))`: a missing entry is `null`. */
  function DecodeEntry(config: map<string, string>, name: string, e: Engines): (r: Result<seq<int8>>)
    ensures name !in config ==> r == Err(NullPointer)
    ensures name in config ==> r == e.decode(config[name])
  {
    if name !in config then Err(NullPointer) else e.decode(config[name])
  }

  /** What `decryptAndValidate` does once the manifest is parsed. */
  function WithConfig(config: map<string, string>, files: map<Path, Entry>, cwd: Path,
                      encryptedFile: Path, output: Path, myKey: Option<PrivateKey>, e: Engines): Run
  {
    match DecodeEntry(config, "key", e)
    case Err(x) => Run(Fail(x), files)
    case Ok(encryptedSecretKey) =>
      if myKey.None? then Run(Fail(InvalidKey), files)
      else match e.unwrap(encryptedSecretKey, myKey.value)
      case Err(x) => Run(Fail(x), files)
      case Ok(decryptedSecretKey) =>
        match KeySpec(decryptedSecretKey)
        case Err(x) => Run(Fail(x), files)
        case Ok(key) =>
          match DecodeEntry(config, "iv", e)
          case Err(x) => Run(Fail(x), files)
          case Ok(iv) => FileCipher.DecryptRun(files, cwd, encryptedFile, output, key, iv, e)
  }

  /** A whole `decryptAndValidate(encryptedFile, configFile, output)`. */
  function DecryptAndValidateRun(files: map<Path, Entry>, cwd: Path, encryptedFile: Path, configFile: Path,
                                 output: Path, myKey: Option<PrivateKey>, e: Engines): Run
  {
    match Open(files, cwd, configFile)
    case None => Run(Fail(IOFailure(PathString(configFile))), files)
    case Some(bytes) =>
      match e.fromJson(bytes)
      case Malformed => Run(Fail(JsonSyntax), files)
      case NullDocument => Run(Fail(NullPointer), files)
      case Document(config) => WithConfig(config, files, cwd, encryptedFile, output, myKey, e)
  }

  class Decrypter {
    const keystore: KeyStore
    const engines: Engines
    const streamDigester: StreamDigester

    var myPrivateKey: Option<PrivateKey>
    var senderCertificate: Option<Certificate>

    constructor (keystore: KeyStore, engines: Engines, messageDigest: MessageDigest)
      ensures this.keystore == keystore && this.engines == engines
      ensures fresh(streamDigester) && streamDigester.messageDigest == messageDigest
      ensures myPrivateKey == None && senderCertificate == None
    {
      this.keystore := keystore;
      this.engines := engines;
      this.streamDigester := new StreamDigester(messageDigest);
      myPrivateKey, senderCertificate := None, None;
    }

    /** `initialize(privateKeyAlias, privateKeyPassword, recipientCertificateAlias)`:
        the same checks, in the same order, as the encrypting side. */
    method Initialize(privateKeyAlias: string, privateKeyPassword: string, recipientCertificateAlias: string)
      returns (r: Outcome)
      modifies this
      ensures var id := Resolve(keystore, privateKeyAlias, privateKeyPassword, recipientCertificateAlias);
        && (id.Err? ==> r == Fail(id.error)
                        && myPrivateKey == old(myPrivateKey) && senderCertificate == old(senderCertificate))
        && (id.Ok? ==> r == Pass
                       && myPrivateKey == Some(id.value.privateKey) && senderCertificate == Some(id.value.certificate))
    {
      if !IsKeyEntry(keystore, privateKeyAlias) {
        return Fail(KeyStoreFailure(KeyAliasMissing));
      }
      if !IsCertificateEntry(keystore, recipientCertificateAlias) {
        return Fail(KeyStoreFailure(CertificateAliasMissing));
      }
      var key := GetKey(keystore, privateKeyAlias, privateKeyPassword);
      if key.Err? {
        return Fail(KeyStoreFailure(BadKeyPassword));
      }
      myPrivateKey := Some(key.value);
      senderCertificate := Some(keystore[recipientCertificateAlias].certificate);
      return Pass;
    }

    /** `decryptAndValidate(encryptedFile, configFile, output)`.  It changes
        only the files: the digester's engine is not touched. */
    method DecryptAndValidate(fs: FileSystem, encryptedFile: Path, configFile: Path, output: Path)
      returns (r: Outcome)
      modifies fs
      ensures Run(r, fs.files)
           == DecryptAndValidateRun(old(fs.files), fs.cwd, encryptedFile, configFile, output, myPrivateKey, engines)
    {
      var bytes := Open(fs.files, fs.cwd, configFile);
      if bytes.None? {
        return Fail(IOFailure(PathString(configFile)));
      }
      var json := engines.fromJson(bytes.value);
      if json.Malformed? {
        return Fail(JsonSyntax);
      }
      if json.NullDocument? {
        return Fail(NullPointer);
      }
      var config := json.fields;
      var encryptedSecretKey := DecodeEntry(config, "key", engines);
      if encryptedSecretKey.Err? {
        return Fail(encryptedSecretKey.error);
      }
      if myPrivateKey.None? {
        return Fail(InvalidKey);
      }
      var decryptedSecretKey := engines.unwrap(encryptedSecretKey.value, myPrivateKey.value);
      if decryptedSecretKey.Err? {
        return Fail(decryptedSecretKey.error);
      }
      var key := KeySpec(decryptedSecretKey.value);
      if key.Err? {
        return Fail(key.error);
      }
      var iv := DecodeEntry(config, "iv", engines);
      if iv.Err? {
        return Fail(iv.error);
      }
      r := FileDecrypt(fs, encryptedFile, output, key.value, iv.value, engines);
    }
  }

  // ---- Properties of a run ----

  /** Only the entries "key" and "iv" of the manifest are read: manifests
      that agree on those two give the same run, so "sig" is ignored. */
  lemma ReadsOnlyKeyAndIv(c1: map<string, string>, c2: map<string, string>, files: map<Path, Entry>, cwd: Path,
                          encryptedFile: Path, output: Path, myKey: Option<PrivateKey>, e: Engines)
    requires ("key" in c1 <==> "key" in c2) && ("key" in c1 ==> c1["key"] == c2["key"])
    requires ("iv" in c1 <==> "iv" in c2) && ("iv" in c1 ==> c1["iv"] == c2["iv"])
    ensures WithConfig(c1, files, cwd, encryptedFile, output, myKey, e)
         == WithConfig(c2, files, cwd, encryptedFile, output, myKey, e)
  {
    assert DecodeEntry(c1, "key", e) == DecodeEntry(c2, "key", e);
    assert DecodeEntry(c1, "iv", e) == DecodeEntry(c2, "iv", e);
  }

  /** No signature is checked: the signing and verifying engines have no
      part in the run (and no digest function or sender certificate is
      among its inputs at all). */
  lemma NeverVerifies(files: map<Path, Entry>, cwd: Path, encryptedFile: Path, configFile: Path, output: Path,
                      myKey: Option<PrivateKey>, e: Engines,
                      sign: (seq<int8>, PrivateKey) -> Result<seq<int8>>,
                      verify: (seq<int8>, seq<int8>, PublicKey) -> Result<bool>)
    ensures DecryptAndValidateRun(files, cwd, encryptedFile, configFile, output, myKey, e)
         == DecryptAndValidateRun(files, cwd, encryptedFile, configFile, output, myKey,
                                  e.(sign := sign, verify := verify))
  {
    var e' := e.(sign := sign, verify := verify);
    match Open(files, cwd, configFile)
    case None =>
    case Some(bytes) =>
      match e.fromJson(bytes)
      case Malformed =>
      case NullDocument =>
      case Document(config) =>
        assert DecodeEntry(config, "key", e) == DecodeEntry(config, "key", e');
        assert DecodeEntry(config, "iv", e) == DecodeEntry(config, "iv", e');
        assert forall k, iv ::
          FileCipher.DecryptRun(files, cwd, encryptedFile, output, k, iv, e)
          == FileCipher.DecryptRun(files, cwd, encryptedFile, output, k, iv, e');
  }

  /** A manifest without "key" or without "iv" fails before any file is
      created or written. */
  lemma MissingEntryFailsEarly(config: map<string, string>, files: map<Path, Entry>, cwd: Path,
                               encryptedFile: Path, output: Path, myKey: Option<PrivateKey>, e: Engines)
    requires "key" !in config || "iv" !in config
    ensures WithConfig(config, files, cwd, encryptedFile, output, myKey, e).outcome.Fail?
    ensures WithConfig(config, files, cwd, encryptedFile, output, myKey, e).files == files
    ensures "key" !in config ==>
      WithConfig(config, files, cwd, encryptedFile, output, myKey, e).outcome == Fail(NullPointer)
  {
  }

  /** On success the output holds the deciphering of the encrypted file
      under the key unwrapped with my private key and the IV as merely
      Base64-decoded from the manifest. */
  lemma DecryptsWithManifestEntries(config: map<string, string>, files: map<Path, Entry>, cwd: Path,
                                    encryptedFile: Path, output: Path, myKey: Option<PrivateKey>, e: Engines)
    requires WithConfig(config, files, cwd, encryptedFile, output, myKey, e).outcome.Pass?
    ensures "key" in config && "iv" in config && myKey.Some?
    ensures e.decode(config["key"]).Ok? && e.decode(config["iv"]).Ok?
    ensures e.unwrap(e.decode(config["key"]).value, myKey.value).Ok?
    ensures var key := SecretKey(e.unwrap(e.decode(config["key"]).value, myKey.value).value);
      var iv := e.decode(config["iv"]).value;
      && Open(files, cwd, encryptedFile).Some?
      && WithConfig(config, files, cwd, encryptedFile, output, myKey, e).files[Locate(cwd, output).value]
         == File(e.decrypt(Open(files, cwd, encryptedFile).value, key, iv).plain, true, true)
  {
    var key := SecretKey(e.unwrap(e.decode(config["key"]).value, myKey.value).value);
    var iv := e.decode(config["iv"]).value;
    DecryptRunEffect(files, cwd, encryptedFile, output, key, iv, e);
  }
}
