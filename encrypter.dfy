/** `Encrypter`: takes my private key and the recipient's certificate from
    the keystore, then signs a file's digest, wraps a fresh AES key for
    the recipient, encrypts the file and writes the manifest (the
    "config" map) next to the source. */
module Encryption {
  import opened Common
  import opened Files
  import opened Streams
  import opened Digester
  import opened Crypto
  import opened FileCipher

  const ConfigSuffix: string := "-config.json"

  /** `Paths.get(String.format("%s-config.json", filePath.toAbsolutePath()))`:
      the absolute source path with "-config.json" added to its last name,
      whatever the output is. */
  function ConfigPathFor(cwd: Path, filePath: Path): (p: Path)
    ensures p.absolute && WellFormed(p)
    ensures WellFormed(cwd) && WellFormed(filePath) ==>
      p == Path(true, AppendToLast(ToAbsolute(cwd, filePath).names, ConfigSuffix))
  {
    SuffixedAbsolute(cwd, filePath, ConfigSuffix);
    ParsePath(PathString(ToAbsolute(cwd, filePath)) + ConfigSuffix)
  }

  /** The manifest `encryptAndSign` assembles: the Base64 of the signature
      under "sig" and of the wrapped key under "key". */
  function Manifest(signature: seq<int8>, wrappedKey: seq<int8>, e: Engines): (m: map<string, string>)
    ensures m.Keys == {"sig", "key"} && "iv" !in m
    ensures m["sig"] == e.encode(signature) && m["key"] == e.encode(wrappedKey)
  {
    map["sig" := e.encode(signature), "key" := e.encode(wrappedKey)]
  }

  /** `createConfigFileFor(filePath, config)`: a `FileOutputStream` on the
      config path creates or truncates it, with no existence check. */
  function ConfigWrite(files: map<Path, Entry>, cwd: Path, filePath: Path, config: map<string, string>, e: Engines): (r: Run)
  {
    var p := ConfigPathFor(cwd, filePath);
    if CanWrite(files, cwd, p) then Run(Pass, Written(files, cwd, p, e.toJson(config)))
    else Run(Fail(FileNotFound(PathString(p))), files)
  }

  /** The first half of `encryptAndSign`: the content read, its digest
      signed with my key, and the symmetric key wrapped for the recipient.
      The result is the signature and the wrapped key. */
  function SignAndWrap(files: map<Path, Entry>, cwd: Path, filePath: Path,
                       myKey: Option<PrivateKey>, recipient: Option<Certificate>,
                       hash: seq<int8> -> seq<int8>, e: Engines, symmetricKey: SecretKey)
    : (r: Result<(seq<int8>, seq<int8>)>)
    ensures r.Ok? <==> && Open(files, cwd, filePath).Some? && myKey.Some?
                       && e.sign(hash(Open(files, cwd, filePath).value), myKey.value).Ok? && recipient.Some?
                       && e.wrap(symmetricKey.encoded, recipient.value.publicKey).Ok?
    ensures r.Ok? ==> && r.value.0 == e.sign(hash(Open(files, cwd, filePath).value), myKey.value).value
                      && r.value.1 == e.wrap(symmetricKey.encoded, recipient.value.publicKey).value
    ensures Open(files, cwd, filePath).None? ==> r == Err(FileNotFound(PathString(filePath)))
    ensures Open(files, cwd, filePath).Some? && myKey.None? ==> r == Err(InvalidKey)
  {
    match Open(files, cwd, filePath)
    case None => Err(FileNotFound(PathString(filePath)))
    case Some(content) =>
      if myKey.None? then Err(InvalidKey)
      else match e.sign(hash(content), myKey.value)
      case Err(x) => Err(x)
      case Ok(signature) =>
        if recipient.None? then Err(NullPointer)
        else match e.wrap(symmetricKey.encoded, recipient.value.publicKey)
        case Err(x) => Err(x)
        case Ok(wrappedKey) => Ok((signature, wrappedKey))
  }

  /** The second half: the file encrypted to `output`, then `config`
      written next to the source. */
  function Sealed(files: map<Path, Entry>, cwd: Path, filePath: Path, output: Path,
                  symmetricKey: SecretKey, iv: seq<int8>, e: Engines, config: map<string, string>): Run
  {
    var encrypted := FileCipher.EncryptRun(files, cwd, filePath, output, symmetricKey, iv, e);
    if encrypted.outcome.Fail? then encrypted
    else ConfigWrite(encrypted.files, cwd, filePath, config, e)
  }

  /** A whole `encryptAndSign(filePath, output)`, for the instance's key
      fields, its digest function, the key it generates and the IV its
      file cipher draws. */
  function EncryptAndSignRun(files: map<Path, Entry>, cwd: Path, filePath: Path, output: Path,
                             myKey: Option<PrivateKey>, recipient: Option<Certificate>,
                             hash: seq<int8> -> seq<int8>, e: Engines,
                             symmetricKey: SecretKey, iv: seq<int8>): Run
  {
    match SignAndWrap(files, cwd, filePath, myKey, recipient, hash, e, symmetricKey)
    case Err(x) => Run(Fail(x), files)
    case Ok(credentials) =>
      Sealed(files, cwd, filePath, output, symmetricKey, iv, e, Manifest(credentials.0, credentials.1, e))
  }

  class Encrypter {
    const keystore: KeyStore
    const engines: Engines
    const streamDigester: StreamDigester
    const keyGenerator: KeyGenerator
    const symmetricKeyLength: int

    var myPrivateKey: Option<PrivateKey>
    var recipientCertificate: Option<Certificate>

    constructor (keystore: KeyStore, engines: Engines, messageDigest: MessageDigest,
                 keyGenerator: KeyGenerator, symmetricKeyLengthBits: int)
      ensures this.keystore == keystore && this.engines == engines
      ensures fresh(streamDigester) && streamDigester.messageDigest == messageDigest
      ensures this.keyGenerator == keyGenerator && symmetricKeyLength == symmetricKeyLengthBits
      ensures myPrivateKey == None && recipientCertificate == None
    {
      this.keystore := keystore;
      this.engines := engines;
      this.streamDigester := new StreamDigester(messageDigest);
      this.keyGenerator := keyGenerator;
      this.symmetricKeyLength := symmetricKeyLengthBits;
      myPrivateKey, recipientCertificate := None, None;
    }

    /** `initialize(privateKeyAlias, privateKeyPassword, recipientCertificateAlias)`:
        a keystore check that fails leaves the fields as they were; once
        both are set, the key generator is initialised, and a key length
        AES does not have is refused only then. */
    method Initialize(privateKeyAlias: string, privateKeyPassword: string, recipientCertificateAlias: string)
      returns (r: Outcome)
      modifies this, keyGenerator
      ensures var id := Resolve(keystore, privateKeyAlias, privateKeyPassword, recipientCertificateAlias);
        && (id.Err? ==>
              && r == Fail(id.error)
              && myPrivateKey == old(myPrivateKey) && recipientCertificate == old(recipientCertificate)
              && keyGenerator.keySize == old(keyGenerator.keySize))
        && (id.Ok? ==>
              && myPrivateKey == Some(id.value.privateKey) && recipientCertificate == Some(id.value.certificate)
              && (symmetricKeyLength in AesKeySizes ==> r == Pass && keyGenerator.keySize == Some(symmetricKeyLength))
              && (symmetricKeyLength !in AesKeySizes ==> r.Fail? && keyGenerator.keySize == old(keyGenerator.keySize)))
    {
      if !IsKeyEntry(keystore, privateKeyAlias) {
        return Fail(KeyStoreFailure(KeyAliasMissing));
      }
      if !IsCertificateEntry(keystore, recipientCertificateAlias) {
        return Fail(KeyStoreFailure(CertificateAliasMissing));
      }
      var key := GetKey(keystore, privateKeyAlias, privateKeyPassword);
      if key.Err? {
        return Fail(KeyStoreFailure(BadKeyPassword));
      }
      myPrivateKey := Some(key.value);
      recipientCertificate := Some(keystore[recipientCertificateAlias].certificate);
      r := keyGenerator.Init(symmetricKeyLength);
    }

    /** `encryptAndSign(filePath, output)`, given the bytes the key
        generator and the file cipher draw and the blocks in which the
        file stream delivers the content.  The digest engine is left as
        it was when the file cannot be opened, and reset afterwards
        otherwise. */
    method EncryptAndSign(fs: FileSystem, filePath: Path, output: Path, keyRandom: seq<int8>, iv: seq<int8>,
                          fileBlocks: seq<Block>)
      returns (r: Outcome)
      requires |keyRandom| * 8 == keyGenerator.KeyBits()
      requires Open(fs.files, fs.cwd, filePath).Some? ==> Concat(fileBlocks) == Open(fs.files, fs.cwd, filePath).value
      modifies fs, streamDigester.messageDigest
      ensures Run(r, fs.files)
           == EncryptAndSignRun(old(fs.files), fs.cwd, filePath, output, myPrivateKey, recipientCertificate,
                                streamDigester.messageDigest.algorithm, engines, SecretKey(keyRandom), iv)
      ensures var md := streamDigester.messageDigest;
        if Open(old(fs.files), fs.cwd, filePath).None?
        then md.calls == old(md.calls) && md.pending == old(md.pending)
        else md.calls == old(md.calls) + DigestTrace(fileBlocks) && md.pending == []
    {
      var fileDigest := streamDigester.DigestFile(fs, filePath, fileBlocks);
      if fileDigest.Err? {
        return Fail(fileDigest.error);
      }
      if myPrivateKey.None? {
        return Fail(InvalidKey);
      }
      var fileSignature := engines.sign(fileDigest.value, myPrivateKey.value);
      if fileSignature.Err? {
        return Fail(fileSignature.error);
      }
      var config: map<string, string> := map[];
      config := config["sig" := engines.encode(fileSignature.value)];

      var symmetricKey := keyGenerator.GenerateKey(keyRandom);

      if recipientCertificate.None? {
        return Fail(NullPointer);
      }
      var symmetricKeyEncrypted := engines.wrap(symmetricKey.encoded, recipientCertificate.value.publicKey);
      if symmetricKeyEncrypted.Err? {
        return Fail(symmetricKeyEncrypted.error);
      }
      config := config["key" := engines.encode(symmetricKeyEncrypted.value)];
      assert config == Manifest(fileSignature.value, symmetricKeyEncrypted.value, engines);

      r := FileEncrypt(fs, filePath, output, symmetricKey, iv, engines);
      if r.Fail? {
        return;
      }
      r := CreateConfigFileFor(fs, filePath, config);
    }

    /** `createConfigFileFor(filePath, config)`. */
    method CreateConfigFileFor(fs: FileSystem, filePath: Path, config: map<string, string>) returns (r: Outcome)
      modifies fs
      ensures Run(r, fs.files) == ConfigWrite(old(fs.files), fs.cwd, filePath, config, engines)
    {
      var configFile := ConfigPathFor(fs.cwd, filePath);
      if !CanWrite(fs.files, fs.cwd, configFile) {
        return Fail(FileNotFound(PathString(configFile)));
      }
      fs.files := Written(fs.files, fs.cwd, configFile, engines.toJson(config));
      return Pass;
    }
  }

  // ---- Properties of a run ----

  /** A successful run leaves the manifest — exactly "sig" and "key", no
      "iv" — at the config path derived from the source, and the
      encrypted content at the output. */
  lemma EncryptAndSignWrites(files: map<Path, Entry>, cwd: Path, filePath: Path, output: Path,
                             myKey: Option<PrivateKey>, recipient: Option<Certificate>,
                             hash: seq<int8> -> seq<int8>, e: Engines, symmetricKey: SecretKey, iv: seq<int8>)
    requires EncryptAndSignRun(files, cwd, filePath, output, myKey, recipient, hash, e, symmetricKey, iv).outcome.Pass?
    ensures var r := EncryptAndSignRun(files, cwd, filePath, output, myKey, recipient, hash, e, symmetricKey, iv);
      var content := Open(files, cwd, filePath).value;
      && myKey.Some? && recipient.Some?
      && e.sign(hash(content), myKey.value).Ok?
      && e.wrap(symmetricKey.encoded, recipient.value.publicKey).Ok?
      && var m := Manifest(e.sign(hash(content), myKey.value).value,
                           e.wrap(symmetricKey.encoded, recipient.value.publicKey).value, e);
      && m.Keys == {"sig", "key"}
      && r.files[Locate(cwd, ConfigPathFor(cwd, filePath)).value].content == e.toJson(m)
      && Locate(cwd, output).Some? && Locate(cwd, output).value in r.files
      && (Locate(cwd, output) != Locate(cwd, ConfigPathFor(cwd, filePath)) ==>
            r.files[Locate(cwd, output).value].content == e.encrypt(content, symmetricKey, iv))
  {
    var content := Open(files, cwd, filePath).value;
    var signature := e.sign(hash(content), myKey.value).value;
    var wrappedKey := e.wrap(symmetricKey.encoded, recipient.value.publicKey).value;
    var encrypted := FileCipher.EncryptRun(files, cwd, filePath, output, symmetricKey, iv, e);
    assert CanWrite(encrypted.files, cwd, ConfigPathFor(cwd, filePath));
  }

  /** A run that fails writes no manifest and leaves every file it found
      as it was; at most the new output file remains, holding the
      ciphertext when only the manifest could not be written. */
  lemma EncryptAndSignFailure(files: map<Path, Entry>, cwd: Path, filePath: Path, output: Path,
                              myKey: Option<PrivateKey>, recipient: Option<Certificate>,
                              hash: seq<int8> -> seq<int8>, e: Engines, symmetricKey: SecretKey, iv: seq<int8>)
    requires EncryptAndSignRun(files, cwd, filePath, output, myKey, recipient, hash, e, symmetricKey, iv).outcome.Fail?
    ensures var r := EncryptAndSignRun(files, cwd, filePath, output, myKey, recipient, hash, e, symmetricKey, iv);
      || r.files == files
      || (CanCreate(files, cwd, output)
          && r.files.Keys == files.Keys + {Locate(cwd, output).value}
          && forall q :: q in files ==> r.files[q] == files[q])
  {
    var r := EncryptAndSignRun(files, cwd, filePath, output, myKey, recipient, hash, e, symmetricKey, iv);
    var content := Open(files, cwd, filePath);
    if content.Some? && myKey.Some? && e.sign(hash(content.value), myKey.value).Ok? && recipient.Some?
       && e.wrap(symmetricKey.encoded, recipient.value.publicKey).Ok? {
      var encrypted := FileCipher.EncryptRun(files, cwd, filePath, output, symmetricKey, iv, e);
      EncryptRunEffect(files, cwd, filePath, output, symmetricKey, iv, e);
      if encrypted.outcome.Pass? {
        var p := ConfigPathFor(cwd, filePath);
        assert !CanWrite(encrypted.files, cwd, p);
        assert encrypted.files != files;
      }
    }
  }

  /** The content is digested and signed before the symmetric key is
      generated: a run that stops there is the same whatever the key and
      the IV would have been. */
  lemma SignedBeforeKeyGeneration(files: map<Path, Entry>, cwd: Path, filePath: Path, output: Path,
                                  myKey: Option<PrivateKey>, recipient: Option<Certificate>,
                                  hash: seq<int8> -> seq<int8>, e: Engines,
                                  k1: SecretKey, iv1: seq<int8>, k2: SecretKey, iv2: seq<int8>)
    requires Open(files, cwd, filePath).None? || myKey.None?
          || e.sign(hash(Open(files, cwd, filePath).value), myKey.value).Err?
    ensures EncryptAndSignRun(files, cwd, filePath, output, myKey, recipient, hash, e, k1, iv1)
         == EncryptAndSignRun(files, cwd, filePath, output, myKey, recipient, hash, e, k2, iv2)
  {
  }
}
