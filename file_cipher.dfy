/** `FileEncrypt.encrypt` and `FileDecrypt.decrypt`: the two guards, the
    cipher's initialisation, and the ciphered copy from one file to the
    other.  What the cipher does to the bytes belongs to the engines. */
module FileCipher {
  import opened Common
  import opened Files
  import opened Utils
  import opened Crypto

  /** How a step ends, and the files it leaves. */
  datatype Run = Run(outcome: Outcome, files: map<Path, Entry>)

  /** The file system once `ensurePathWritable` created `dest`. */
  function Created(files: map<Path, Entry>, cwd: Path, dest: Path): map<Path, Entry>
    requires CanCreate(files, cwd, dest)
  {
    files[Locate(cwd, dest).value := File([], true, true)]
  }

  /** The guards both directions run first: a readable source, then a
      destination that does not exist yet and can be created. */
  function Guards(files: map<Path, Entry>, cwd: Path, source: Path, dest: Path): (r: Run)
    ensures r.outcome.Pass? <==> CanRead(files, cwd, source) && CanCreate(files, cwd, dest)
    ensures r.outcome.Pass? ==> r.files == Created(files, cwd, dest)
    ensures r.outcome.Fail? ==> r.files == files
  {
    if !Exists(files, cwd, source) then
      Run(Fail(FileNotFound("Source file not found " + AbsoluteName(cwd, source))), files)
    else if !CanRead(files, cwd, source) then
      Run(Fail(FileNotFound("Source cannot be read " + AbsoluteName(cwd, source))), files)
    else if Exists(files, cwd, dest) then
      Run(Fail(IllegalArgument("File already exists in path " + AbsoluteName(cwd, dest))), files)
    else if !CanCreate(files, cwd, dest) then
      Run(Fail(IOFailure("cannot create " + AbsoluteName(cwd, dest))), files)
    else Run(Pass, Created(files, cwd, dest))
  }

  /** The run of `FileEncrypt.encrypt(source, dest, key)` with the IV the
      cipher draws. */
  function EncryptRun(files: map<Path, Entry>, cwd: Path, source: Path, dest: Path,
                      key: SecretKey, iv: seq<int8>, e: Engines): (r: Run)
  {
    var g := Guards(files, cwd, source, dest);
    if g.outcome.Fail? then g
    else if e.initEncrypt(key).Fail? then Run(e.initEncrypt(key), g.files)
    else match Open(g.files, cwd, source)
      case None => Run(Fail(FileNotFound(PathString(source))), g.files)
      case Some(content) => Run(Pass, Written(g.files, cwd, dest, e.encrypt(content, key, iv)))
  }

  /** The run of `FileDecrypt.decrypt(source, dest, key, iv)`: what the
      deciphering stream delivered is written even when it then fails. */
  function DecryptRun(files: map<Path, Entry>, cwd: Path, source: Path, dest: Path,
                      key: SecretKey, iv: seq<int8>, e: Engines): (r: Run)
  {
    var g := Guards(files, cwd, source, dest);
    if g.outcome.Fail? then g
    else if e.initDecrypt(key, iv).Fail? then Run(e.initDecrypt(key, iv), g.files)
    else match Open(g.files, cwd, source)
      case None => Run(Fail(FileNotFound(PathString(source))), g.files)
      case Some(content) =>
        var d := e.decrypt(content, key, iv);
        Run(if d.error.Some? then Fail(d.error.value) else Pass, Written(g.files, cwd, dest, d.plain))
  }

  /** A created destination can be written, and creating it leaves the
      source as it was. */
  lemma CreatedKeepsSource(files: map<Path, Entry>, cwd: Path, source: Path, dest: Path)
    requires CanRead(files, cwd, source) && CanCreate(files, cwd, dest)
    ensures CanWrite(Created(files, cwd, dest), cwd, dest)
    ensures Open(Created(files, cwd, dest), cwd, source) == Open(files, cwd, source)
  {
    assert Locate(cwd, source).value != Locate(cwd, dest).value;
  }

  /** Encryption touches at most the destination, which did not exist
      before; on success it holds the ciphered source content. */
  lemma EncryptRunEffect(files: map<Path, Entry>, cwd: Path, source: Path, dest: Path,
                         key: SecretKey, iv: seq<int8>, e: Engines)
    ensures var r := EncryptRun(files, cwd, source, dest, key, iv, e);
      && (r.files == files || (CanCreate(files, cwd, dest) && r.files.Keys == files.Keys + {Locate(cwd, dest).value}))
      && (forall q :: q in files ==> q in r.files && r.files[q] == files[q])
      && (r.outcome.Pass? <==> && CanRead(files, cwd, source) && CanCreate(files, cwd, dest)
                               && e.initEncrypt(key).Pass? && Open(files, cwd, source).Some?)
      && (r.outcome.Pass? ==>
            r.files[Locate(cwd, dest).value] == File(e.encrypt(Open(files, cwd, source).value, key, iv), true, true))
  {
    var g := Guards(files, cwd, source, dest);
    if g.outcome.Pass? {
      CreatedKeepsSource(files, cwd, source, dest);
    }
  }

  /** Decryption likewise touches at most the new destination, which ends
      up holding what the deciphering stream delivered. */
  lemma DecryptRunEffect(files: map<Path, Entry>, cwd: Path, source: Path, dest: Path,
                         key: SecretKey, iv: seq<int8>, e: Engines)
    ensures var r := DecryptRun(files, cwd, source, dest, key, iv, e);
      && (r.files == files || (CanCreate(files, cwd, dest) && r.files.Keys == files.Keys + {Locate(cwd, dest).value}))
      && (forall q :: q in files ==> q in r.files && r.files[q] == files[q])
      && (r.outcome.Pass? ==>
            && CanRead(files, cwd, source) && Open(files, cwd, source).Some?
            && e.decrypt(Open(files, cwd, source).value, key, iv).error.None?
            && r.files[Locate(cwd, dest).value]
               == File(e.decrypt(Open(files, cwd, source).value, key, iv).plain, true, true))
  {
    var g := Guards(files, cwd, source, dest);
    if g.outcome.Pass? {
      CreatedKeepsSource(files, cwd, source, dest);
    }
  }

  /** `FileEncrypt.encrypt`. */
  method FileEncrypt(fs: FileSystem, source: Path, dest: Path, key: SecretKey, iv: seq<int8>, e: Engines)
    returns (r: Outcome)
    modifies fs
    ensures Run(r, fs.files) == EncryptRun(old(fs.files), fs.cwd, source, dest, key, iv, e)
  {
    r := EnsurePathReadable(fs, source);
    if r.Fail? {
      return;
    }
    r := EnsurePathWritable(fs, dest);
    if r.Fail? {
      return;
    }
    r := e.initEncrypt(key);
    if r.Fail? {
      return;
    }
    var content := Open(fs.files, fs.cwd, source);
    if content.None? {
      return Fail(FileNotFound(PathString(source)));
    }
    fs.files := Written(fs.files, fs.cwd, dest, e.encrypt(content.value, key, iv));
  }

  /** `FileDecrypt.decrypt`. */
  method FileDecrypt(fs: FileSystem, source: Path, dest: Path, key: SecretKey, iv: seq<int8>, e: Engines)
    returns (r: Outcome)
    modifies fs
    ensures Run(r, fs.files) == DecryptRun(old(fs.files), fs.cwd, source, dest, key, iv, e)
  {
    r := EnsurePathReadable(fs, source);
    if r.Fail? {
      return;
    }
    r := EnsurePathWritable(fs, dest);
    if r.Fail? {
      return;
    }
    r := e.initDecrypt(key, iv);
    if r.Fail? {
      return;
    }
    var content := Open(fs.files, fs.cwd, source);
    if content.None? {
      return Fail(FileNotFound(PathString(source)));
    }
    var d := e.decrypt(content.value, key, iv);
    fs.files := Written(fs.files, fs.cwd, dest, d.plain);
    r := if d.error.Some? then Fail(d.error.value) else Pass;
  }
}
