/** `EncryptTool`: the command line of the encrypting and decrypting tool —
    validation of the arguments, the choice of passwords and the paths
    each direction reads and writes. */
module Tool {
  import opened Common
  import opened Files
  import opened Utils
  import opened Encryption

  /** The switch list handed to the parser, spelled without a dash. */
  const Switches: seq<string> := ["encrypt", "decrypt"]

  const EncryptSwitchName: string := "encrypt"
  const DecryptSwitchName: string := "decrypt"
  const KeystoreParamName: string := "keystore"
  const KeystorePasswordParamName: string := "password"
  const MyAliasParamName: string := "myalias"
  const MyAliasPasswordParamName: string := "myaliaspassword"
  const RecipientAliasParamName: string := "recalias"
  const FileParamName: string := "file"

  const EitherSwitch: string := "Either -encrypt or -decrypt should be used, but not both"

  /** The five names that must be present, in the order they are checked. */
  const Required: seq<string> :=
    [KeystoreParamName, KeystorePasswordParamName, MyAliasPasswordParamName, RecipientAliasParamName, FileParamName]

  /** The first required name missing from `m`, if any. */
  function FirstMissing(m: map<string, string>, names: seq<string>): (r: Option<string>)
    ensures r.None? <==> forall i :: 0 <= i < |names| ==> names[i] in m
    ensures r.Some? ==> r.value in names && r.value !in m
  {
    if names == [] then None
    else if names[0] !in m then Some(names[0])
    else FirstMissing(m, names[1..])
  }

  /** The presence checks and the exactly-one rule of `validateInput`. */
  function CheckParams(m: map<string, string>): (r: Outcome)
    ensures r.Pass? <==> && KeystoreParamName in m && KeystorePasswordParamName in m
                         && MyAliasPasswordParamName in m && RecipientAliasParamName in m && FileParamName in m
                         && (EncryptSwitchName in m <==> DecryptSwitchName !in m)
    ensures r.Fail? ==> r.error.MissingFormatArgument?
  {
    match FirstMissing(m, Required)
    case Some(name) => EnsureParamDefinition(name, m)
    case None =>
      assert Required[0] in m && Required[1] in m && Required[2] in m && Required[3] in m && Required[4] in m;
      if (EncryptSwitchName in m) == (DecryptSwitchName in m) then Fail(MissingFormatArgument(EitherSwitch))
      else Pass
  }

  /** How `validateInput` ends: it returns, or exits with -1 after printing
      the message and the guide, or after printing a stack trace. */
  datatype Validation = Proceed | ExitWithGuide(error: Exception) | ExitWithTrace(error: Exception)

  /** The whole of `validateInput`, after a parse. */
  function Validate(parsed: Parsed, files: map<Path, Entry>, cwd: Path): (v: Validation)
    ensures v.Proceed? <==> && parsed.error.None? && CheckParams(parsed.entries).Pass?
                            && CanRead(files, cwd, ParsePath(parsed.entries[FileParamName]))
    ensures v.ExitWithGuide? <==> parsed.error.Some? || CheckParams(parsed.entries).Fail?
    ensures v.ExitWithGuide? && parsed.error.Some? ==> v.error == parsed.error.value
    ensures v.ExitWithTrace? ==> v.error.FileNotFound?
  {
    if parsed.error.Some? then ExitWithGuide(parsed.error.value)
    else if CheckParams(parsed.entries).Fail? then ExitWithGuide(CheckParams(parsed.entries).error)
    else
      var source := ParsePath(parsed.entries[FileParamName]);
      if !Exists(files, cwd, source) then
        ExitWithTrace(FileNotFound("Source file not found " + AbsoluteName(cwd, source)))
      else if !CanRead(files, cwd, source) then
        ExitWithTrace(FileNotFound("Source cannot be read " + AbsoluteName(cwd, source)))
      else Proceed
  }

  /** `validateInput(args)`, writing into the program's static map. */
  method ValidateInput(programParams: ParamMap, args: seq<string>, fs: FileSystem) returns (v: Validation)
    modifies programParams
    ensures programParams.entries == Parse(args, old(programParams.entries), Switches, DropDash).entries
    ensures v == Validate(Parse(args, old(programParams.entries), Switches, DropDash), fs.files, fs.cwd)
  {
    var error := ParseParams(args, programParams, Switches);
    if error.Some? {
      return ExitWithGuide(error.value);
    }
    var i := 0;
    while i < |Required|
      invariant 0 <= i <= |Required|
      invariant forall j :: 0 <= j < i ==> Required[j] in programParams.entries
    {
      var check := EnsureParamDefinition(Required[i], programParams.entries);
      if check.Fail? {
        FirstMissingIsFirst(programParams.entries, Required, i);
        return ExitWithGuide(check.error);
      }
      i := i + 1;
    }
    var m := programParams.entries;
    assert FileParamName == Required[4];
    if (EncryptSwitchName in m) == (DecryptSwitchName in m) {
      return ExitWithGuide(MissingFormatArgument(EitherSwitch));
    }
    var readable := EnsurePathReadable(fs, ParsePath(m[FileParamName]));
    if readable.Fail? {
      return ExitWithTrace(readable.error);
    }
    return Proceed;
  }

  lemma {:induction false} FirstMissingIsFirst(m: map<string, string>, names: seq<string>, i: nat)
    requires i < |names| && names[i] !in m
    requires forall j :: 0 <= j < i ==> names[j] in m
    ensures FirstMissing(m, names) == Some(names[i])
  {
    if i > 0 {
      FirstMissingIsFirst(m, names[1..], i - 1);
    }
  }

  // ---- Parsing with this switch list ----

  /** No argument ever matches a switch: an argument starts with '-' and
      the switch names do not.  The parse is the one with no switches. */
  lemma {:induction false} SwitchesNeverMatch(args: seq<string>, acc: map<string, string>)
    ensures Parse(args, acc, Switches, DropDash) == Parse(args, acc, [], DropDash)
  {
    if args != [] && StartsWithDash(args[0]) {
      assert args[0] !in Switches by {
        assert args[0][0] == '-';
        assert Switches[0][0] != '-' && Switches[1][0] != '-';
      }
      if |args| >= 2 {
        SwitchesNeverMatch(args[2..], acc[ValueKey(args[0], DropDash) := args[1]]);
      }
    }
  }

  /** So "-encrypt" is the key "encrypt" taking the next argument as its value. */
  lemma DashSwitchTakesValue(switch: string, value: string, rest: seq<string>, acc: map<string, string>)
    requires switch in Switches
    ensures Parse(["-" + switch, value] + rest, acc, Switches, DropDash)
         == Parse(rest, acc[switch := value], Switches, DropDash)
  {
    var name := "-" + switch;
    assert name[1..] == switch;
    assert name !in Switches;
    assert ([name, value] + rest)[2..] == rest;
  }

  /** The usage line of the guide, `-encrypt -keystore <file> ...`, is
      refused: "-encrypt" swallows "-keystore" and the keystore file name
      is then taken for a parameter name. */
  lemma DocumentedUsageRejected(keystoreFile: string, rest: seq<string>, acc: map<string, string>,
                                files: map<Path, Entry>, cwd: Path)
    requires !StartsWithDash(keystoreFile)
    ensures Parse(["-encrypt", "-keystore", keystoreFile] + rest, acc, Switches, DropDash)
         == Parsed(acc["encrypt" := "-keystore"], Some(IllegalArgument(BadNameMessage(keystoreFile))))
    ensures Validate(Parse(["-encrypt", "-keystore", keystoreFile] + rest, acc, Switches, DropDash), files, cwd).ExitWithGuide?
  {
    DashSwitchTakesValue("encrypt", "-keystore", [keystoreFile] + rest, acc);
    assert "-" + "encrypt" == "-encrypt";
    assert ["-encrypt", "-keystore", keystoreFile] + rest == ["-" + "encrypt", "-keystore"] + ([keystoreFile] + rest);
  }

  /** Names are compared as typed: the guide's "-myAliasPassword" is stored
      as "myAliasPassword", and the check for "myaliaspassword" fails. */
  lemma CaseSensitiveNames(m: map<string, string>, value: string)
    requires KeystoreParamName in m && KeystorePasswordParamName in m && MyAliasPasswordParamName !in m
    ensures "myAliasPassword" != MyAliasPasswordParamName
    ensures CheckParams(m["myAliasPassword" := value])
         == Fail(MissingFormatArgument("Missing argument: " + MyAliasPasswordParamName))
  {
    var m' := m["myAliasPassword" := value];
    assert "myAliasPassword"[2] != MyAliasPasswordParamName[2];
    assert Required[0] in m' && Required[1] in m' && Required[2] !in m';
    FirstMissingIsFirst(m', Required, 2);
  }

  /** "myalias" is not among the required names: its presence changes nothing. */
  lemma MyAliasNotRequired(m: map<string, string>, value: string)
    ensures CheckParams(m[MyAliasParamName := value]) == CheckParams(m - {MyAliasParamName})
  {
    var a, b := m[MyAliasParamName := value], m - {MyAliasParamName};
    assert forall i :: 0 <= i < |Required| ==> Required[i] != MyAliasParamName;
    assert forall i :: 0 <= i < |Required| ==> (Required[i] in a <==> Required[i] in b);
    FirstMissingAgree(a, b, Required);
    assert (EncryptSwitchName in a <==> EncryptSwitchName in b) && (DecryptSwitchName in a <==> DecryptSwitchName in b);
    if FirstMissing(a, Required).Some? {
      var name := FirstMissing(a, Required).value;
      assert EnsureParamDefinition(name, a) == EnsureParamDefinition(name, b);
    }
  }

  lemma {:induction false} FirstMissingAgree(a: map<string, string>, b: map<string, string>, names: seq<string>)
    requires forall i :: 0 <= i < |names| ==> (names[i] in a <==> names[i] in b)
    ensures FirstMissing(a, names) == FirstMissing(b, names)
  {
    if names != [] {
      FirstMissingAgree(a, b, names[1..]);
    }
  }

  /** A name given as "-name value" is put under "name". */
  lemma NameTakesValue(name: string, value: string, rest: seq<string>, acc: map<string, string>)
    requires name !in Switches
    ensures Parse(["-" + name, value] + rest, acc, Switches, DropDash)
         == Parse(rest, acc[name := value], Switches, DropDash)
  {
    var arg := "-" + name;
    assert arg[1..] == name;
    assert arg !in Switches by { assert arg[0] == '-'; }
    assert ([arg, value] + rest)[2..] == rest;
  }

  /** The entries of a complete call to the tool. */
  function CallEntries(switch: string, switchValue: string, ks: string, pw: string, ap: string, ra: string, f: string)
    : map<string, string>
  {
    map[switch := switchValue, KeystoreParamName := ks, KeystorePasswordParamName := pw,
        MyAliasPasswordParamName := ap, RecipientAliasParamName := ra, FileParamName := f]
  }

  /** Such entries, with one switch, pass validation when the file is readable. */
  lemma CallEntriesValid(switch: string, switchValue: string, ks: string, pw: string, ap: string, ra: string, f: string,
                         files: map<Path, Entry>, cwd: Path)
    requires switch in Switches
    requires CanRead(files, cwd, ParsePath(f))
    ensures Validate(Parsed(CallEntries(switch, switchValue, ks, pw, ap, ra, f), None), files, cwd) == Proceed
  {
    var m := CallEntries(switch, switchValue, ks, pw, ap, ra, f);
    assert switch == EncryptSwitchName || switch == DecryptSwitchName;
    assert EncryptSwitchName != DecryptSwitchName;
  }

  /** The five name-value pairs after the switch, as typed. */
  function Tail(ks: string, pw: string, ap: string, ra: string, f: string): seq<string>
  {
    ["-keystore", ks, "-password", pw, "-myaliaspassword", ap, "-recalias", ra, "-file", f]
  }

  /** Parsing those five pairs puts the five values. */
  lemma ParseTail(ks: string, pw: string, ap: string, ra: string, f: string, acc: map<string, string>)
    ensures Parse(Tail(ks, pw, ap, ra, f), acc, Switches, DropDash)
         == Parsed(acc[KeystoreParamName := ks][KeystorePasswordParamName := pw][MyAliasPasswordParamName := ap]
                      [RecipientAliasParamName := ra][FileParamName := f], None)
  {
    var t5: seq<string> := [];
    var t4 := ["-" + FileParamName, f] + t5;
    var t3 := ["-" + RecipientAliasParamName, ra] + t4;
    var t2 := ["-" + MyAliasPasswordParamName, ap] + t3;
    var t1 := ["-" + KeystorePasswordParamName, pw] + t2;
    var t0 := ["-" + KeystoreParamName, ks] + t1;
    assert "-" + KeystoreParamName == "-keystore" && "-" + KeystorePasswordParamName == "-password";
    assert "-" + MyAliasPasswordParamName == "-myaliaspassword";
    assert "-" + RecipientAliasParamName == "-recalias" && "-" + FileParamName == "-file";
    assert t0 == Tail(ks, pw, ap, ra, f);
    var m1 := acc[KeystoreParamName := ks];
    var m2 := m1[KeystorePasswordParamName := pw];
    var m3 := m2[MyAliasPasswordParamName := ap];
    var m4 := m3[RecipientAliasParamName := ra];
    NameTakesValue(FileParamName, f, t5, m4);
    NameTakesValue(RecipientAliasParamName, ra, t4, m3);
    NameTakesValue(MyAliasPasswordParamName, ap, t3, m2);
    NameTakesValue(KeystorePasswordParamName, pw, t2, m1);
    NameTakesValue(KeystoreParamName, ks, t1, acc);
  }

  /** The call that does get through: the switch given a throw-away value
      ("-encrypt yes"), every name in lower case, and a readable file. */
  lemma WorkingCall(ks: string, pw: string, ap: string, ra: string, f: string,
                    files: map<Path, Entry>, cwd: Path)
    requires CanRead(files, cwd, ParsePath(f))
    ensures var parsed := Parse(["-encrypt", "yes"] + Tail(ks, pw, ap, ra, f), map[], Switches, DropDash);
      && parsed == Parsed(CallEntries(EncryptSwitchName, "yes", ks, pw, ap, ra, f), None)
      && Validate(parsed, files, cwd) == Proceed
  {
    var m0: map<string, string> := map[];
    DashSwitchTakesValue(EncryptSwitchName, "yes", Tail(ks, pw, ap, ra, f), m0);
    assert "-" + EncryptSwitchName == "-encrypt";
    ParseTail(ks, pw, ap, ra, f, m0[EncryptSwitchName := "yes"]);
    CallEntriesValid(EncryptSwitchName, "yes", ks, pw, ap, ra, f, files, cwd);
  }

  /** The corrected parse: a name is compared with the switches without
      its dash, and stored without it, so "-encrypt" is a flag. */
  function CorrectedParse(args: seq<string>, acc: map<string, string>): Parsed
  {
    if args == [] then Parsed(acc, None)
    else if !StartsWithDash(args[0]) then Parsed(acc, Some(IllegalArgument(BadNameMessage(args[0]))))
    else if args[0][1..] in Switches then CorrectedParse(args[1..], acc[args[0][1..] := "true"])
    else if |args| == 1 then Parsed(acc, Some(IndexOutOfBounds))
    else CorrectedParse(args[2..], acc[args[0][1..] := args[1]])
  }

  /** Under the corrected parse a switch takes no value ... */
  lemma CorrectedSwitchIsFlag(switch: string, rest: seq<string>, acc: map<string, string>)
    requires switch in Switches
    ensures CorrectedParse(["-" + switch] + rest, acc) == CorrectedParse(rest, acc[switch := "true"])
  {
    var arg := "-" + switch;
    assert arg[1..] == switch;
    assert ([arg] + rest)[1..] == rest;
  }

  /** ... and any other name still does. */
  lemma CorrectedNameTakesValue(name: string, value: string, rest: seq<string>, acc: map<string, string>)
    requires name !in Switches
    ensures CorrectedParse(["-" + name, value] + rest, acc) == CorrectedParse(rest, acc[name := value])
  {
    var arg := "-" + name;
    assert arg[1..] == name;
    assert ([arg, value] + rest)[2..] == rest;
  }

  /** The corrected parse of the five pairs puts the same five values. */
  lemma CorrectedParseTail(ks: string, pw: string, ap: string, ra: string, f: string, acc: map<string, string>)
    ensures CorrectedParse(Tail(ks, pw, ap, ra, f), acc)
         == Parsed(acc[KeystoreParamName := ks][KeystorePasswordParamName := pw][MyAliasPasswordParamName := ap]
                      [RecipientAliasParamName := ra][FileParamName := f], None)
  {
    var t5: seq<string> := [];
    var t4 := ["-" + FileParamName, f] + t5;
    var t3 := ["-" + RecipientAliasParamName, ra] + t4;
    var t2 := ["-" + MyAliasPasswordParamName, ap] + t3;
    var t1 := ["-" + KeystorePasswordParamName, pw] + t2;
    var t0 := ["-" + KeystoreParamName, ks] + t1;
    assert "-" + KeystoreParamName == "-keystore" && "-" + KeystorePasswordParamName == "-password";
    assert "-" + MyAliasPasswordParamName == "-myaliaspassword";
    assert "-" + RecipientAliasParamName == "-recalias" && "-" + FileParamName == "-file";
    assert t0 == Tail(ks, pw, ap, ra, f);
    var m1 := acc[KeystoreParamName := ks];
    var m2 := m1[KeystorePasswordParamName := pw];
    var m3 := m2[MyAliasPasswordParamName := ap];
    var m4 := m3[RecipientAliasParamName := ra];
    CorrectedNameTakesValue(FileParamName, f, t5, m4);
    CorrectedNameTakesValue(RecipientAliasParamName, ra, t4, m3);
    CorrectedNameTakesValue(MyAliasPasswordParamName, ap, t3, m2);
    CorrectedNameTakesValue(KeystorePasswordParamName, pw, t2, m1);
    CorrectedNameTakesValue(KeystoreParamName, ks, t1, acc);
  }

  /** With the corrected parse, the call the guide describes (in lower
      case, with the recipient alias) gets through, where the parse as
      written refuses it. */
  lemma CorrectedAcceptsUsage(switch: string, ks: string, pw: string, ap: string, ra: string, f: string,
                              files: map<Path, Entry>, cwd: Path)
    requires switch in Switches
    requires !StartsWithDash(ks)
    requires CanRead(files, cwd, ParsePath(f))
    ensures CorrectedParse(["-" + switch] + Tail(ks, pw, ap, ra, f), map[])
         == Parsed(CallEntries(switch, "true", ks, pw, ap, ra, f), None)
    ensures Validate(CorrectedParse(["-" + switch] + Tail(ks, pw, ap, ra, f), map[]), files, cwd) == Proceed
    ensures Validate(Parse(["-encrypt"] + Tail(ks, pw, ap, ra, f), map[], Switches, DropDash), files, cwd).ExitWithGuide?
  {
    var m0: map<string, string> := map[];
    CorrectedSwitchIsFlag(switch, Tail(ks, pw, ap, ra, f), m0);
    CorrectedParseTail(ks, pw, ap, ra, f, m0[switch := "true"]);
    CallEntriesValid(switch, "true", ks, pw, ap, ra, f, files, cwd);
    var rest := Tail(ks, pw, ap, ra, f)[2..];
    assert ["-encrypt"] + Tail(ks, pw, ap, ra, f) == ["-encrypt", "-keystore", ks] + rest;
    DocumentedUsageRejected(ks, rest, map[], files, cwd);
  }

  // ---- Passwords and paths ----

  /** The alias password: "myaliaspassword" if given, else the keystore
      password (`null` when neither is there). */
  function AliasPassword(m: map<string, string>): (r: Option<string>)
    ensures MyAliasPasswordParamName in m ==> r == Some(m[MyAliasPasswordParamName])
    ensures MyAliasPasswordParamName !in m && KeystorePasswordParamName in m ==> r == Some(m[KeystorePasswordParamName])
    ensures r.None? <==> MyAliasPasswordParamName !in m && KeystorePasswordParamName !in m
  {
    if MyAliasPasswordParamName in m then Some(m[MyAliasPasswordParamName])
    else if KeystorePasswordParamName in m then Some(m[KeystorePasswordParamName])
    else None
  }

  /** Validation requires "myaliaspassword", so the fallback to the
      keystore password is never taken once validation passed. */
  lemma FallbackUnreachable(parsed: Parsed, files: map<Path, Entry>, cwd: Path)
    requires Validate(parsed, files, cwd).Proceed?
    ensures AliasPassword(parsed.entries) == Some(parsed.entries[MyAliasPasswordParamName])
  {
  }

  const EncryptedSuffix: string := "-encrypted"

  /** `Paths.get(String.format("%s-encrypted", sourceFilePath.toAbsolutePath()))`:
      the absolute source path with "-encrypted" added to its last name. */
  function EncryptedPathFor(cwd: Path, source: Path): (p: Path)
    ensures p.absolute && WellFormed(p)
    ensures WellFormed(cwd) && WellFormed(source) ==>
      p == Path(true, AppendToLast(ToAbsolute(cwd, source).names, EncryptedSuffix))
  {
    SuffixedAbsolute(cwd, source, EncryptedSuffix);
    ParsePath(PathString(ToAbsolute(cwd, source)) + EncryptedSuffix)
  }

  /** `Paths.get(String.format("%s/decrypted.txt", encryptedSourceFile.getParent().toAbsolutePath()))`:
      the parent is taken of the path as typed, and is `null` for a bare name. */
  function DecryptedPathFor(cwd: Path, encrypted: Path): (r: Result<Path>)
    ensures r.Err? <==> Parent(encrypted).None?
  {
    match Parent(encrypted)
    case None => Err(NullPointer)
    case Some(parent) => Ok(ParsePath(PathString(ToAbsolute(cwd, parent)) + "/decrypted.txt"))
  }

  /** `Paths.get(String.format("%s-config.json", encryptedSourceFile.toAbsolutePath()))`:
      the encrypter's manifest derivation, applied to the encrypted file
      rather than to its source. */
  function ConfigReadPathFor(cwd: Path, encrypted: Path): (p: Path)
    ensures p == ConfigPathFor(cwd, encrypted)
  {
    ParsePath(PathString(ToAbsolute(cwd, encrypted)) + ConfigSuffix)
  }

  /** When there is a parent, the output is "decrypted.txt" in its absolute form. */
  lemma DecryptedPathShape(cwd: Path, encrypted: Path)
    requires WellFormed(cwd) && WellFormed(encrypted) && Parent(encrypted).Some?
    ensures DecryptedPathFor(cwd, encrypted)
         == Ok(Path(true, ToAbsolute(cwd, Parent(encrypted).value).names + ["decrypted.txt"]))
  {
    var parent := Parent(encrypted).value;
    ParentWellFormed(encrypted);
    AbsoluteWellFormed(cwd, parent);
    DecryptedIn(ToAbsolute(cwd, parent));
  }

  /** "decrypted.txt" inside an absolute directory. */
  lemma DecryptedIn(dir: Path)
    requires WellFormed(dir) && dir.absolute
    ensures ParsePath(PathString(dir) + "/decrypted.txt") == Path(true, dir.names + ["decrypted.txt"])
  {
    Child(dir, "decrypted.txt");
    assert PathString(dir) + "/decrypted.txt" == PathString(dir) + "/" + "decrypted.txt";
  }

  /** A file given by its bare name, as in `-file secret.txt`, has no
      parent, and the decrypting branch throws a NullPointerException. */
  lemma BareNameHasNoParent(cwd: Path, name: string)
    requires name != [] && '/' !in name
    ensures DecryptedPathFor(cwd, ParsePath(name)) == Err(NullPointer)
  {
    ParsedWellFormed(name);
    Suffixed(Path(false, []), name);
    assert PathString(Path(false, [])) + name == name;
  }

  /** The corrected derivation: the parent of the absolute path, which
      every named file has. */
  function CorrectedDecryptedPathFor(cwd: Path, encrypted: Path): (r: Result<Path>)
  {
    match Parent(ToAbsolute(cwd, encrypted))
    case None => Err(NullPointer)
    case Some(parent) => Ok(ParsePath(PathString(parent) + "/decrypted.txt"))
  }

  /** The corrected output is the sibling "decrypted.txt" of the absolute
      file path, for every file that has a name, bare names included. */
  lemma CorrectedDecryptedPathShape(cwd: Path, encrypted: Path)
    requires WellFormed(cwd) && WellFormed(encrypted)
    requires ToAbsolute(cwd, encrypted).names != []
    ensures var a := ToAbsolute(cwd, encrypted);
      CorrectedDecryptedPathFor(cwd, encrypted) == Ok(Path(true, a.names[..|a.names| - 1] + ["decrypted.txt"]))
  {
    var a := ToAbsolute(cwd, encrypted);
    AbsoluteWellFormed(cwd, encrypted);
    ParentWellFormed(a);
    DecryptedIn(Parent(a).value);
  }

  /** Where the code as written finds a parent, the corrected derivation
      gives the same path. */
  lemma CorrectedAgreesWithParent(cwd: Path, encrypted: Path)
    requires WellFormed(cwd) && WellFormed(encrypted) && Parent(encrypted).Some?
    ensures CorrectedDecryptedPathFor(cwd, encrypted) == DecryptedPathFor(cwd, encrypted)
  {
    DecryptedPathShape(cwd, encrypted);
    CorrectedDecryptedPathShape(cwd, encrypted);
    var a := ToAbsolute(cwd, encrypted);
    var parent := Parent(encrypted).value;
    assert ToAbsolute(cwd, parent).names == a.names[..|a.names| - 1];
  }

  /** Decrypting the encrypted file of `source` reads
      "<source>-encrypted-config.json", while the manifest was written to
      "<source>-config.json". */
  lemma ManifestNotWhereDecryptionLooks(cwd: Path, source: Path)
    requires WellFormed(cwd) && WellFormed(source)
    ensures ConfigReadPathFor(cwd, EncryptedPathFor(cwd, source)) != ConfigPathFor(cwd, source)
  {
    var a := ToAbsolute(cwd, source);
    var enc := EncryptedPathFor(cwd, source);
    assert ToAbsolute(cwd, enc) == enc;
    var n1 := AppendToLast(AppendToLast(a.names, "-encrypted"), ConfigSuffix);
    var n2 := AppendToLast(a.names, ConfigSuffix);
    assert |n1| == |n2|;
    assert |n1[|n1| - 1]| != |n2[|n2| - 1]|;
  }

  /** The corrected manifest path of an encrypted file: "-encrypted" is
      taken off before "-config.json" is added, which names the manifest
      the encrypting branch wrote. */
  function CorrectedConfigReadPathFor(cwd: Path, encrypted: Path): Path
  {
    var s := PathString(ToAbsolute(cwd, encrypted));
    if |s| >= |EncryptedSuffix| && s[|s| - |EncryptedSuffix|..] == EncryptedSuffix
    then ParsePath(s[..|s| - |EncryptedSuffix|] + ConfigSuffix)
    else ParsePath(s + ConfigSuffix)
  }

  /** Decrypting the encrypted file of `source` with the corrected path
      reads the manifest written for `source`. */
  lemma CorrectedFindsManifest(cwd: Path, source: Path)
    requires WellFormed(cwd) && WellFormed(source)
    ensures CorrectedConfigReadPathFor(cwd, EncryptedPathFor(cwd, source)) == ConfigPathFor(cwd, source)
  {
    var a := ToAbsolute(cwd, source);
    AbsoluteWellFormed(cwd, source);
    Suffixed(a, EncryptedSuffix);
    var enc := EncryptedPathFor(cwd, source);
    assert ToAbsolute(cwd, enc) == enc;
    var s := PathString(enc);
    assert s == PathString(a) + EncryptedSuffix;
    assert s[|s| - |EncryptedSuffix|..] == EncryptedSuffix;
    assert s[..|s| - |EncryptedSuffix|] == PathString(a);
  }

  /** The encrypted output and the manifest are different files. */
  lemma OutputIsNotManifest(cwd: Path, source: Path)
    requires WellFormed(cwd) && WellFormed(source)
    ensures Locate(cwd, EncryptedPathFor(cwd, source)) != Locate(cwd, ConfigPathFor(cwd, source))
  {
    var names := ToAbsolute(cwd, source).names;
    var n1, n2 := AppendToLast(names, EncryptedSuffix), AppendToLast(names, ConfigSuffix);
    assert |n1[|n1| - 1]| != |n2[|n2| - 1]|;
  }

  // ---- The decision of `main` ----

  /** What `main` goes on to do after validation, and with what. */
  datatype Plan =
    | EncryptPlan(myAlias: Option<string>, aliasPassword: string, recipientAlias: string,
                  source: Path, output: Path)
    | DecryptPlan(myAlias: Option<string>, aliasPassword: string, senderAlias: string,
                  encryptedFile: Path, configFile: Path, decryptedOutput: Result<Path>)

  function Given(m: map<string, string>, name: string): Option<string>
  {
    if name in m then Some(m[name]) else None
  }

  /** `main`'s branch: the "encrypt" key is looked at first. */
  function PlanFor(m: map<string, string>, cwd: Path): (p: Plan)
    requires CheckParams(m).Pass?
    ensures p.EncryptPlan? <==> EncryptSwitchName in m
    ensures p.aliasPassword == m[MyAliasPasswordParamName]
  {
    var file := ParsePath(m[FileParamName]);
    var password := AliasPassword(m).value;
    if EncryptSwitchName in m then
      EncryptPlan(Given(m, MyAliasParamName), password, m[RecipientAliasParamName], file, EncryptedPathFor(cwd, file))
    else
      DecryptPlan(Given(m, MyAliasParamName), password, m[RecipientAliasParamName], file,
                  ConfigReadPathFor(cwd, file), DecryptedPathFor(cwd, file))
  }

  /** The input of the encrypting branch is a named file; its output is a
      different file, next to it. */
  lemma EncryptOutputIsNotSource(cwd: Path, source: Path)
    requires WellFormed(cwd) && WellFormed(source)
    ensures ToAbsolute(cwd, EncryptedPathFor(cwd, source)) != ToAbsolute(cwd, source)
  {
    var a := ToAbsolute(cwd, source);
    var n := AppendToLast(a.names, "-encrypted");
    if a.names != [] {
      assert |n[|n| - 1]| != |a.names[|a.names| - 1]|;
    }
  }
}
