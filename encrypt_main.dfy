/** The `Encrypt` program: its own parser, which keeps the dash in the key
    names, an empty switch list, and a `main` that checks for "password"
    and "file" and answers every exception with the usage guide. */
module EncryptProgram {
  import opened Common
  import opened Files
  import opened Utils

  /** The class's static state: `programParams`, which lives as long as the
      class and so collects the entries of every call. */
  class Encrypt {
    /** `switches`: declared and never filled. */
    const switches: seq<string>
    var programParams: map<string, string>

    /** Every key came from a typed `-name`: none lacks its dash. */
    ghost predicate Valid()
      reads this
    {
      forall k :: k in programParams ==> StartsWithDash(k)
    }

    constructor ()
      ensures switches == [] && programParams == map[] && Valid()
    {
      switches := [];
      programParams := map[];
    }

    /** `parseParams(params)`: as the shared parser, but each `-name value`
        pair is put under "-name". */
    method ParseParams(params: seq<string>) returns (error: Option<Exception>)
      modifies this
      ensures Parsed(programParams, error) == Parse(params, old(programParams), switches, KeepDash)
    {
      var i := 0;
      while i < |params|
        invariant 0 <= i <= |params|
        invariant Parse(params, old(programParams), switches, KeepDash)
               == Parse(params[i..], programParams, switches, KeepDash)
      {
        var param := params[i];
        if !StartsWithDash(param) {
          return Some(IllegalArgument(BadNameMessage(param)));
        }
        if param in switches {
          programParams := programParams[param := "true"];
        } else {
          i := i + 1;
          if i == |params| {
            return Some(IndexOutOfBounds);
          }
          var paramValue := params[i];
          programParams := programParams[param := paramValue];
        }
        i := i + 1;
      }
      return None;
    }

    /** `ensureParamDefinition(param)`: a lookup that changes nothing. */
    method EnsureParamDefinition(param: string) returns (r: Outcome)
      ensures r.Pass? <==> param in programParams
      ensures r.Fail? ==> r.error == MissingFormatArgument("Missing argument: " + param)
    {
      if param !in programParams {
        return Fail(MissingFormatArgument("Missing argument: " + param));
      }
      return Pass;
    }

    /** `main(args)`: whether the usage guide is printed.  The entries
        parsed stay in the map, whatever happens after. */
    method Run(args: seq<string>, fs: FileSystem) returns (guidePrinted: bool)
      requires Valid()
      modifies this
      ensures Valid()
      ensures programParams == Parse(args, old(programParams), switches, KeepDash).entries
      ensures guidePrinted == MainOutcome(Parse(args, old(programParams), switches, KeepDash), fs.files, fs.cwd, "password", "file").Fail?
      ensures guidePrinted
    {
      var error := ParseParams(args);
      ParsePutsDashedKeys(args, old(programParams), switches);
      if error.Some? {
        return true;
      }
      var check := EnsureParamDefinition("password");
      if check.Fail? {
        return true;
      }
      check := EnsureParamDefinition("file");
      if check.Fail? {
        return true;
      }
      check := EnsureFileExists(programParams["file"], fs);
      return check.Fail?;
    }
  }

  /** `ensureFileExists(file)`. */
  method EnsureFileExists(file: string, fs: FileSystem) returns (r: Outcome)
    ensures r.Pass? <==> Exists(fs.files, fs.cwd, ParsePath(file))
    ensures r.Fail? ==> r.error == FileNotFound("File " + file + " does not exist")
  {
    if !Exists(fs.files, fs.cwd, ParsePath(file)) {
      return Fail(FileNotFound("File " + file + " does not exist"));
    }
    return Pass;
  }

  /** What the `try` block of `main` ends in, after a parse, when it looks up
      the password under `passwordKey` and the file under `fileKey` (`main`
      itself uses "password" and "file"). */
  function MainOutcome(parsed: Parsed, files: map<Path, Entry>, cwd: Path, passwordKey: string, fileKey: string)
    : (r: Outcome)
    ensures r.Pass? <==> && parsed.error.None? && passwordKey in parsed.entries && fileKey in parsed.entries
                         && Exists(files, cwd, ParsePath(parsed.entries[fileKey]))
    ensures parsed.error.None? && passwordKey !in parsed.entries ==>
      r == Fail(MissingFormatArgument("Missing argument: " + passwordKey))
  {
    if parsed.error.Some? then Fail(parsed.error.value)
    else if EnsureParamDefinition(passwordKey, parsed.entries).Fail? then EnsureParamDefinition(passwordKey, parsed.entries)
    else if EnsureParamDefinition(fileKey, parsed.entries).Fail? then EnsureParamDefinition(fileKey, parsed.entries)
    else if !Exists(files, cwd, ParsePath(parsed.entries[fileKey])) then
      Fail(FileNotFound("File " + parsed.entries[fileKey] + " does not exist"))
    else Pass
  }

  // ---- Properties ----

  /** Every key this parser puts is a name as typed, dash included. */
  lemma {:induction false} ParsePutsDashedKeys(args: seq<string>, acc: map<string, string>, switches: seq<string>)
    ensures forall k :: k in Parse(args, acc, switches, KeepDash).entries ==> k in acc || StartsWithDash(k)
  {
    if args != [] && StartsWithDash(args[0]) {
      if args[0] in switches {
        ParsePutsDashedKeys(args[1..], acc[args[0] := "true"], switches);
      } else if |args| >= 2 {
        ParsePutsDashedKeys(args[2..], acc[args[0] := args[1]], switches);
      }
    }
  }

  /** With the empty switch list every name takes the next argument as its
      value, a dash-led one included. */
  lemma NoSwitchTakesValue(name: string, value: string, rest: seq<string>, acc: map<string, string>)
    requires StartsWithDash(name)
    ensures Parse([name, value] + rest, acc, [], KeepDash) == Parse(rest, acc[name := value], [], KeepDash)
  {
    assert ([name, value] + rest)[2..] == rest;
  }

  /** The check asks for "password" and "file", which no parse ever puts,
      so `main` prints the guide even for "-password p -file f". */
  lemma GuideForWellFormedCall(p: string, f: string, acc: map<string, string>, files: map<Path, Entry>, cwd: Path)
    requires forall k :: k in acc ==> StartsWithDash(k)
    ensures Parse(["-password", p, "-file", f], acc, [], KeepDash).entries == acc["-password" := p]["-file" := f]
    ensures MainOutcome(Parse(["-password", p, "-file", f], acc, [], KeepDash), files, cwd, "password", "file")
         == Fail(MissingFormatArgument("Missing argument: password"))
  {
    NoSwitchTakesValue("-password", p, ["-file", f], acc);
    NoSwitchTakesValue("-file", f, [], acc["-password" := p]);
    assert ["-password", p] + ["-file", f] == ["-password", p, "-file", f];
    assert ["-file", f] + [] == ["-file", f];
  }

  /** The corrected check: looking up the names as they are stored. */
  function CorrectedMainOutcome(parsed: Parsed, files: map<Path, Entry>, cwd: Path): Outcome
  {
    MainOutcome(parsed, files, cwd, "-password", "-file")
  }

  /** With the corrected check the documented call succeeds when the file exists. */
  lemma CorrectedAcceptsWellFormedCall(p: string, f: string, acc: map<string, string>, files: map<Path, Entry>, cwd: Path)
    requires Exists(files, cwd, ParsePath(f))
    ensures CorrectedMainOutcome(Parse(["-password", p, "-file", f], acc, [], KeepDash), files, cwd) == Pass
  {
    NoSwitchTakesValue("-password", p, ["-file", f], acc);
    NoSwitchTakesValue("-file", f, [], acc["-password" := p]);
    assert ["-password", p] + ["-file", f] == ["-password", p, "-file", f];
    assert ["-file", f] + [] == ["-file", f];
  }
}
