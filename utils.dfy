/** The tool's own helpers: command-line parsing into a parameter map, the
    presence check, hexadecimal rendering, stream copying and the
    file-system guards run before a file is read or created. */
module Utils {
  import opened Common
  import opened Streams
  import opened Files

  const HexArray: string := "0123456789ABCDEF"

  /** The size of the copy buffer, in bytes. */
  const BufferSize: nat := 1024

  // ---- Parameters ----

  /** A `Map<String, String>` that parsing fills in place. */
  class ParamMap {
    var entries: map<string, string>

    constructor ()
      ensures entries == map[]
    {
      entries := map[];
    }
  }

  /** `ensureParamDefinition(param, programParams)`: throws exactly when the
      key is absent.  Being a function, it cannot change the map. */
  function EnsureParamDefinition(param: string, programParams: map<string, string>): (r: Outcome)
    ensures r.Pass? <==> param in programParams
    ensures r.Fail? ==> r.error == MissingFormatArgument("Missing argument: " + param)
  {
    if param !in programParams then Fail(MissingFormatArgument("Missing argument: " + param)) else Pass
  }

  predicate StartsWithDash(s: string)
  {
    |s| > 0 && s[0] == '-'
  }

  /** How a parser names the key of a `-name value` pair: this class drops
      the leading dash (`param.substring(1)`); the `Encrypt` program keeps it. */
  datatype KeyStyle = DropDash | KeepDash

  function ValueKey(name: string, style: KeyStyle): (k: string)
    requires StartsWithDash(name)
    ensures style.DropDash? ==> [name[0]] + k == name
    ensures style.KeepDash? ==> k == name
  {
    match style
    case DropDash => name[1..]
    case KeepDash => name
  }

  function BadNameMessage(name: string): string
  {
    "Param: " + name + " should start with '-'"
  }

  /** The map after parsing and the exception that stopped the parse, if any. */
  datatype Parsed = Parsed(entries: map<string, string>, error: Option<Exception>)

  /** Parsing the arguments `args` into `acc`: a name in `switches`
      (compared as typed, dash included) is put under itself with value
      "true"; any other name takes the next argument as its value. */
  function Parse(args: seq<string>, acc: map<string, string>, switches: seq<string>, style: KeyStyle): Parsed
  {
    if args == [] then Parsed(acc, None)
    else if !StartsWithDash(args[0]) then Parsed(acc, Some(IllegalArgument(BadNameMessage(args[0]))))
    else if args[0] in switches then Parse(args[1..], acc[args[0] := "true"], switches, style)
    else if |args| == 1 then Parsed(acc, Some(IndexOutOfBounds))
    else Parse(args[2..], acc[ValueKey(args[0], style) := args[1]], switches, style)
  }

  /** `parseParams(params, programParams, switches)`: the loop with its
      manual index skip, writing into the caller's map. */
  method ParseParams(params: seq<string>, programParams: ParamMap, switches: seq<string>)
    returns (error: Option<Exception>)
    modifies programParams
    ensures Parsed(programParams.entries, error) == Parse(params, old(programParams.entries), switches, DropDash)
  {
    var i := 0;
    while i < |params|
      invariant 0 <= i <= |params|
      invariant Parse(params, old(programParams.entries), switches, DropDash)
             == Parse(params[i..], programParams.entries, switches, DropDash)
    {
      var param := params[i];
      if !StartsWithDash(param) {
        return Some(IllegalArgument(BadNameMessage(param)));
      }
      if param in switches {
        programParams.entries := programParams.entries[param := "true"];
      } else {
        i := i + 1;
        if i == |params| {
          return Some(IndexOutOfBounds);
        }
        var paramValue := params[i];
        programParams.entries := programParams.entries[param[1..] := paramValue];
      }
      i := i + 1;
    }
    return None;
  }

  // ---- Properties of parsing ----

  /** A parse that completes over `a` leaves the rest of the arguments to
      be parsed into the map it produced. */
  lemma {:induction false} ParseConcat(a: seq<string>, b: seq<string>, acc: map<string, string>,
                                       switches: seq<string>, style: KeyStyle)
    requires Parse(a, acc, switches, style).error == None
    ensures Parse(a + b, acc, switches, style) == Parse(b, Parse(a, acc, switches, style).entries, switches, style)
  {
    if a == [] {
      assert a + b == b;
    } else if StartsWithDash(a[0]) && a[0] in switches {
      assert (a + b)[0] == a[0] && (a + b)[1..] == a[1..] + b;
      ParseConcat(a[1..], b, acc[a[0] := "true"], switches, style);
    } else if StartsWithDash(a[0]) && |a| >= 2 {
      assert (a + b)[0] == a[0] && (a + b)[1] == a[1] && (a + b)[2..] == a[2..] + b;
      ParseConcat(a[2..], b, acc[ValueKey(a[0], style) := a[1]], switches, style);
    }
  }

  /** The first name that does not start with '-' stops the parse with an
      IllegalArgumentException; what was put before it stays, and the rest
      is never looked at. */
  lemma ParseStopsAtBadName(good: seq<string>, bad: string, rest: seq<string>, acc: map<string, string>,
                            switches: seq<string>, style: KeyStyle)
    requires Parse(good, acc, switches, style).error == None
    requires !StartsWithDash(bad)
    ensures Parse(good + [bad] + rest, acc, switches, style)
         == Parsed(Parse(good, acc, switches, style).entries, Some(IllegalArgument(BadNameMessage(bad))))
  {
    assert good + [bad] + rest == good + ([bad] + rest);
    ParseConcat(good, [bad] + rest, acc, switches, style);
  }

  /** A switch is put under itself, dash included, with "true" and takes no value. */
  lemma ParseSwitch(good: seq<string>, switch: string, rest: seq<string>, acc: map<string, string>,
                    switches: seq<string>, style: KeyStyle)
    requires Parse(good, acc, switches, style).error == None
    requires StartsWithDash(switch) && switch in switches
    ensures Parse(good + [switch] + rest, acc, switches, style)
         == Parse(rest, Parse(good, acc, switches, style).entries[switch := "true"], switches, style)
  {
    assert good + [switch] + rest == good + ([switch] + rest);
    ParseConcat(good, [switch] + rest, acc, switches, style);
    assert ([switch] + rest)[1..] == rest;
  }

  /** Any other name takes the next argument as its value, whatever that
      argument is (a dash is not checked for). */
  lemma ParseNameValue(good: seq<string>, name: string, value: string, rest: seq<string>,
                       acc: map<string, string>, switches: seq<string>, style: KeyStyle)
    requires Parse(good, acc, switches, style).error == None
    requires StartsWithDash(name) && name !in switches
    ensures Parse(good + [name, value] + rest, acc, switches, style)
         == Parse(rest, Parse(good, acc, switches, style).entries[ValueKey(name, style) := value], switches, style)
  {
    assert good + [name, value] + rest == good + ([name, value] + rest);
    ParseConcat(good, [name, value] + rest, acc, switches, style);
    assert ([name, value] + rest)[2..] == rest;
  }

  /** A non-switch name in last position reads past the end of the array. */
  lemma ParseTrailingName(good: seq<string>, name: string, acc: map<string, string>,
                          switches: seq<string>, style: KeyStyle)
    requires Parse(good, acc, switches, style).error == None
    requires StartsWithDash(name) && name !in switches
    ensures Parse(good + [name], acc, switches, style)
         == Parsed(Parse(good, acc, switches, style).entries, Some(IndexOutOfBounds))
  {
    ParseConcat(good, [name], acc, switches, style);
  }

  /** The `put` calls a parse makes, in order, up to the one that fails. */
  function Puts(args: seq<string>, switches: seq<string>, style: KeyStyle): seq<(string, string)>
  {
    if args == [] || !StartsWithDash(args[0]) then []
    else if args[0] in switches then [(args[0], "true")] + Puts(args[1..], switches, style)
    else if |args| == 1 then []
    else [(ValueKey(args[0], style), args[1])] + Puts(args[2..], switches, style)
  }

  /** Making `puts` on a map, one after the other. */
  function Apply(m: map<string, string>, puts: seq<(string, string)>): map<string, string>
    decreases |puts|
  {
    if puts == [] then m else Apply(m[puts[0].0 := puts[0].1], puts[1..])
  }

  /** The value of the last put on `key`, if there is one. */
  function LastPut(puts: seq<(string, string)>, key: string): Option<string>
  {
    if puts == [] then None
    else if puts[|puts| - 1].0 == key then Some(puts[|puts| - 1].1)
    else LastPut(puts[..|puts| - 1], key)
  }

  /** The parsed map is the starting map with the parse's puts made on it. */
  lemma {:induction false} ParseMakesPuts(args: seq<string>, acc: map<string, string>,
                                          switches: seq<string>, style: KeyStyle)
    ensures Parse(args, acc, switches, style).entries == Apply(acc, Puts(args, switches, style))
  {
    if args != [] && StartsWithDash(args[0]) {
      if args[0] in switches {
        ParseMakesPuts(args[1..], acc[args[0] := "true"], switches, style);
      } else if |args| >= 2 {
        ParseMakesPuts(args[2..], acc[ValueKey(args[0], style) := args[1]], switches, style);
      }
    }
  }

  lemma {:induction false} ApplySnoc(m: map<string, string>, puts: seq<(string, string)>, put: (string, string))
    ensures Apply(m, puts + [put]) == Apply(m, puts)[put.0 := put.1]
    decreases |puts|
  {
    if puts != [] {
      assert (puts + [put])[0] == puts[0] && (puts + [put])[1..] == puts[1..] + [put];
      ApplySnoc(m[puts[0].0 := puts[0].1], puts[1..], put);
    }
  }

  /** Each put changes only its own key, and a key put twice keeps the later
      value: after `puts`, a key holds the value of its last put, or its
      old value when it was never put. */
  lemma {:induction false} ApplyLastPut(m: map<string, string>, puts: seq<(string, string)>, key: string)
    ensures key in Apply(m, puts) <==> key in m || LastPut(puts, key).Some?
    ensures key in Apply(m, puts) ==>
      Apply(m, puts)[key] == if LastPut(puts, key).Some? then LastPut(puts, key).value else m[key]
    decreases |puts|
  {
    if puts != [] {
      var init, last := puts[..|puts| - 1], puts[|puts| - 1];
      assert puts == init + [last];
      ApplySnoc(m, init, last);
      ApplyLastPut(m, init, key);
    }
  }

  // ---- Hexadecimal ----

  /** The two characters of a byte: high nibble, then low nibble. */
  function HexPair(b: int8): string
  {
    [HexArray[Unsigned(b) / 16], HexArray[Unsigned(b) % 16]]
  }

  /** The text `bytesToHex` produces. */
  function Hex(bytes: seq<int8>): (s: string)
    ensures |s| == 2 * |bytes|
  {
    if bytes == [] then [] else Hex(bytes[..|bytes| - 1]) + HexPair(bytes[|bytes| - 1])
  }

  /** Every character of the rendering is a hexadecimal digit. */
  lemma {:induction false} HexDigits(bytes: seq<int8>)
    ensures forall k :: 0 <= k < |Hex(bytes)| ==> Hex(bytes)[k] in HexArray
  {
    if bytes != [] {
      var init := bytes[..|bytes| - 1];
      HexDigits(init);
      var v := Unsigned(bytes[|bytes| - 1]);
      assert HexPair(bytes[|bytes| - 1])[0] in HexArray && HexPair(bytes[|bytes| - 1])[1] in HexArray;
    }
  }

  /** `bytesToHex(bytes)`: fills a character array two places per byte. */
  method BytesToHex(bytes: seq<int8>) returns (s: string)
    ensures s == Hex(bytes)
  {
    var hexChars := new char[|bytes| * 2];
    for j := 0 to |bytes|
      invariant hexChars[..2 * j] == Hex(bytes[..j])
    {
      var v := Unsigned(bytes[j]);
      hexChars[j * 2] := HexArray[v / 16];
      hexChars[j * 2 + 1] := HexArray[v % 16];
      assert bytes[..j + 1][..j] == bytes[..j];
      assert hexChars[..2 * (j + 1)] == hexChars[..2 * j] + HexPair(bytes[j]);
    }
    assert bytes[..|bytes|] == bytes;
    s := hexChars[..];
  }

  /** Character 2j is the high nibble of byte j and character 2j+1 its low nibble. */
  lemma {:induction false} HexAt(bytes: seq<int8>, j: nat)
    requires j < |bytes|
    ensures Hex(bytes)[2 * j] == HexArray[Unsigned(bytes[j]) / 16]
    ensures Hex(bytes)[2 * j + 1] == HexArray[Unsigned(bytes[j]) % 16]
  {
    var init := bytes[..|bytes| - 1];
    if j < |bytes| - 1 {
      HexAt(init, j);
      assert init[j] == bytes[j];
    }
  }

  /** The digit a hexadecimal character stands for. */
  function HexValue(c: char): (r: Option<nat>)
    ensures r.Some? ==> r.value < 16 && HexArray[r.value] == c
  {
    if '0' <= c <= '9' then Some(c as int - '0' as int)
    else if 'A' <= c <= 'F' then Some(c as int - 'A' as int + 10)
    else None
  }

  /** Reading `bytesToHex` output back: pairs of characters, high nibble first. */
  function Unhex(s: string): Option<seq<int8>>
    decreases |s|
  {
    if s == [] then Some([])
    else if |s| == 1 then None
    else
      var prefix, hi, lo := Unhex(s[..|s| - 2]), HexValue(s[|s| - 2]), HexValue(s[|s| - 1]);
      if prefix.Some? && hi.Some? && lo.Some? then Some(prefix.value + [Signed(16 * hi.value + lo.value)])
      else None
  }

  lemma HexDigitValue(k: nat)
    requires k < 16
    ensures HexValue(HexArray[k]) == Some(k)
  {
  }

  /** bytesToHex is decodable, so no two byte strings share a rendering. */
  lemma {:induction false} UnhexHex(bytes: seq<int8>)
    ensures Unhex(Hex(bytes)) == Some(bytes)
  {
    if bytes != [] {
      var init, last := bytes[..|bytes| - 1], bytes[|bytes| - 1];
      assert Hex(bytes) == Hex(init) + HexPair(last);
      UnhexHex(init);
      UnhexPair(Hex(init), last);
      assert bytes == init + [last];
    }
  }

  /** Appending one byte's pair to a readable text appends that byte. */
  lemma UnhexPair(t: string, b: int8)
    requires Unhex(t).Some?
    ensures Unhex(t + HexPair(b)) == Some(Unhex(t).value + [b])
  {
    PairDigits(b);
    UnhexSnoc(t, HexPair(b)[0], HexPair(b)[1]);
    assert HexPair(b) == [HexPair(b)[0], HexPair(b)[1]];
  }

  /** One step of reading back, from the end. */
  lemma UnhexSnoc(t: string, c1: char, c2: char)
    ensures var prefix, hi, lo := Unhex(t), HexValue(c1), HexValue(c2);
      Unhex(t + [c1, c2])
      == if prefix.Some? && hi.Some? && lo.Some? then Some(prefix.value + [Signed(16 * hi.value + lo.value)])
         else None
  {
    var s := t + [c1, c2];
    assert s[..|s| - 2] == t && s[|s| - 2] == c1 && s[|s| - 1] == c2;
  }

  /** The two characters of a byte's rendering read back as its nibbles. */
  lemma PairDigits(b: int8)
    ensures HexValue(HexPair(b)[0]).Some? && HexValue(HexPair(b)[1]).Some?
    ensures Signed(16 * HexValue(HexPair(b)[0]).value + HexValue(HexPair(b)[1]).value) == b
  {
    var v := Unsigned(b);
    HexDigitValue(v / 16);
    HexDigitValue(v % 16);
    assert 16 * (v / 16) + v % 16 == v;
    assert Signed(v) == b;
  }

  lemma HexInjective(a: seq<int8>, b: seq<int8>)
    requires Hex(a) == Hex(b)
    ensures a == b
  {
    UnhexHex(a);
    UnhexHex(b);
  }

  // ---- Streams ----

  /** `pipeStreams(in, out)`: copies through a 1024-byte buffer until the
      input reports its end. */
  method PipeStreams(input: InputStream, output: OutputStream)
    modifies input, output
    ensures output.written == old(output.written) + old(input.Content())
    ensures output.writes == old(output.writes) + Chunks(old(input.blocks), BufferSize)
    ensures input.blocks == []
  {
    var buffer := new int8[BufferSize];
    ghost var done: seq<seq<int8>> := [];
    while true
      invariant output.written == old(output.written) + Concat(done)
      invariant output.writes == old(output.writes) + done
      invariant Chunks(old(input.blocks), BufferSize) == done + Chunks(input.blocks, BufferSize)
      decreases |input.Content()|
    {
      ghost var before := input.blocks;
      var bytesRead := input.Read(buffer);
      if bytesRead <= 0 {
        break;
      }
      ghost var chunk := buffer[..bytesRead];
      ReadStep(Chunks(old(input.blocks), BufferSize), done, before, BufferSize);
      ConcatAppend(done, chunk);
      output.Write(buffer, 0, bytesRead);
      done := done + [chunk];
    }
    assert done == Chunks(old(input.blocks), BufferSize);
    ChunksConcat(old(input.blocks), BufferSize);
  }

  // ---- File-system guards ----

  /** The name a message gives for `p`: its absolute form. */
  function AbsoluteName(cwd: Path, p: Path): string
  {
    PathString(ToAbsolute(cwd, p))
  }

  /** `ensurePathReadable(p)`: the source must exist and be readable. */
  method EnsurePathReadable(fs: FileSystem, p: Path) returns (r: Outcome)
    ensures r.Pass? <==> CanRead(fs.files, fs.cwd, p)
    ensures !Exists(fs.files, fs.cwd, p) ==>
      r == Fail(FileNotFound("Source file not found " + AbsoluteName(fs.cwd, p)))
    ensures Exists(fs.files, fs.cwd, p) && !CanRead(fs.files, fs.cwd, p) ==>
      r == Fail(FileNotFound("Source cannot be read " + AbsoluteName(fs.cwd, p)))
  {
    var entry := Lookup(fs.files, fs.cwd, p);
    if entry.None? {
      return Fail(FileNotFound("Source file not found " + AbsoluteName(fs.cwd, p)));
    }
    if !entry.value.readable {
      return Fail(FileNotFound("Source cannot be read " + AbsoluteName(fs.cwd, p)));
    }
    return Pass;
  }

  /** `ensurePathWritable(p)`: an existing destination is refused and left
      as it is; otherwise a new empty file is created there. */
  method EnsurePathWritable(fs: FileSystem, p: Path) returns (r: Outcome)
    modifies fs
    ensures Exists(old(fs.files), fs.cwd, p) ==>
      r == Fail(IllegalArgument("File already exists in path " + AbsoluteName(fs.cwd, p)))
      && fs.files == old(fs.files)
    ensures !Exists(old(fs.files), fs.cwd, p) && !CanCreate(old(fs.files), fs.cwd, p) ==>
      r == Fail(IOFailure("cannot create " + AbsoluteName(fs.cwd, p))) && fs.files == old(fs.files)
    ensures CanCreate(old(fs.files), fs.cwd, p) ==>
      r == Pass && fs.files == old(fs.files)[Locate(fs.cwd, p).value := File([], true, true)]
  {
    if Exists(fs.files, fs.cwd, p) {
      return Fail(IllegalArgument("File already exists in path " + AbsoluteName(fs.cwd, p)));
    }
    // `createNewFile` throws when the parent directory is missing or closed.
    if !CanCreate(fs.files, fs.cwd, p) {
      return Fail(IOFailure("cannot create " + AbsoluteName(fs.cwd, p)));
    }
    fs.files := fs.files[Locate(fs.cwd, p).value := File([], true, true)];
    return Pass;
  }

  /** A guard that lets a destination through found nothing there before:
      an existing file is never overwritten by the create step. */
  lemma WritableGuardPreserves(files: map<Path, Entry>, cwd: Path, p: Path)
    requires CanCreate(files, cwd, p)
    ensures !Exists(files, cwd, p)
    ensures forall q :: q in files ==> q != Locate(cwd, p).value
  {
  }
}
