/** Paths and the file system, as `java.nio.file.Path` (on a Unix file
    system) and `java.io.File` present them to the tool.  A path is an
    optional root and a list of names; `Paths.get` drops empty names
    (repeated and trailing slashes) and does not resolve `.` or `..`. */
module Files {
  import opened Common

  datatype Path = Path(absolute: bool, names: seq<string>)

  /** A path as `Paths.get` builds it: every name is non-empty and holds no '/'. */
  ghost predicate WellFormed(p: Path)
  {
    forall i :: 0 <= i < |p.names| ==> p.names[i] != [] && '/' !in p.names[i]
  }

  /** The text between the slashes, empty pieces included. */
  function Split(s: string): (parts: seq<string>)
    ensures |parts| >= 1
  {
    if s == [] then [""]
    else if s[0] == '/' then [""] + Split(s[1..])
    else var rest := Split(s[1..]); [[s[0]] + rest[0]] + rest[1..]
  }

  function NonEmpty(parts: seq<string>): seq<string>
  {
    if parts == [] then []
    else if parts[0] == [] then NonEmpty(parts[1..])
    else [parts[0]] + NonEmpty(parts[1..])
  }

  /** `Paths.get(s)`. */
  function ParsePath(s: string): Path
  {
    Path(|s| > 0 && s[0] == '/', NonEmpty(Split(s)))
  }

  function Join(names: seq<string>): string
  {
    if names == [] then ""
    else if |names| == 1 then names[0]
    else names[0] + "/" + Join(names[1..])
  }

  /** `p.toString()`. */
  function PathString(p: Path): string
  {
    (if p.absolute then "/" else "") + Join(p.names)
  }

  /** `p.toAbsolutePath()`, against the working directory `cwd`. */
  function ToAbsolute(cwd: Path, p: Path): (a: Path)
    ensures a.absolute
    ensures p.absolute ==> a == p
    ensures !p.absolute ==> a.names == cwd.names + p.names
  {
    if p.absolute then p else Path(true, cwd.names + p.names)
  }

  /** `p.getParent()`: `null` (None) for a path with no names and for a
      relative path of a single name; the root for `/name`. */
  function Parent(p: Path): (r: Option<Path>)
    ensures r.Some? <==> |p.names| >= 2 || (|p.names| == 1 && p.absolute)
    ensures r.Some? ==> r.value.absolute == p.absolute && r.value.names + [p.names[|p.names| - 1]] == p.names
  {
    if |p.names| == 0 then None
    else if |p.names| == 1 then (if p.absolute then Some(Path(true, [])) else None)
    else Some(Path(p.absolute, p.names[..|p.names| - 1]))
  }

  /** The names of `names` with `suffix` added to the last one (`suffix`
      alone when there is none). */
  function AppendToLast(names: seq<string>, suffix: string): (r: seq<string>)
    ensures |r| == if names == [] then 1 else |names|
  {
    if names == [] then [suffix] else names[..|names| - 1] + [names[|names| - 1] + suffix]
  }

  // ---- Properties of the string form ----

  lemma {:induction false} SplitName(x: string, t: string)
    requires '/' !in x
    ensures Split(x + t) == [x + Split(t)[0]] + Split(t)[1..]
  {
    if x == [] {
      assert x + t == t;
      assert x + Split(t)[0] == Split(t)[0];
      assert [Split(t)[0]] + Split(t)[1..] == Split(t);
    } else {
      assert (x + t)[0] == x[0] && (x + t)[1..] == x[1..] + t;
      SplitName(x[1..], t);
      assert [x[0]] + (x[1..] + Split(t)[0]) == x + Split(t)[0];
    }
  }

  lemma {:induction false} SplitJoin(names: seq<string>)
    requires names != []
    requires forall i :: 0 <= i < |names| ==> '/' !in names[i]
    ensures Split(Join(names)) == names
  {
    if |names| == 1 {
      SplitName(names[0], "");
      assert names[0] + "" == names[0];
    } else {
      var rest := Join(names[1..]);
      assert Join(names) == names[0] + ("/" + rest);
      SplitName(names[0], "/" + rest);
      assert ("/" + rest)[0] == '/' && ("/" + rest)[1..] == rest;
      assert Split("/" + rest) == [""] + Split(rest);
      SplitJoin(names[1..]);
      assert names[0] + "" == names[0];
      assert names == [names[0]] + names[1..];
    }
  }

  lemma {:induction false} NonEmptyJoin(a: seq<string>, b: seq<string>)
    ensures NonEmpty(a + b) == NonEmpty(a) + NonEmpty(b)
  {
    if a != [] {
      assert (a + b)[0] == a[0] && (a + b)[1..] == a[1..] + b;
      NonEmptyJoin(a[1..], b);
    } else {
      assert a + b == b;
    }
  }

  lemma {:induction false} NonEmptyKeeps(names: seq<string>)
    requires forall i :: 0 <= i < |names| ==> names[i] != []
    ensures NonEmpty(names) == names
  {
    if names != [] {
      NonEmptyKeeps(names[1..]);
      assert names == [names[0]] + names[1..];
    }
  }

  /** `Paths.get(p.toString())` rebuilds a well-formed path. */
  lemma ParsePrinted(p: Path)
    requires WellFormed(p)
    ensures ParsePath(PathString(p)) == p
  {
    var j := Join(p.names);
    if p.names == [] {
      if p.absolute {
        assert PathString(p) == "/";
        assert Split("/") == [""] + Split("");
        assert NonEmpty(Split("/")) == [];
      }
    } else {
      SplitJoin(p.names);
      NonEmptyKeeps(p.names);
      assert j != [] && j[0] == p.names[0][0] by { JoinHead(p.names); }
      if p.absolute {
        assert PathString(p) == "/" + j;
        assert ("/" + j)[1..] == j;
        assert Split("/" + j) == [""] + p.names;
        NonEmptyJoin([""], p.names);
      } else {
        assert PathString(p) == j;
        assert p.names[0][0] in p.names[0];
      }
    }
  }

  lemma {:induction false} JoinHead(names: seq<string>)
    requires names != [] && names[0] != []
    ensures Join(names) != [] && Join(names)[0] == names[0][0]
  {
    if |names| > 1 {
      assert Join(names) == names[0] + "/" + Join(names[1..]);
    }
  }

  lemma {:induction false} JoinAppendToLast(names: seq<string>, suffix: string)
    requires names != []
    ensures Join(names) + suffix == Join(AppendToLast(names, suffix))
  {
    if |names| == 1 {
      assert AppendToLast(names, suffix) == [names[0] + suffix];
    } else {
      var r := AppendToLast(names, suffix);
      assert r[0] == names[0] && r[1..] == AppendToLast(names[1..], suffix);
      JoinAppendToLast(names[1..], suffix);
    }
  }

  lemma {:induction false} JoinSnoc(names: seq<string>, name: string)
    requires names != []
    ensures Join(names) + "/" + name == Join(names + [name])
  {
    if |names| == 1 {
      assert names + [name] == [names[0], name];
    } else {
      assert (names + [name])[0] == names[0] && (names + [name])[1..] == names[1..] + [name];
      JoinSnoc(names[1..], name);
    }
  }

  /** `Paths.get(String.format("%s<suffix>", p))`: the suffix lands on the
      last name (on a new name after a bare root). */
  lemma Suffixed(p: Path, suffix: string)
    requires WellFormed(p) && suffix != [] && '/' !in suffix
    ensures ParsePath(PathString(p) + suffix) == Path(p.absolute, AppendToLast(p.names, suffix))
    ensures PathString(ParsePath(PathString(p) + suffix)) == PathString(p) + suffix
  {
    var q := Path(p.absolute, AppendToLast(p.names, suffix));
    if p.names == [] {
      assert PathString(p) + suffix == PathString(q);
    } else {
      JoinAppendToLast(p.names, suffix);
      assert PathString(p) + suffix == PathString(q);
    }
    ParsePrinted(q);
  }

  /** `Paths.get(String.format("%s<suffix>", p.toAbsolutePath()))`: always an
      absolute, well-formed path; the suffix lands on the last name when
      the working directory and `p` are well formed. */
  lemma SuffixedAbsolute(cwd: Path, p: Path, suffix: string)
    requires suffix != [] && '/' !in suffix
    ensures var q := ParsePath(PathString(ToAbsolute(cwd, p)) + suffix);
      && q.absolute && WellFormed(q)
      && (WellFormed(cwd) && WellFormed(p) ==> q == Path(true, AppendToLast(ToAbsolute(cwd, p).names, suffix)))
  {
    var s := PathString(ToAbsolute(cwd, p)) + suffix;
    assert s[0] == '/';
    ParsedWellFormed(s);
    if WellFormed(cwd) && WellFormed(p) {
      AbsoluteWellFormed(cwd, p);
      Suffixed(ToAbsolute(cwd, p), suffix);
    }
  }

  /** `Paths.get(String.format("%s/<name>", p))` for an absolute `p`. */
  lemma Child(p: Path, name: string)
    requires WellFormed(p) && p.absolute && name != [] && '/' !in name
    ensures ParsePath(PathString(p) + "/" + name) == Path(true, p.names + [name])
  {
    var q := Path(true, p.names + [name]);
    if p.names == [] {
      var s := PathString(p) + "/" + name;
      assert s == "/" + ("/" + name);
      assert s[1..] == "/" + name && ("/" + name)[1..] == name;
      assert Split(s) == [""] + ([""] + Split(name));
      SplitJoin([name]);
      assert Split(s) == ["", "", name];
      assert ["", "", name][1..] == ["", name] && ["", name][1..] == [name];
      assert NonEmpty([name]) == [name] + NonEmpty([]);
      assert NonEmpty(Split(s)) == [name];
    } else {
      JoinSnoc(p.names, name);
      assert PathString(p) + "/" + name == PathString(q);
      ParsePrinted(q);
    }
  }

  lemma {:induction false} SplitNoSlash(s: string)
    ensures forall i :: 0 <= i < |Split(s)| ==> '/' !in Split(s)[i]
  {
    if s != [] {
      SplitNoSlash(s[1..]);
      if s[0] != '/' {
        var rest := Split(s[1..]);
        assert forall c :: c in [s[0]] + rest[0] ==> c == s[0] || c in rest[0];
      }
    }
  }

  lemma {:induction false} NonEmptyNames(parts: seq<string>)
    requires forall i :: 0 <= i < |parts| ==> '/' !in parts[i]
    ensures WellFormed(Path(false, NonEmpty(parts)))
  {
    if parts != [] {
      NonEmptyNames(parts[1..]);
    }
  }

  /** Every path `Paths.get` returns is well formed. */
  lemma ParsedWellFormed(s: string)
    ensures WellFormed(ParsePath(s))
  {
    SplitNoSlash(s);
    NonEmptyNames(Split(s));
  }

  lemma ParentWellFormed(p: Path)
    requires WellFormed(p) && Parent(p).Some?
    ensures WellFormed(Parent(p).value)
  {
    var parent := Parent(p).value;
    assert forall i :: 0 <= i < |parent.names| ==> parent.names[i] == p.names[i];
  }

  lemma AbsoluteWellFormed(cwd: Path, p: Path)
    requires WellFormed(cwd) && WellFormed(p)
    ensures WellFormed(ToAbsolute(cwd, p))
  {
  }

  // ---- The file system ----

  datatype Entry =
    | File(content: seq<int8>, readable: bool, writable: bool)
    | Directory(readable: bool, writable: bool)

  /** The absolute path a `File` for `p` denotes; `new File("")` denotes
      nothing (it never exists). */
  function Locate(cwd: Path, p: Path): Option<Path>
  {
    if p == Path(false, []) then None else Some(ToAbsolute(cwd, p))
  }

  function Lookup(files: map<Path, Entry>, cwd: Path, p: Path): (r: Option<Entry>)
    ensures r.Some? ==> Locate(cwd, p).Some? && Locate(cwd, p).value in files
                        && r.value == files[Locate(cwd, p).value]
  {
    match Locate(cwd, p)
    case None => None
    case Some(a) => if a in files then Some(files[a]) else None
  }

  /** `file.exists()`. */
  predicate Exists(files: map<Path, Entry>, cwd: Path, p: Path)
  {
    Lookup(files, cwd, p).Some?
  }

  /** `file.canRead()` (false for a missing file). */
  predicate CanRead(files: map<Path, Entry>, cwd: Path, p: Path)
  {
    Lookup(files, cwd, p).Some? && Lookup(files, cwd, p).value.readable
  }

  /** The content `new FileInputStream(file)` reads, if it can be opened:
      an existing readable regular file. */
  function Open(files: map<Path, Entry>, cwd: Path, p: Path): (r: Option<seq<int8>>)
    ensures r.Some? ==> CanRead(files, cwd, p)
  {
    match Lookup(files, cwd, p)
    case Some(File(content, true, _)) => Some(content)
    case _ => None
  }

  /** Whether a new file can be made at `p`: it does not exist and its
      parent is an existing writable directory. */
  predicate CanCreate(files: map<Path, Entry>, cwd: Path, p: Path)
  {
    && Locate(cwd, p).Some?
    && Locate(cwd, p).value !in files
    && Parent(Locate(cwd, p).value).Some?
    && Parent(Locate(cwd, p).value).value in files
    && files[Parent(Locate(cwd, p).value).value] == Directory(files[Parent(Locate(cwd, p).value).value].readable, true)
  }

  /** Whether `new FileOutputStream(file)` can open `p` for writing: a
      writable regular file (truncated) or a file it can create. */
  predicate CanWrite(files: map<Path, Entry>, cwd: Path, p: Path)
  {
    match Lookup(files, cwd, p)
    case Some(File(_, _, writable)) => writable
    case Some(Directory(_, _)) => false
    case None => CanCreate(files, cwd, p)
  }

  /** The file system after writing `content` to `p` (which CanWrite). */
  function Written(files: map<Path, Entry>, cwd: Path, p: Path, content: seq<int8>): (r: map<Path, Entry>)
    requires CanWrite(files, cwd, p)
    ensures r.Keys == files.Keys + {Locate(cwd, p).value}
    ensures r[Locate(cwd, p).value].File? && r[Locate(cwd, p).value].content == content
    ensures forall q :: q in files && q != Locate(cwd, p).value ==> r[q] == files[q]
  {
    var a := Locate(cwd, p).value;
    files[a := match Lookup(files, cwd, p)
               case Some(File(_, readable, writable)) => File(content, readable, writable)
               case _ => File(content, true, true)]
  }

  /** The machine's files, keyed by absolute path, and the process's
      working directory. */
  class FileSystem {
    var files: map<Path, Entry>
    const cwd: Path

    constructor (cwd: Path, files: map<Path, Entry>)
      ensures this.cwd == cwd && this.files == files
    {
      this.cwd := cwd;
      this.files := files;
    }
  }
}
