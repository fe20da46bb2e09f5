/** The file metadata both report scripts work on, and the small string and
    arithmetic helpers they share: mebibyte sizes, POSIX path joining, the
    extension key of `os.path.splitext`, and ASCII lower-casing.

    The directory walk itself is abstracted: a walk is a sequence of `Entry`
    values, one per file name `os.walk` lists, in walk order. */
module Records {

  datatype Option<T> = None | Some(value: T)

  datatype Result<T, E> = Success(value: T) | Failure(error: E)

  /** What `os.stat` reports about one file: size in bytes, the three
      timestamps in epoch seconds, and the owning user id. */
  datatype Stat = Stat(size: nat, atime: int, mtime: int, ctime: int, uid: int)
  {
    function Time(kind: TimeKind): int
    {
      match kind
      case Accessed => atime
      case Modified => mtime
      case Created => ctime
    }
  }

  datatype TimeKind = Accessed | Modified | Created

  /** Why `os.stat` raised: the file vanished, or any other OS error
      (permission denied and the like). */
  datatype StatError = NotFound | OtherOsError

  /** One file listed by the walk: the directory names between the scan root
      and the file, the file's base name, whether it is a symbolic link whose
      target does not exist, and the outcome of calling `stat` on it. */
  datatype Entry = Entry(dirs: seq<string>, name: string, brokenLink: bool, stat: Result<Stat, StatError>)

  /** The exclusion sets the scripts keep as module-level constants. */
  datatype ScanOptions = ScanOptions(excludeDirs: set<string>, excludeExtensions: set<string>)

  /** `file_size_mb`: bytes divided by 1024 * 1024 = 1048576. */
  function SizeMb(bytes: nat): real
  {
    bytes as real / 1048576.0
  }

  /** With integer bytes, "at least t MB" is exactly "at least t * 1048576 bytes",
      and likewise for "at most". */
  lemma SizeMbCompare(bytes: nat, t: real)
    ensures SizeMb(bytes) >= t <==> bytes as real >= t * 1048576.0
    ensures SizeMb(bytes) <= t <==> bytes as real <= t * 1048576.0
    ensures SizeMb(bytes) >= 0.0
  {
    var b := bytes as real;
    assert SizeMb(bytes) * 1048576.0 == b;
  }

  /** The walk never descends into a directory whose name is excluded, so a
      file is skipped when any directory on its way from the root is. */
  predicate Pruned(dirs: seq<string>, excludeDirs: set<string>)
  {
    exists k :: 0 <= k < |dirs| && dirs[k] in excludeDirs
  }

  /** Python's `str.endswith`. */
  predicate EndsWith(s: string, suffix: string)
  {
    |suffix| <= |s| && s[|s| - |suffix|..] == suffix
  }

  /** The position of the last `c` in `s`, if any. */
  function LastIndexOf(s: string, c: char): (r: Option<nat>)
    ensures r.None? ==> c !in s
    ensures r.Some? ==> r.value < |s| && s[r.value] == c && c !in s[r.value + 1..]
  {
    if |s| == 0 then None
    else if s[|s| - 1] == c then Some(|s| - 1)
    else
      var r := LastIndexOf(s[..|s| - 1], c);
      assert r.Some? ==> s[r.value + 1..] == s[..|s| - 1][r.value + 1..] + [s[|s| - 1]];
      r
  }

  predicate AllDots(s: string)
  {
    forall k :: 0 <= k < |s| ==> s[k] == '.'
  }

  /** The extension `os.path.splitext` splits off a base name: empty, or the
      suffix that starts at the last '.', provided some character other than
      '.' comes before that dot (so ".bashrc" and "..x" have none). */
  function Ext(name: string): (r: string)
    ensures r == [] || (r[0] == '.' && EndsWith(name, r) && '.' !in r[1..])
    ensures r != [] ==> exists k :: 0 <= k < |name| - |r| && name[k] != '.'
  {
    match LastIndexOf(name, '.')
    case None => []
    case Some(i) =>
      if AllDots(name[..i]) then []
      else
        assert name[i..][1..] == name[i + 1..];
        name[i..]
  }

  /** A name made of one leading '.' and no other dot has no extension. */
  lemma DotFileHasNoExt(name: string)
    requires |name| > 0 && name[0] == '.' && '.' !in name[1..]
    ensures Ext(name) == []
  {
    assert forall k :: 1 <= k < |name| ==> name[k] == name[1..][k - 1];
    assert LastIndexOf(name, '.') == Some(0);
  }

  /** A name whose last dot has a non-dot character somewhere before it has
      exactly the suffix from that dot as its extension. */
  lemma ExtOfDotted(stem: string, suffix: string)
    requires exists k :: 0 <= k < |stem| && stem[k] != '.'
    requires '.' !in suffix
    ensures Ext(stem + "." + suffix) == "." + suffix
  {
    var name := stem + "." + suffix;
    var i := |stem|;
    assert name == (stem + ".") + suffix;
    LastIndexOfAppend(stem + ".", suffix, '.');
    assert LastIndexOf(name, '.') == Some(i);
    assert name[..i] == stem;
    assert name[i..] == "." + suffix;
  }

  /** An extension excluded by exact match is excluded by `endswith` too: the
      summary script's exclusion test is never weaker than the filter's. */
  lemma ExactExclusionImpliesEndsWith(name: string, excluded: set<string>)
    requires Ext(name) in excluded
    ensures exists e :: e in excluded && EndsWith(name, e)
  {
    if Ext(name) == [] {
      assert name[|name|..] == [];
    }
  }

  /** `os.path.basename`: what follows the last '/'. */
  function Basename(p: string): (r: string)
    ensures '/' !in r && EndsWith(p, r)
  {
    match LastIndexOf(p, '/')
    case None => assert p[|p| - |p|..] == p; p
    case Some(i) => p[i + 1..]
  }

  /** `os.path.splitext(p)[1]` for a POSIX path: only the base name counts. */
  function PathExt(p: string): string
  {
    Ext(Basename(p))
  }

  /** `os.path.join(a, b)` on POSIX. */
  function JoinPath(a: string, b: string): string
  {
    if |b| > 0 && b[0] == '/' then b
    else if a == [] || a[|a| - 1] == '/' then a + b
    else a + "/" + b
  }

  /** The directory `os.walk` reports after descending through `dirs`. */
  function DirPath(root: string, dirs: seq<string>): string
  {
    if dirs == [] then root else JoinPath(DirPath(root, dirs[..|dirs| - 1]), dirs[|dirs| - 1])
  }

  /** `os.path.join(root, name)` as both scripts build it. */
  function FullPath(root: string, e: Entry): string
  {
    JoinPath(DirPath(root, e.dirs), e.name)
  }

  lemma {:induction false} LastIndexOfAppend(x: string, y: string, c: char)
    requires c !in y
    ensures LastIndexOf(x + y, c) == LastIndexOf(x, c)
  {
    if y != [] {
      var y' := y[..|y| - 1];
      assert (x + y)[..|x + y| - 1] == x + y';
      LastIndexOfAppend(x, y', c);
    } else {
      assert x + y == x;
    }
  }

  /** Joining a base name that holds no '/' onto any directory gives back
      that base name. */
  lemma BasenameOfJoin(a: string, name: string)
    requires '/' !in name
    ensures Basename(JoinPath(a, name)) == name
  {
    if a == [] {
      assert a + name == name;
      LastIndexOfAppend([], name, '/');
    } else if a[|a| - 1] == '/' {
      LastIndexOfAppend(a, name, '/');
      assert (a + name)[|a|..] == name;
    } else {
      LastIndexOfAppend(a + "/", name, '/');
      assert a + "/" + name == (a + "/") + name;
      assert (a + "/" + name)[|a| + 1..] == name;
    }
  }

  /** The extension the filter takes from the full path is the extension the
      summary takes from the base name. */
  lemma PathExtOfFullPath(root: string, e: Entry)
    requires '/' !in e.name
    ensures PathExt(FullPath(root, e)) == Ext(e.name)
  {
    BasenameOfJoin(DirPath(root, e.dirs), e.name);
  }

  /** `str.lower()` on ASCII letters. */
  function LowerChar(c: char): char
  {
    if 'A' <= c <= 'Z' then (c as int + 32) as char else c
  }

  function Lower(s: string): (r: string)
    ensures |r| == |s|
    ensures forall k :: 0 <= k < |s| ==> r[k] == LowerChar(s[k])
  {
    if s == [] then [] else Lower(s[..|s| - 1]) + [LowerChar(s[|s| - 1])]
  }

  predicate IsLower(s: string)
  {
    forall k :: 0 <= k < |s| ==> !('A' <= s[k] <= 'Z')
  }

  /** Lower-casing leaves no upper-case letter, is idempotent, and keeps every
      other character (the '.' that starts an extension in particular). */
  lemma LowerFacts(s: string)
    ensures |Lower(s)| == |s| && IsLower(Lower(s))
    ensures Lower(Lower(s)) == Lower(s)
    ensures forall k :: 0 <= k < |s| && !('A' <= s[k] <= 'Z') ==> Lower(s)[k] == s[k]
  {
  }

  lemma LowerAppend(a: string, b: string)
    ensures Lower(a + b) == Lower(a) + Lower(b)
  {
    assert forall k :: 0 <= k < |a + b| ==> Lower(a + b)[k] == (Lower(a) + Lower(b))[k];
  }
}
