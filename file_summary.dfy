/** The per-extension summary report: `scan_directory` groups the files of a
    walk by extension, `get_summary_data` turns each group into one row of
    counts and percentages, and `percentage_of_files` does every threshold
    count. The clock and the current user id are parameters. */
module FileSummary {
  import opened Records

  /** The per-file record `scan_directory` stores. */
  datatype FileData = FileData(
    sizeMb: real,
    lastAccessed: int,
    lastModified: int,
    created: int,
    ownedByCurrentUser: bool,
    ownedByRoot: bool)
  {
    function Time(kind: TimeKind): int
    {
      match kind
      case Accessed => lastAccessed
      case Modified => lastModified
      case Created => created
    }
  }

  function FileDataOf(st: Stat, currentUid: int): FileData
  {
    FileData(SizeMb(st.size), st.atime, st.mtime, st.ctime, st.uid == currentUid, st.uid == 0)
  }

  /** The extension groups: `groups` is the dictionary, `order` its keys in
      insertion order, the order in which `summary.items()` yields them. */
  datatype Grouping = Grouping(order: seq<string>, groups: map<string, seq<FileData>>)

  predicate NoDuplicates(s: seq<string>)
  {
    forall i, j :: 0 <= i < j < |s| ==> s[i] != s[j]
  }

  /** Every key listed once, exactly the keys of the dictionary, and no group
      empty, since a key is created only when a file is appended to it. */
  ghost predicate WellFormed(g: Grouping)
  {
    && NoDuplicates(g.order)
    && (forall i :: 0 <= i < |g.order| ==> g.order[i] in g.groups)
    && (forall k :: k in g.groups ==> k in g.order && |g.groups[k]| > 0)
  }

  /** What `scan_directory` does with one listed file. */
  datatype Visit = Skip | Keep(ext: string, data: FileData) | Abort(path: string)

  predicate ExcludedByName(name: string, excludeExtensions: set<string>)
  {
    exists e :: e in excludeExtensions && EndsWith(name, e)
  }

  /** A file in a pruned directory is never listed; a name ending with an
      excluded extension and a broken link are skipped; a file that vanished
      before `stat` is skipped; any other `stat` error propagates out of the
      script. */
  function VisitOf(root: string, e: Entry, opts: ScanOptions, currentUid: int): Visit
  {
    if Pruned(e.dirs, opts.excludeDirs) then Skip
    else if ExcludedByName(e.name, opts.excludeExtensions) then Skip
    else if e.brokenLink then Skip
    else match e.stat
      case Failure(NotFound) => Skip
      case Failure(OtherOsError) => Abort(FullPath(root, e))
      case Success(st) => Keep(Ext(e.name), FileDataOf(st, currentUid))
  }

  function GroupOr(g: Grouping, ext: string): seq<FileData>
  {
    if ext in g.groups then g.groups[ext] else []
  }

  /** `summary[extension].append(file_data)` on a `defaultdict(list)`. */
  function Append(g: Grouping, ext: string, d: FileData): Grouping
  {
    if ext in g.groups then Grouping(g.order, g.groups[ext := g.groups[ext] + [d]])
    else Grouping(g.order + [ext], g.groups[ext := [d]])
  }

  /** The outcome of `scan_directory` over a walk, one file at a time. */
  function ScanSpec(root: string, entries: seq<Entry>, opts: ScanOptions, currentUid: int): Result<Grouping, string>
  {
    if entries == [] then Success(Grouping([], map[]))
    else
      var prev := ScanSpec(root, entries[..|entries| - 1], opts, currentUid);
      if prev.Failure? then prev
      else match VisitOf(root, entries[|entries| - 1], opts, currentUid)
        case Skip => prev
        case Abort(p) => Failure(p)
        case Keep(ext, d) => Success(Append(prev.value, ext, d))
  }

  /** The data of the kept files whose extension is `ext`, in walk order. */
  function KeptData(root: string, entries: seq<Entry>, opts: ScanOptions, currentUid: int, ext: string): seq<FileData>
  {
    if entries == [] then []
    else
      var prev := KeptData(root, entries[..|entries| - 1], opts, currentUid, ext);
      match VisitOf(root, entries[|entries| - 1], opts, currentUid)
      case Keep(x, d) => if x == ext then prev + [d] else prev
      case _ => prev
  }

  /** The number of files kept at all. */
  function KeptCount(root: string, entries: seq<Entry>, opts: ScanOptions, currentUid: int): nat
  {
    if entries == [] then 0
    else
      KeptCount(root, entries[..|entries| - 1], opts, currentUid)
      + (if VisitOf(root, entries[|entries| - 1], opts, currentUid).Keep? then 1 else 0)
  }

  /** Whether some listed file makes `stat` raise an error the script does
      not catch. */
  predicate SomeAbort(root: string, entries: seq<Entry>, opts: ScanOptions, currentUid: int)
  {
    exists k :: 0 <= k < |entries| && VisitOf(root, entries[k], opts, currentUid).Abort?
  }

  function GroupLen(m: map<string, seq<FileData>>, k: string): nat
  {
    if k in m then |m[k]| else 0
  }

  /** The sum of the group lengths, over the given keys. */
  function SumLens(ks: seq<string>, m: map<string, seq<FileData>>): nat
  {
    if ks == [] then 0 else GroupLen(m, ks[0]) + SumLens(ks[1..], m)
  }

  lemma {:induction false} SumLensAppend(ks: seq<string>, k: string, m: map<string, seq<FileData>>)
    ensures SumLens(ks + [k], m) == SumLens(ks, m) + GroupLen(m, k)
  {
    if ks != [] {
      assert (ks + [k])[1..] == ks[1..] + [k];
      SumLensAppend(ks[1..], k, m);
    }
  }

  lemma {:induction false} SumLensUpdateOther(ks: seq<string>, k: string, v: seq<FileData>, m: map<string, seq<FileData>>)
    requires k !in ks
    ensures SumLens(ks, m[k := v]) == SumLens(ks, m)
  {
    if ks != [] {
      SumLensUpdateOther(ks[1..], k, v, m);
    }
  }

  lemma {:induction false} SumLensUpdateOnce(ks: seq<string>, k: string, v: seq<FileData>, m: map<string, seq<FileData>>)
    requires NoDuplicates(ks) && k in ks
    ensures SumLens(ks, m[k := v]) + GroupLen(m, k) == SumLens(ks, m) + |v|
  {
    if ks[0] == k {
      assert k !in ks[1..];
      SumLensUpdateOther(ks[1..], k, v, m);
    } else {
      SumLensUpdateOnce(ks[1..], k, v, m);
    }
  }

  /** The state `scan_directory` has reached after a prefix of the walk. */
  ghost predicate Summarises(g: Grouping, root: string, entries: seq<Entry>, opts: ScanOptions, currentUid: int)
  {
    && WellFormed(g)
    && (forall x :: x in g.groups <==> KeptData(root, entries, opts, currentUid, x) != [])
    && (forall x :: x in g.groups ==> g.groups[x] == KeptData(root, entries, opts, currentUid, x))
    && SumLens(g.order, g.groups) == KeptCount(root, entries, opts, currentUid)
  }

  lemma AppendWellFormed(g: Grouping, ext: string, d: FileData)
    requires WellFormed(g)
    ensures WellFormed(Append(g, ext, d))
    ensures Append(g, ext, d).groups.Keys == g.groups.Keys + {ext}
  {
    if ext !in g.groups {
      var order := g.order + [ext];
      forall i, j | 0 <= i < j < |order| ensures order[i] != order[j] {
        if j == |order| - 1 {
          assert order[i] == g.order[i];
        }
      }
    }
  }

  lemma KeptStep(root: string, entries: seq<Entry>, opts: ScanOptions, currentUid: int, ext: string, d: FileData)
    requires entries != []
    requires VisitOf(root, entries[|entries| - 1], opts, currentUid) == Keep(ext, d)
    ensures forall x :: (KeptData(root, entries, opts, currentUid, x)
      == (if x == ext then KeptData(root, entries[..|entries| - 1], opts, currentUid, x) + [d]
          else KeptData(root, entries[..|entries| - 1], opts, currentUid, x)))
    ensures KeptCount(root, entries, opts, currentUid) == KeptCount(root, entries[..|entries| - 1], opts, currentUid) + 1
  {
  }

  /** After appending a kept file, each group still holds exactly the kept
      files of its extension. */
  lemma AppendKeepsGroups(g: Grouping, root: string, entries: seq<Entry>, opts: ScanOptions, currentUid: int, ext: string, d: FileData)
    requires entries != []
    requires Summarises(g, root, entries[..|entries| - 1], opts, currentUid)
    requires VisitOf(root, entries[|entries| - 1], opts, currentUid) == Keep(ext, d)
    ensures forall x :: x in Append(g, ext, d).groups <==> KeptData(root, entries, opts, currentUid, x) != []
    ensures forall x :: x in Append(g, ext, d).groups ==> Append(g, ext, d).groups[x] == KeptData(root, entries, opts, currentUid, x)
  {
    KeptStep(root, entries, opts, currentUid, ext, d);
    var g' := Append(g, ext, d);
    assert forall x :: x in g'.groups ==> g'.groups[x] == if x == ext then GroupOr(g, x) + [d] else g.groups[x];
  }

  /** After appending a kept file, the group sizes still add up to the number
      of kept files. */
  lemma AppendKeepsCount(g: Grouping, root: string, entries: seq<Entry>, opts: ScanOptions, currentUid: int, ext: string, d: FileData)
    requires entries != []
    requires Summarises(g, root, entries[..|entries| - 1], opts, currentUid)
    requires VisitOf(root, entries[|entries| - 1], opts, currentUid) == Keep(ext, d)
    ensures SumLens(Append(g, ext, d).order, Append(g, ext, d).groups) == KeptCount(root, entries, opts, currentUid)
  {
    KeptStep(root, entries, opts, currentUid, ext, d);
    if ext in g.groups {
      SumLensUpdateOnce(g.order, ext, g.groups[ext] + [d], g.groups);
    } else {
      SumLensUpdateOther(g.order, ext, [d], g.groups);
      SumLensAppend(g.order, ext, g.groups[ext := [d]]);
    }
  }

  lemma AppendKeeps(g: Grouping, root: string, entries: seq<Entry>, opts: ScanOptions, currentUid: int, ext: string, d: FileData)
    requires entries != []
    requires Summarises(g, root, entries[..|entries| - 1], opts, currentUid)
    requires VisitOf(root, entries[|entries| - 1], opts, currentUid) == Keep(ext, d)
    ensures Summarises(Append(g, ext, d), root, entries, opts, currentUid)
  {
    AppendWellFormed(g, ext, d);
    AppendKeepsGroups(g, root, entries, opts, currentUid, ext, d);
    AppendKeepsCount(g, root, entries, opts, currentUid, ext, d);
  }

  /** Everything `scan_directory` promises about the dictionary it returns:
      each kept file lands in exactly the group of its extension, in walk
      order; no group is empty; the group sizes add up to the number of kept
      files; and the scan fails exactly when some `stat` raises an error
      other than "not found". */
  lemma {:induction false} ScanSpecFacts(root: string, entries: seq<Entry>, opts: ScanOptions, currentUid: int)
    ensures ScanSpec(root, entries, opts, currentUid).Failure? <==> SomeAbort(root, entries, opts, currentUid)
    ensures ScanSpec(root, entries, opts, currentUid).Success? ==>
      Summarises(ScanSpec(root, entries, opts, currentUid).value, root, entries, opts, currentUid)
  {
    ScanSpecFails(root, entries, opts, currentUid);
    ScanSpecSummarises(root, entries, opts, currentUid);
  }

  /** The scan fails exactly when some listed file aborts it. */
  lemma {:induction false} ScanSpecFails(root: string, entries: seq<Entry>, opts: ScanOptions, currentUid: int)
    ensures ScanSpec(root, entries, opts, currentUid).Failure? <==> SomeAbort(root, entries, opts, currentUid)
  {
    if entries != [] {
      var init := entries[..|entries| - 1];
      ScanSpecFails(root, init, opts, currentUid);
      assert forall k :: 0 <= k < |init| ==> init[k] == entries[k];
    }
  }

  /** A successful scan satisfies the scan invariant. */
  lemma {:induction false} ScanSpecSummarises(root: string, entries: seq<Entry>, opts: ScanOptions, currentUid: int)
    ensures ScanSpec(root, entries, opts, currentUid).Success? ==>
      Summarises(ScanSpec(root, entries, opts, currentUid).value, root, entries, opts, currentUid)
  {
    if entries != [] {
      var init := entries[..|entries| - 1];
      ScanSpecSummarises(root, init, opts, currentUid);
      var prev := ScanSpec(root, init, opts, currentUid);
      if prev.Success? {
        match VisitOf(root, entries[|entries| - 1], opts, currentUid)
        case Skip =>
        case Abort(p) =>
        case Keep(ext, d) => AppendKeeps(prev.value, root, entries, opts, currentUid, ext, d);
      }
    }
  }

  /** `scan_directory`: one pass over the walk, appending each kept file to
      the group of its extension. */
  method ScanDirectory(root: string, entries: seq<Entry>, opts: ScanOptions, currentUid: int)
    returns (r: Result<Grouping, string>)
    ensures r == ScanSpec(root, entries, opts, currentUid)
    ensures r.Failure? <==> SomeAbort(root, entries, opts, currentUid)
    ensures r.Success? ==> Summarises(r.value, root, entries, opts, currentUid)
  {
    var order: seq<string> := [];
    var groups: map<string, seq<FileData>> := map[];
    var i := 0;
    while i < |entries|
      invariant 0 <= i <= |entries|
      invariant ScanSpec(root, entries[..i], opts, currentUid) == Success(Grouping(order, groups))
    {
      var e := entries[i];
      assert entries[..i + 1][..i] == entries[..i];
      if Pruned(e.dirs, opts.excludeDirs) || ExcludedByName(e.name, opts.excludeExtensions) || e.brokenLink {
        i := i + 1;
        continue;
      }
      match e.stat {
        case Failure(NotFound) =>
        case Failure(OtherOsError) =>
          AbortSticks(root, entries, i, opts, currentUid);
          ScanSpecFacts(root, entries, opts, currentUid);
          return Failure(FullPath(root, e));
        case Success(st) =>
          var ext := Ext(e.name);
          var data := FileDataOf(st, currentUid);
          if ext in groups {
            groups := groups[ext := groups[ext] + [data]];
          } else {
            order := order + [ext];
            groups := groups[ext := [data]];
          }
      }
      i := i + 1;
    }
    assert entries[..i] == entries;
    ScanSpecFacts(root, entries, opts, currentUid);
    r := Success(Grouping(order, groups));
  }

  /** Once a `stat` error has escaped, the rest of the walk cannot undo it:
      the scan reports the first such file. */
  lemma {:induction false} AbortSticks(root: string, entries: seq<Entry>, i: nat, opts: ScanOptions, currentUid: int)
    requires i < |entries|
    requires ScanSpec(root, entries[..i], opts, currentUid).Success?
    requires VisitOf(root, entries[i], opts, currentUid).Abort?
    ensures ScanSpec(root, entries, opts, currentUid) == Failure(VisitOf(root, entries[i], opts, currentUid).path)
    decreases |entries|
  {
    if |entries| == i + 1 {
      assert entries[..|entries| - 1] == entries[..i];
    } else {
      var init := entries[..|entries| - 1];
      assert init[..i] == entries[..i] && init[i] == entries[i];
      AbortSticks(root, init, i, opts, currentUid);
    }
  }

  /** A file excluded by name, or a broken link, anywhere in the walk leaves
      the outcome exactly as if it had not been listed. */
  lemma {:induction false} SkippedFileInvisible(root: string, a: seq<Entry>, e: Entry, b: seq<Entry>, opts: ScanOptions, currentUid: int)
    requires ExcludedByName(e.name, opts.excludeExtensions) || e.brokenLink
    ensures ScanSpec(root, a + [e] + b, opts, currentUid) == ScanSpec(root, a + b, opts, currentUid)
    decreases |b|
  {
    if b == [] {
      assert (a + [e] + b)[..|a + [e] + b| - 1] == a;
      assert a + b == a;
    } else {
      var b' := b[..|b| - 1];
      assert (a + [e] + b)[..|a + [e] + b| - 1] == a + [e] + b';
      assert (a + b)[..|a + b| - 1] == a + b';
      assert (a + [e] + b)[|a + [e] + b| - 1] == b[|b| - 1] == (a + b)[|a + b| - 1];
      SkippedFileInvisible(root, a, e, b', opts, currentUid);
    }
  }

  // ---------------------------------------------------------------------------
  // percentage_of_files

  predicate Meets(x: real, threshold: real, lessThan: bool)
  {
    if lessThan then x < threshold else x >= threshold
  }

  /** The `matches` list of `percentage_of_files`: the values below the
      threshold, or at or above it, in their original order. */
  function MatchingValues(values: seq<real>, threshold: real, lessThan: bool): (r: seq<real>)
    ensures |r| <= |values|
    ensures forall x :: x in r <==> x in values && Meets(x, threshold, lessThan)
  {
    if values == [] then []
    else
      var head := if Meets(values[0], threshold, lessThan) then [values[0]] else [];
      head + MatchingValues(values[1..], threshold, lessThan)
  }

  /** `matches` keeps every copy of a value that meets the test and none of
      one that does not, so its length counts duplicates as the source does. */
  lemma {:induction false} MatchingValuesMultiplicity(values: seq<real>, threshold: real, lessThan: bool)
    ensures forall x :: multiset(MatchingValues(values, threshold, lessThan))[x] ==
                        if Meets(x, threshold, lessThan) then multiset(values)[x] else 0
  {
    if values != [] {
      MatchingValuesMultiplicity(values[1..], threshold, lessThan);
      assert values == [values[0]] + values[1..];
    }
  }

  /** For one threshold, "below" and "at or above" split the list in two. */
  lemma {:induction false} MatchingPartition(values: seq<real>, threshold: real)
    ensures |MatchingValues(values, threshold, true)| + |MatchingValues(values, threshold, false)| == |values|
  {
    if values != [] {
      MatchingPartition(values[1..], threshold);
    }
  }

  /** Raising the threshold never shrinks the "below" count ... */
  lemma {:induction false} BelowCountMonotone(values: seq<real>, t1: real, t2: real)
    requires t1 <= t2
    ensures |MatchingValues(values, t1, true)| <= |MatchingValues(values, t2, true)|
  {
    if values != [] {
      BelowCountMonotone(values[1..], t1, t2);
    }
  }

  /** ... and never grows the "at or above" count. */
  lemma {:induction false} AtLeastCountAntitone(values: seq<real>, t1: real, t2: real)
    requires t1 <= t2
    ensures |MatchingValues(values, t2, false)| <= |MatchingValues(values, t1, false)|
  {
    if values != [] {
      AtLeastCountAntitone(values[1..], t1, t2);
    }
  }

  /** `count / total * 100`. */
  function Percent(count: nat, total: nat): (r: real)
    requires total > 0
    ensures r >= 0.0
    ensures count <= total ==> r <= 100.0
    ensures count == total <==> r == 100.0
    ensures count == 0 <==> r == 0.0
  {
    var c, t := count as real, total as real;
    var q := c / t;
    assert q * t == c;
    assert q > 1.0 ==> q * t > t;
    assert q == 1.0 ==> c == t;
    q * 100.0
  }

  lemma PercentMonotone(c1: nat, c2: nat, total: nat)
    requires total > 0 && c1 <= c2
    ensures Percent(c1, total) <= Percent(c2, total)
  {
    var t := total as real;
    assert c1 as real / t <= c2 as real / t;
  }

  lemma PercentComplement(c1: nat, c2: nat, total: nat)
    requires total > 0 && c1 + c2 == total
    ensures Percent(c1, total) + Percent(c2, total) == 100.0
  {
    var t := total as real;
    assert c1 as real / t + c2 as real / t == (c1 + c2) as real / t;
  }

  /** `percentage_of_files`: the share of `values` below (`lessThan`) or at or
      above `threshold`, as a percentage. */
  function PercentageOfFiles(values: seq<real>, threshold: real, lessThan: bool): (p: real)
    requires |values| > 0
    ensures 0.0 <= p <= 100.0
  {
    Percent(|MatchingValues(values, threshold, lessThan)|, |values|)
  }

  /** The two sides of one threshold add up to 100 percent. */
  lemma PercentagesComplement(values: seq<real>, threshold: real)
    requires |values| > 0
    ensures PercentageOfFiles(values, threshold, true) + PercentageOfFiles(values, threshold, false) == 100.0
    ensures threshold !in MatchingValues(values, threshold, true)
    ensures threshold in values ==> threshold in MatchingValues(values, threshold, false)
  {
    MatchingPartition(values, threshold);
    PercentComplement(|MatchingValues(values, threshold, true)|, |MatchingValues(values, threshold, false)|, |values|);
  }

  lemma BelowPercentMonotone(values: seq<real>, t1: real, t2: real)
    requires |values| > 0 && t1 <= t2
    ensures PercentageOfFiles(values, t1, true) <= PercentageOfFiles(values, t2, true)
  {
    BelowCountMonotone(values, t1, t2);
    PercentMonotone(|MatchingValues(values, t1, true)|, |MatchingValues(values, t2, true)|, |values|);
  }

  lemma AtLeastPercentAntitone(values: seq<real>, t1: real, t2: real)
    requires |values| > 0 && t1 <= t2
    ensures PercentageOfFiles(values, t2, false) <= PercentageOfFiles(values, t1, false)
  {
    AtLeastCountAntitone(values, t1, t2);
    PercentMonotone(|MatchingValues(values, t2, false)|, |MatchingValues(values, t1, false)|, |values|);
  }

  // ---------------------------------------------------------------------------
  // get_summary_data

  const SecondsPerDay: int := 24 * 60 * 60

  /** The recency windows of the report, in days, in column order. */
  const WindowDays: seq<int> := [1, 3, 7, 30, 90, 180, 365]

  /** A timestamp is within the last `days` days when it is at or after this. */
  function Cutoff(now: int, days: int): real
  {
    (now - days * SecondsPerDay) as real
  }

  /** One row of the summary report. The seven recency percentages of each
      timestamp kind are kept in `WindowDays` order. */
  datatype SummaryRow = SummaryRow(
    extension: string,
    totalFiles: nat,
    totalSizeMb: real,
    averageSizeMb: real,
    percentAbove1Mb: real,
    percentBelow1Mb: real,
    percentBelow5Mb: real,
    percentBelow100Mb: real,
    percentBelow500Mb: real,
    percentAtOrAbove500Mb: real,
    percentAccessed: seq<real>,
    percentModified: seq<real>,
    percentCreated: seq<real>,
    percentOwnedByCurrentUser: real,
    percentOwnedByRoot: real)

  function Sizes(files: seq<FileData>): seq<real>
  {
    seq(|files|, i requires 0 <= i < |files| => files[i].sizeMb)
  }

  function Times(files: seq<FileData>, kind: TimeKind): seq<real>
  {
    seq(|files|, i requires 0 <= i < |files| => files[i].Time(kind) as real)
  }

  function Sum(xs: seq<real>): real
  {
    if xs == [] then 0.0 else xs[0] + Sum(xs[1..])
  }

  function CountOwnedByCurrentUser(files: seq<FileData>): nat
  {
    if files == [] then 0 else (if files[0].ownedByCurrentUser then 1 else 0) + CountOwnedByCurrentUser(files[1..])
  }

  function CountOwnedByRoot(files: seq<FileData>): nat
  {
    if files == [] then 0 else (if files[0].ownedByRoot then 1 else 0) + CountOwnedByRoot(files[1..])
  }

  lemma {:induction false} OwnershipCountsBounded(files: seq<FileData>)
    ensures CountOwnedByCurrentUser(files) <= |files| && CountOwnedByRoot(files) <= |files|
  {
    if files != [] {
      OwnershipCountsBounded(files[1..]);
    }
  }

  /** The seven recency percentages of one timestamp column. */
  function Recency(times: seq<real>, now: int): seq<real>
    requires |times| > 0
  {
    seq(|WindowDays|, i requires 0 <= i < |WindowDays| => PercentageOfFiles(times, Cutoff(now, WindowDays[i]), false))
  }

  /** The row `get_summary_data` builds for one extension group. */
  function RowOf(ext: string, files: seq<FileData>, now: int): SummaryRow
    requires |files| > 0
  {
    var n := |files|;
    var sizes := Sizes(files);
    var total := Sum(sizes);
    SummaryRow(
      ext, n, total, total / n as real,
      PercentageOfFiles(sizes, 1.0, false),
      PercentageOfFiles(sizes, 1.0, true),
      PercentageOfFiles(sizes, 5.0, true),
      PercentageOfFiles(sizes, 100.0, true),
      PercentageOfFiles(sizes, 500.0, true),
      PercentageOfFiles(sizes, 500.0, false),
      Recency(Times(files, Accessed), now),
      Recency(Times(files, Modified), now),
      Recency(Times(files, Created), now),
      Percent(CountOwnedByCurrentUser(files), n),
      Percent(CountOwnedByRoot(files), n))
  }

  predicate InRange(p: real)
  {
    0.0 <= p <= 100.0
  }

  /** Seven percentages, each in range, growing with the window. */
  predicate Nested(ps: seq<real>)
  {
    && |ps| == |WindowDays|
    && (forall i :: 0 <= i < |ps| ==> InRange(ps[i]))
    && (forall i, j :: 0 <= i <= j < |ps| ==> ps[i] <= ps[j])
  }

  /** What every summary row satisfies: complementary size columns add up to
      100, the "below" columns grow with the threshold, the recency columns
      grow with the window, and every percentage lies in [0, 100]. */
  predicate RowConsistent(row: SummaryRow)
  {
    && row.totalFiles > 0
    && row.percentAbove1Mb + row.percentBelow1Mb == 100.0
    && row.percentAtOrAbove500Mb + row.percentBelow500Mb == 100.0
    && 0.0 <= row.percentBelow1Mb <= row.percentBelow5Mb <= row.percentBelow100Mb <= row.percentBelow500Mb <= 100.0
    && InRange(row.percentAbove1Mb) && InRange(row.percentAtOrAbove500Mb)
    && Nested(row.percentAccessed) && Nested(row.percentModified) && Nested(row.percentCreated)
    && InRange(row.percentOwnedByCurrentUser) && InRange(row.percentOwnedByRoot)
  }

  lemma RecencyNested(times: seq<real>, now: int)
    requires |times| > 0
    ensures Nested(Recency(times, now))
  {
    var ps := Recency(times, now);
    forall i, j | 0 <= i <= j < |ps| ensures ps[i] <= ps[j] {
      assert WindowDays[i] <= WindowDays[j];
      AtLeastPercentAntitone(times, Cutoff(now, WindowDays[j]), Cutoff(now, WindowDays[i]));
    }
  }

  lemma RowOfConsistent(ext: string, files: seq<FileData>, now: int)
    requires |files| > 0
    ensures RowConsistent(RowOf(ext, files, now))
    ensures RowOf(ext, files, now).extension == ext && RowOf(ext, files, now).totalFiles == |files|
  {
    var sizes := Sizes(files);
    PercentagesComplement(sizes, 1.0);
    PercentagesComplement(sizes, 500.0);
    BelowPercentMonotone(sizes, 1.0, 5.0);
    BelowPercentMonotone(sizes, 5.0, 100.0);
    BelowPercentMonotone(sizes, 100.0, 500.0);
    RecencyNested(Times(files, Accessed), now);
    RecencyNested(Times(files, Modified), now);
    RecencyNested(Times(files, Created), now);
    OwnershipCountsBounded(files);
  }

  /** `get_summary_data`: one row per group, in the dictionary's order. */
  method GetSummaryData(g: Grouping, now: int) returns (rows: seq<SummaryRow>)
    requires WellFormed(g)
    ensures |rows| == |g.order|
    ensures forall i :: 0 <= i < |rows| ==> rows[i] == RowOf(g.order[i], g.groups[g.order[i]], now)
    ensures forall i :: 0 <= i < |rows| ==> RowConsistent(rows[i])
    ensures forall i :: 0 <= i < |rows| ==> rows[i].extension == g.order[i] && rows[i].totalFiles == |g.groups[g.order[i]]|
  {
    // The rows the loop is to produce, one per group in order
    ghost var expected := seq(|g.order|, k requires 0 <= k < |g.order| => RowOf(g.order[k], g.groups[g.order[k]], now));
    rows := [];
    for i := 0 to |g.order|
      invariant rows == expected[..i]
    {
      var ext := g.order[i];
      var files := g.groups[ext];
      rows := rows + [RowOf(ext, files, now)];
    }
    assert rows == expected;
    forall i | 0 <= i < |rows|
      ensures RowConsistent(rows[i])
      ensures rows[i].extension == g.order[i] && rows[i].totalFiles == |g.groups[g.order[i]]|
    {
      RowOfConsistent(g.order[i], g.groups[g.order[i]], now);
    }
  }

  /** The size columns of the two-file example below. */
  lemma TwoSizesPercentages()
    ensures Sum([2.0, 0.5]) == 2.5
    ensures PercentageOfFiles([2.0, 0.5], 1.0, false) == 50.0
    ensures PercentageOfFiles([2.0, 0.5], 1.0, true) == 50.0
  {
    var sizes := [2.0, 0.5];
    assert sizes[1..] == [0.5] && sizes[1..][1..] == [];
    assert MatchingValues(sizes, 1.0, false) == [2.0];
    assert MatchingValues(sizes, 1.0, true) == [0.5];
    assert Percent(1, 2) == 50.0;
  }

  /** The 30-day modification column of the two-file example below. */
  lemma TwoTimesPercentage(now: int)
    ensures PercentageOfFiles([now as real, (now - 40 * SecondsPerDay) as real], Cutoff(now, 30), false) == 50.0
  {
    var times := [now as real, (now - 40 * SecondsPerDay) as real];
    assert times[1..] == [(now - 40 * SecondsPerDay) as real] && times[1..][1..] == [];
    assert MatchingValues(times, Cutoff(now, 30), false) == [now as real];
    assert Percent(1, 2) == 50.0;
  }

  /** Two text files, one of 2 MB modified at `now` and one of 0.5 MB
      modified 40 days earlier: the row counts both, averages 1.25 MB, has
      half of them at or above 1 MB, and half modified within the last 30
      days. */
  lemma TwoFileScenario(now: int, atime: int, ctime: int, currentUid: int, uid: int)
    ensures var a := FileDataOf(Stat(2 * 1048576, atime, now, ctime, uid), currentUid);
      var b := FileDataOf(Stat(1048576 / 2, atime, now - 40 * SecondsPerDay, ctime, uid), currentUid);
      var row := RowOf(".txt", [a, b], now);
      && row.totalFiles == 2 && row.totalSizeMb == 2.5 && row.averageSizeMb == 1.25
      && row.percentAbove1Mb == 50.0 && row.percentBelow1Mb == 50.0
      && row.percentModified[3] == 50.0
  {
    var a := FileDataOf(Stat(2 * 1048576, atime, now, ctime, uid), currentUid);
    var b := FileDataOf(Stat(1048576 / 2, atime, now - 40 * SecondsPerDay, ctime, uid), currentUid);
    var times := [now as real, (now - 40 * SecondsPerDay) as real];
    assert Sizes([a, b]) == [2.0, 0.5];
    assert Times([a, b], Modified) == times;
    TwoSizesPercentages();
    TwoTimesPercentage(now);
    assert Recency(times, now)[3] == PercentageOfFiles(times, Cutoff(now, 30), false);
  }

  function SumTotals(rows: seq<SummaryRow>): nat
  {
    if rows == [] then 0 else rows[0].totalFiles + SumTotals(rows[1..])
  }

  lemma {:induction false} SumTotalsIsSumLens(rows: seq<SummaryRow>, g: Grouping)
    requires |rows| == |g.order|
    requires forall i :: 0 <= i < |rows| ==> g.order[i] in g.groups && rows[i].totalFiles == |g.groups[g.order[i]]|
    ensures SumTotals(rows) == SumLens(g.order, g.groups)
  {
    if rows != [] {
      SumTotalsIsSumLens(rows[1..], Grouping(g.order[1..], g.groups));
    }
  }

  /** Rows built one per group of a scan result describe the kept files:
      each row is the row of its extension's kept files, and every extension
      with a kept file has a row. */
  lemma RowsDescribeKept(rows: seq<SummaryRow>, g: Grouping, root: string, entries: seq<Entry>, opts: ScanOptions, currentUid: int, now: int)
    requires Summarises(g, root, entries, opts, currentUid)
    requires |rows| == |g.order|
    requires forall i :: 0 <= i < |rows| ==> rows[i].extension == g.order[i] && rows[i] == RowOf(g.order[i], g.groups[g.order[i]], now)
    ensures forall i :: 0 <= i < |rows| ==>
      KeptData(root, entries, opts, currentUid, rows[i].extension) != [] &&
      rows[i] == RowOf(rows[i].extension, KeptData(root, entries, opts, currentUid, rows[i].extension), now)
    ensures forall x :: KeptData(root, entries, opts, currentUid, x) != [] ==>
      exists i :: 0 <= i < |rows| && rows[i].extension == x
  {
    forall x | KeptData(root, entries, opts, currentUid, x) != []
      ensures exists i :: 0 <= i < |rows| && rows[i].extension == x
    {
      var i :| 0 <= i < |g.order| && g.order[i] == x;
      assert rows[i].extension == x;
    }
  }

  /** The summary script without its CSV output: refuse an unset scan path,
      scan, then one row per extension. Each row counts exactly the kept
      files of its extension, extensions are not repeated, and the file
      counts add up to the number of files kept. */
  method Summarize(root: string, entries: seq<Entry>, opts: ScanOptions, currentUid: int, now: int)
    returns (r: Result<seq<SummaryRow>, string>)
    ensures root == [] ==> r == Failure("SCAN_PATH not set in .env file")
    ensures r.Failure? <==> root == [] || SomeAbort(root, entries, opts, currentUid)
    ensures r.Success? ==> forall i :: 0 <= i < |r.value| ==> RowConsistent(r.value[i])
    ensures r.Success? ==> forall i :: 0 <= i < |r.value| ==>
      r.value[i].totalFiles == |KeptData(root, entries, opts, currentUid, r.value[i].extension)|
    ensures r.Success? ==> forall i, j :: 0 <= i < j < |r.value| ==> r.value[i].extension != r.value[j].extension
    ensures r.Success? ==> SumTotals(r.value) == KeptCount(root, entries, opts, currentUid)
    ensures r.Success? ==> forall i :: 0 <= i < |r.value| ==>
      KeptData(root, entries, opts, currentUid, r.value[i].extension) != [] &&
      r.value[i] == RowOf(r.value[i].extension, KeptData(root, entries, opts, currentUid, r.value[i].extension), now)
    ensures r.Success? ==> forall x :: KeptData(root, entries, opts, currentUid, x) != [] ==>
      exists i :: 0 <= i < |r.value| && r.value[i].extension == x
  {
    if root == [] {
      return Failure("SCAN_PATH not set in .env file");
    }
    var scanned := ScanDirectory(root, entries, opts, currentUid);
    match scanned {
      case Failure(p) =>
        r := Failure(p);
      case Success(g) =>
        var rows := GetSummaryData(g, now);
        SumTotalsIsSumLens(rows, g);
        RowsDescribeKept(rows, g, root, entries, opts, currentUid, now);
        r := Success(rows);
    }
  }
}
