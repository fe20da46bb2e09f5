/** The rule-based file filter: `scan_files` lists the files of a walk that
    are not excluded, `passes_conditions` evaluates the configured checks on
    one file, and the loop of `main` keeps a report row for each file that
    passes. The clock and the current user id are parameters. */
module FilterFiles {
  import opened Records

  /** A file `scan_files` yields: its full path and what `stat` reported. */
  datatype Found = Found(path: string, stat: Stat)

  /** The JSON rule file. `None` is a key that is absent or null, except for
      `logic`, where `None` is an absent key only: the source compares the
      value of a present `logic` key with "all", so a null or non-string
      value behaves like any string other than "all". */
  datatype Config = Config(
    minSizeMb: Option<real>,
    maxSizeMb: Option<real>,
    ext: Option<seq<string>>,
    accessedWithin: Option<real>,
    notAccessedWithin: Option<real>,
    modifiedWithin: Option<real>,
    notModifiedWithin: Option<real>,
    createdWithin: Option<real>,
    notCreatedWithin: Option<real>,
    ownedBy: Option<string>,
    logic: Option<string>)

  const EmptyConfig: Config := Config(None, None, None, None, None, None, None, None, None, None, None)

  /** One active check, with its parameter. */
  datatype Condition =
    | MinSize(mb: real)
    | MaxSize(mb: real)
    | ExtIn(allowed: seq<string>)
    | Within(kind: TimeKind, days: real)
    | NotWithin(kind: TimeKind, days: real)
    | OwnedByCurrentUser
    | OwnedByRoot


  /** An allowlist entry, lower-cased, with a leading '.' added when missing. */
  function NormalizeExt(e: string): string
  {
    if |e| > 0 && e[0] == '.' then Lower(e) else "." + Lower(e)
  }

  /** The key a file is matched on: its path's extension, lower-cased. */
  function FileExt(path: string): string
  {
    Lower(PathExt(path))
  }

  function NormalizedAllowlist(exts: seq<string>): seq<string>
  {
    seq(|exts|, i requires 0 <= i < |exts| => NormalizeExt(exts[i]))
  }

  /** `t >= now - days * 86400`: the timestamp lies within the last `days`
      days. */
  predicate InLastDays(t: int, now: int, days: real)
  {
    t as real >= now as real - days * 86400.0
  }

  /** `t < now - days * 86400`: the "not within" test. */
  predicate BeforeLastDays(t: int, now: int, days: real)
  {
    t as real < now as real - days * 86400.0
  }

  /** Whether one check passes for a file. */
  predicate Holds(c: Condition, f: Found, now: int, currentUid: int)
  {
    match c
    case MinSize(mb) => SizeMb(f.stat.size) >= mb
    case MaxSize(mb) => SizeMb(f.stat.size) <= mb
    case ExtIn(allowed) => FileExt(f.path) in NormalizedAllowlist(allowed)
    case Within(kind, days) => InLastDays(f.stat.Time(kind), now, days)
    case NotWithin(kind, days) => BeforeLastDays(f.stat.Time(kind), now, days)
    case OwnedByCurrentUser => f.stat.uid == currentUid
    case OwnedByRoot => f.stat.uid == 0
  }

  // One part per group of keys, in the order `passes_conditions` visits them.

  function MinSizePart(cfg: Config): seq<Condition>
  {
    if cfg.minSizeMb.Some? then [MinSize(cfg.minSizeMb.value)] else []
  }

  function MaxSizePart(cfg: Config): seq<Condition>
  {
    if cfg.maxSizeMb.Some? then [MaxSize(cfg.maxSizeMb.value)] else []
  }

  /** A missing or empty allowlist switches no check on. */
  function ExtPart(cfg: Config): seq<Condition>
  {
    if cfg.ext.Some? && |cfg.ext.value| > 0 then [ExtIn(cfg.ext.value)] else []
  }

  function OptionalDays(o: Option<real>, kind: TimeKind, within: bool): seq<Condition>
  {
    if o.None? then [] else if within then [Within(kind, o.value)] else [NotWithin(kind, o.value)]
  }

  /** Only "current" and "root" switch an ownership check on. */
  function OwnerPart(cfg: Config): seq<Condition>
  {
    if cfg.ownedBy == Some("current") then [OwnedByCurrentUser]
    else if cfg.ownedBy == Some("root") then [OwnedByRoot]
    else []
  }

  /** The checks a configuration switches on, in the order they are built. */
  function ActiveConditions(cfg: Config): seq<Condition>
  {
    MinSizePart(cfg) + MaxSizePart(cfg) + ExtPart(cfg)
    + OptionalDays(cfg.accessedWithin, Accessed, true)
    + OptionalDays(cfg.notAccessedWithin, Accessed, false)
    + OptionalDays(cfg.modifiedWithin, Modified, true)
    + OptionalDays(cfg.notModifiedWithin, Modified, false)
    + OptionalDays(cfg.createdWithin, Created, true)
    + OptionalDays(cfg.notCreatedWithin, Created, false)
    + OwnerPart(cfg)
  }

  /** No key of the configuration switches a check on: every optional key is
      absent, the allowlist is absent or empty, and `owned_by` is neither
      "current" nor "root". */
  predicate NoActiveKey(cfg: Config)
  {
    && cfg.minSizeMb.None? && cfg.maxSizeMb.None?
    && (cfg.ext.None? || cfg.ext.value == [])
    && cfg.accessedWithin.None? && cfg.notAccessedWithin.None?
    && cfg.modifiedWithin.None? && cfg.notModifiedWithin.None?
    && cfg.createdWithin.None? && cfg.notCreatedWithin.None?
    && cfg.ownedBy != Some("current") && cfg.ownedBy != Some("root")
  }

  /** `logic` absent or "all" means every check must pass; any other value
      means one passing check is enough. */
  predicate LogicIsAll(cfg: Config)
  {
    cfg.logic.None? || cfg.logic.value == "all"
  }

  /** The verdict on one file, stated over the list of active checks: never
      when there is none, otherwise their conjunction or their disjunction. */
  predicate Matches(cfg: Config, f: Found, now: int, currentUid: int)
  {
    var cs := ActiveConditions(cfg);
    && |cs| > 0
    && if LogicIsAll(cfg) then forall c :: c in cs ==> Holds(c, f, now, currentUid)
       else exists c :: c in cs && Holds(c, f, now, currentUid)
  }

  /** The list of booleans the checks evaluate to, one per condition. */
  function Evaluate(cs: seq<Condition>, f: Found, now: int, currentUid: int): (r: seq<bool>)
  {
    if cs == [] then [] else Evaluate(cs[..|cs| - 1], f, now, currentUid) + [Holds(cs[|cs| - 1], f, now, currentUid)]
  }

  lemma {:induction false} EvaluateAppend(cs: seq<Condition>, more: seq<Condition>, f: Found, now: int, currentUid: int)
    ensures Evaluate(cs + more, f, now, currentUid) == Evaluate(cs, f, now, currentUid) + Evaluate(more, f, now, currentUid)
    decreases |more|
  {
    if more == [] {
      assert cs + more == cs;
    } else {
      assert (cs + more)[..|cs + more| - 1] == cs + more[..|more| - 1];
      EvaluateAppend(cs, more[..|more| - 1], f, now, currentUid);
    }
  }

  lemma {:induction false} EvaluateAt(cs: seq<Condition>, f: Found, now: int, currentUid: int)
    ensures |Evaluate(cs, f, now, currentUid)| == |cs|
    ensures forall k :: 0 <= k < |cs| ==> Evaluate(cs, f, now, currentUid)[k] == Holds(cs[k], f, now, currentUid)
  {
    if cs != [] {
      EvaluateAt(cs[..|cs| - 1], f, now, currentUid);
    }
  }

  // Each `if <key is set>: checks.append(<test>)` statement of
  // `passes_conditions`, as the list it appends: the test's value, or nothing
  // when the key is absent (for `ext`: absent or empty).

  function MinSizeCheck(cfg: Config, f: Found): seq<bool>
  {
    if cfg.minSizeMb.Some? then [SizeMb(f.stat.size) >= cfg.minSizeMb.value] else []
  }

  function MaxSizeCheck(cfg: Config, f: Found): seq<bool>
  {
    if cfg.maxSizeMb.Some? then [SizeMb(f.stat.size) <= cfg.maxSizeMb.value] else []
  }

  function ExtCheck(cfg: Config, f: Found): seq<bool>
  {
    if cfg.ext.Some? && |cfg.ext.value| > 0 then [FileExt(f.path) in NormalizedAllowlist(cfg.ext.value)] else []
  }

  function TimeCheck(o: Option<real>, t: int, within: bool, now: int): seq<bool>
  {
    if o.None? then [] else if within then [InLastDays(t, now, o.value)] else [BeforeLastDays(t, now, o.value)]
  }

  function OwnerCheck(cfg: Config, f: Found, currentUid: int): seq<bool>
  {
    if cfg.ownedBy == Some("current") then [f.stat.uid == currentUid]
    else if cfg.ownedBy == Some("root") then [f.stat.uid == 0]
    else []
  }

  /** The whole list `passes_conditions` builds. */
  function ChecksOf(cfg: Config, f: Found, now: int, currentUid: int): seq<bool>
  {
    MinSizeCheck(cfg, f) + MaxSizeCheck(cfg, f) + ExtCheck(cfg, f)
    + TimeCheck(cfg.accessedWithin, f.stat.Time(Accessed), true, now)
    + TimeCheck(cfg.notAccessedWithin, f.stat.Time(Accessed), false, now)
    + TimeCheck(cfg.modifiedWithin, f.stat.Time(Modified), true, now)
    + TimeCheck(cfg.notModifiedWithin, f.stat.Time(Modified), false, now)
    + TimeCheck(cfg.createdWithin, f.stat.Time(Created), true, now)
    + TimeCheck(cfg.notCreatedWithin, f.stat.Time(Created), false, now)
    + OwnerCheck(cfg, f, currentUid)
  }

  lemma MinSizePartEvaluates(cfg: Config, f: Found, now: int, currentUid: int)
    ensures Evaluate(MinSizePart(cfg), f, now, currentUid) == MinSizeCheck(cfg, f)
  {
  }

  lemma MaxSizePartEvaluates(cfg: Config, f: Found, now: int, currentUid: int)
    ensures Evaluate(MaxSizePart(cfg), f, now, currentUid) == MaxSizeCheck(cfg, f)
  {
  }

  lemma ExtPartEvaluates(cfg: Config, f: Found, now: int, currentUid: int)
    ensures Evaluate(ExtPart(cfg), f, now, currentUid) == ExtCheck(cfg, f)
  {
  }

  lemma OwnerPartEvaluates(cfg: Config, f: Found, now: int, currentUid: int)
    ensures Evaluate(OwnerPart(cfg), f, now, currentUid) == OwnerCheck(cfg, f, currentUid)
  {
  }

  lemma TimePartEvaluates(o: Option<real>, kind: TimeKind, within: bool, f: Found, now: int, currentUid: int)
    ensures Evaluate(OptionalDays(o, kind, within), f, now, currentUid) == TimeCheck(o, f.stat.Time(kind), within, now)
  {
  }

  /** Appending the values of `part` to those of `cs`, given the values of
      `part` on their own. */
  lemma EvaluateExtend(cs: seq<Condition>, bs: seq<bool>, part: seq<Condition>, more: seq<bool>, f: Found, now: int, currentUid: int)
    requires Evaluate(cs, f, now, currentUid) == bs
    requires Evaluate(part, f, now, currentUid) == more
    ensures Evaluate(cs + part, f, now, currentUid) == bs + more
  {
    EvaluateAppend(cs, part, f, now, currentUid);
  }

  /** The list the source builds holds the values of the active conditions,
      in order. */
  lemma ChecksOfEvaluates(cfg: Config, f: Found, now: int, currentUid: int)
    ensures ChecksOf(cfg, f, now, currentUid) == Evaluate(ActiveConditions(cfg), f, now, currentUid)
  {
    MinSizePartEvaluates(cfg, f, now, currentUid);
    MaxSizePartEvaluates(cfg, f, now, currentUid);
    ExtPartEvaluates(cfg, f, now, currentUid);
    OwnerPartEvaluates(cfg, f, now, currentUid);
    TimePartEvaluates(cfg.accessedWithin, Accessed, true, f, now, currentUid);
    TimePartEvaluates(cfg.notAccessedWithin, Accessed, false, f, now, currentUid);
    TimePartEvaluates(cfg.modifiedWithin, Modified, true, f, now, currentUid);
    TimePartEvaluates(cfg.notModifiedWithin, Modified, false, f, now, currentUid);
    TimePartEvaluates(cfg.createdWithin, Created, true, f, now, currentUid);
    TimePartEvaluates(cfg.notCreatedWithin, Created, false, f, now, currentUid);
    var cs := MinSizePart(cfg);
    var bs := MinSizeCheck(cfg, f);
    EvaluateExtend(cs, bs, MaxSizePart(cfg), MaxSizeCheck(cfg, f), f, now, currentUid);
    cs, bs := cs + MaxSizePart(cfg), bs + MaxSizeCheck(cfg, f);
    EvaluateExtend(cs, bs, ExtPart(cfg), ExtCheck(cfg, f), f, now, currentUid);
    cs, bs := cs + ExtPart(cfg), bs + ExtCheck(cfg, f);
    EvaluateExtend(cs, bs, OptionalDays(cfg.accessedWithin, Accessed, true), TimeCheck(cfg.accessedWithin, f.stat.Time(Accessed), true, now), f, now, currentUid);
    cs, bs := cs + OptionalDays(cfg.accessedWithin, Accessed, true), bs + TimeCheck(cfg.accessedWithin, f.stat.Time(Accessed), true, now);
    EvaluateExtend(cs, bs, OptionalDays(cfg.notAccessedWithin, Accessed, false), TimeCheck(cfg.notAccessedWithin, f.stat.Time(Accessed), false, now), f, now, currentUid);
    cs, bs := cs + OptionalDays(cfg.notAccessedWithin, Accessed, false), bs + TimeCheck(cfg.notAccessedWithin, f.stat.Time(Accessed), false, now);
    EvaluateExtend(cs, bs, OptionalDays(cfg.modifiedWithin, Modified, true), TimeCheck(cfg.modifiedWithin, f.stat.Time(Modified), true, now), f, now, currentUid);
    cs, bs := cs + OptionalDays(cfg.modifiedWithin, Modified, true), bs + TimeCheck(cfg.modifiedWithin, f.stat.Time(Modified), true, now);
    EvaluateExtend(cs, bs, OptionalDays(cfg.notModifiedWithin, Modified, false), TimeCheck(cfg.notModifiedWithin, f.stat.Time(Modified), false, now), f, now, currentUid);
    cs, bs := cs + OptionalDays(cfg.notModifiedWithin, Modified, false), bs + TimeCheck(cfg.notModifiedWithin, f.stat.Time(Modified), false, now);
    EvaluateExtend(cs, bs, OptionalDays(cfg.createdWithin, Created, true), TimeCheck(cfg.createdWithin, f.stat.Time(Created), true, now), f, now, currentUid);
    cs, bs := cs + OptionalDays(cfg.createdWithin, Created, true), bs + TimeCheck(cfg.createdWithin, f.stat.Time(Created), true, now);
    EvaluateExtend(cs, bs, OptionalDays(cfg.notCreatedWithin, Created, false), TimeCheck(cfg.notCreatedWithin, f.stat.Time(Created), false, now), f, now, currentUid);
    cs, bs := cs + OptionalDays(cfg.notCreatedWithin, Created, false), bs + TimeCheck(cfg.notCreatedWithin, f.stat.Time(Created), false, now);
    EvaluateExtend(cs, bs, OwnerPart(cfg), OwnerCheck(cfg, f, currentUid), f, now, currentUid);
  }

  /** Python's `all`. */
  predicate All(bs: seq<bool>)
  {
    forall k :: 0 <= k < |bs| ==> bs[k]
  }

  /** Python's `any`. */
  predicate Any(bs: seq<bool>)
  {
    exists k :: 0 <= k < |bs| && bs[k]
  }

  /** Combining the values of a list of conditions with `all` or `any` says
      whether all or some of them hold. */
  lemma {:induction false} CombineEvaluate(cs: seq<Condition>, f: Found, now: int, currentUid: int)
    ensures |Evaluate(cs, f, now, currentUid)| == |cs|
    ensures All(Evaluate(cs, f, now, currentUid)) <==> forall c :: c in cs ==> Holds(c, f, now, currentUid)
    ensures Any(Evaluate(cs, f, now, currentUid)) <==> exists c :: c in cs && Holds(c, f, now, currentUid)
  {
    EvaluateAt(cs, f, now, currentUid);
  }

  /** The verdict of `passes_conditions`, stated over the list it builds. */
  lemma MatchesByChecks(cfg: Config, f: Found, now: int, currentUid: int)
    ensures var checks := ChecksOf(cfg, f, now, currentUid);
      Matches(cfg, f, now, currentUid) == (|checks| > 0 && if LogicIsAll(cfg) then All(checks) else Any(checks))
  {
    ChecksOfEvaluates(cfg, f, now, currentUid);
    CombineEvaluate(ActiveConditions(cfg), f, now, currentUid);
  }

  /** A configuration switches no check on exactly when no key is active. */
  lemma NoActiveKeyIffNoCondition(cfg: Config)
    ensures ActiveConditions(cfg) == [] <==> NoActiveKey(cfg)
  {
  }

  /** `passes_conditions`: appends one boolean per configured key to a list,
      rejects an empty list, and otherwise combines it with all or any. */
  method PassesConditions(f: Found, cfg: Config, now: int, currentUid: int) returns (ok: bool)
    ensures ok == Matches(cfg, f, now, currentUid)
    ensures NoActiveKey(cfg) ==> !ok
  {
    var checks: seq<bool> := [];
    // Size checks
    checks := checks + MinSizeCheck(cfg, f);
    assert checks == MinSizeCheck(cfg, f);
    checks := checks + MaxSizeCheck(cfg, f);
    // Extension allowlist
    checks := checks + ExtCheck(cfg, f);
    // Access, modification and creation time, within / not within N days
    checks := checks + TimeCheck(cfg.accessedWithin, f.stat.Time(Accessed), true, now);
    checks := checks + TimeCheck(cfg.notAccessedWithin, f.stat.Time(Accessed), false, now);
    checks := checks + TimeCheck(cfg.modifiedWithin, f.stat.Time(Modified), true, now);
    checks := checks + TimeCheck(cfg.notModifiedWithin, f.stat.Time(Modified), false, now);
    checks := checks + TimeCheck(cfg.createdWithin, f.stat.Time(Created), true, now);
    checks := checks + TimeCheck(cfg.notCreatedWithin, f.stat.Time(Created), false, now);
    // Ownership
    checks := checks + OwnerCheck(cfg, f, currentUid);

    assert checks == ChecksOf(cfg, f, now, currentUid);
    MatchesByChecks(cfg, f, now, currentUid);
    NoActiveKeyIffNoCondition(cfg);
    // No condition at all: reject rather than match everything
    if |checks| == 0 {
      return false;
    }
    ok := if LogicIsAll(cfg) then All(checks) else Any(checks);
  }

  // Properties of the individual checks

  /** The size bounds are inclusive, and on whole bytes they are byte
      thresholds: a file of exactly `t` MB passes both `min_size_mb: t` and
      `max_size_mb: t`. */
  lemma SizeBoundsInclusive(f: Found, t: real, now: int, currentUid: int)
    ensures Holds(MinSize(t), f, now, currentUid) <==> f.stat.size as real >= t * 1048576.0
    ensures Holds(MaxSize(t), f, now, currentUid) <==> f.stat.size as real <= t * 1048576.0
    ensures SizeMb(f.stat.size) == t ==> Holds(MinSize(t), f, now, currentUid) && Holds(MaxSize(t), f, now, currentUid)
  {
    SizeMbCompare(f.stat.size, t);
  }

  lemma LowerDot()
    ensures Lower(".") == "."
  {
    assert "."[..0] == [];
  }

  /** A normalised allowlist entry starts with '.' and has no upper-case
      letter. */
  lemma NormalizeExtShape(e: string)
    ensures |NormalizeExt(e)| > 0 && NormalizeExt(e)[0] == '.'
    ensures IsLower(NormalizeExt(e))
  {
    // Both branches lower-case a string that starts with '.'
    var x := if |e| > 0 && e[0] == '.' then e else "." + e;
    LowerAppend(".", e);
    LowerDot();
    assert NormalizeExt(e) == Lower(x);
    LowerFacts(x);
    assert Lower(x)[0] == LowerChar(x[0]);
  }

  /** Normalising does not depend on the case of the entry. */
  lemma NormalizeExtIgnoresCase(e: string)
    ensures NormalizeExt(Lower(e)) == NormalizeExt(e)
  {
    LowerFacts(e);
    if |e| > 0 {
      assert Lower(e)[0] == '.' <==> e[0] == '.';
    }
  }

  /** A leading '.' on an allowlist entry is optional. */
  lemma NormalizeExtDotOptional(e: string)
    requires |e| == 0 || e[0] != '.'
    ensures NormalizeExt("." + e) == NormalizeExt(e)
  {
    LowerAppend(".", e);
    LowerDot();
  }

  /** The extension check asks whether the file's lower-cased extension `x`
      is in the normalised allowlist: that is, whether some entry names it up
      to case and an optional leading '.'. Only a key that starts with '.'
      and has no upper-case letter can pass, so a file without an extension
      passes no allowlist. */
  lemma AllowlistMatch(x: string, allowed: seq<string>)
    ensures x in NormalizedAllowlist(allowed) <==> exists k :: 0 <= k < |allowed| && x == NormalizeExt(allowed[k])
    ensures x in NormalizedAllowlist(allowed) ==> |x| > 0 && x[0] == '.' && IsLower(x)
  {
    var n := NormalizedAllowlist(allowed);
    if exists k :: 0 <= k < |allowed| && x == NormalizeExt(allowed[k]) {
      var k :| 0 <= k < |allowed| && x == NormalizeExt(allowed[k]);
      assert n[k] == x;
      NormalizeExtShape(allowed[k]);
    }
  }

  /** For one timestamp, one number of days and one `now`, exactly one of
      "within" and "not within" holds; and a file within `d1` days is within
      any longer window. */
  lemma WithinWindows(t: int, now: int, d1: real, d2: real)
    ensures InLastDays(t, now, d1) != BeforeLastDays(t, now, d1)
    ensures d1 <= d2 && InLastDays(t, now, d1) ==> InLastDays(t, now, d2)
  {
  }

  /** An `owned_by` value other than "current" and "root" switches no check
      on, so on its own it rejects every file; "root" on its own selects the
      files owned by user id 0. */
  lemma OwnedByAlone(v: string, f: Found, now: int, currentUid: int)
    ensures v != "current" && v != "root" ==> !Matches(EmptyConfig.(ownedBy := Some(v)), f, now, currentUid)
    ensures Matches(EmptyConfig.(ownedBy := Some("root")), f, now, currentUid) <==> f.stat.uid == 0
    ensures Matches(EmptyConfig.(ownedBy := Some("current")), f, now, currentUid) <==> f.stat.uid == currentUid
  {
    assert |"root"| != |"current"|;
    var root, current := EmptyConfig.(ownedBy := Some("root")), EmptyConfig.(ownedBy := Some("current"));
    assert ActiveConditions(root) == [OwnedByRoot];
    assert ActiveConditions(current) == [OwnedByCurrentUser];
    assert OwnedByRoot in ActiveConditions(root);
    assert OwnedByCurrentUser in ActiveConditions(current);
  }

  // Adding conditions

  predicate Keeps<T(==)>(small: Option<T>, big: Option<T>)
  {
    small.Some? ==> big == small
  }

  /** `big` sets every key `small` sets, to the same value, and combines the
      checks the same way; it may set more keys. */
  predicate Extends(big: Config, small: Config)
  {
    && Keeps(small.minSizeMb, big.minSizeMb) && Keeps(small.maxSizeMb, big.maxSizeMb)
    && Keeps(small.ext, big.ext)
    && Keeps(small.accessedWithin, big.accessedWithin) && Keeps(small.notAccessedWithin, big.notAccessedWithin)
    && Keeps(small.modifiedWithin, big.modifiedWithin) && Keeps(small.notModifiedWithin, big.notModifiedWithin)
    && Keeps(small.createdWithin, big.createdWithin) && Keeps(small.notCreatedWithin, big.notCreatedWithin)
    && (small.ownedBy == Some("current") || small.ownedBy == Some("root") ==> big.ownedBy == small.ownedBy)
    && LogicIsAll(big) == LogicIsAll(small)
  }

  /** Every check a configuration switches on is still switched on by a
      configuration that extends it. */
  lemma ExtendsKeepsConditions(big: Config, small: Config)
    requires Extends(big, small)
    ensures forall c :: c in ActiveConditions(small) ==> c in ActiveConditions(big)
  {
    assert MinSizePart(small) == [] || MinSizePart(small) == MinSizePart(big);
    assert MaxSizePart(small) == [] || MaxSizePart(small) == MaxSizePart(big);
    assert ExtPart(small) == [] || ExtPart(small) == ExtPart(big);
    assert OwnerPart(small) == [] || OwnerPart(small) == OwnerPart(big);
  }

  /** Under "all", once some check is on, switching more checks on never
      turns a rejected file into a match. */
  lemma AllMonotone(big: Config, small: Config, f: Found, now: int, currentUid: int)
    requires Extends(big, small) && LogicIsAll(small)
    requires ActiveConditions(small) != []
    ensures Matches(big, f, now, currentUid) ==> Matches(small, f, now, currentUid)
  {
    ExtendsKeepsConditions(big, small);
  }

  /** Under any other logic, switching more checks on never turns a match
      into a rejection. */
  lemma AnyMonotone(big: Config, small: Config, f: Found, now: int, currentUid: int)
    requires Extends(big, small) && !LogicIsAll(small)
    ensures Matches(small, f, now, currentUid) ==> Matches(big, f, now, currentUid)
  {
    ExtendsKeepsConditions(big, small);
  }

  /** Without its "some check is on" premise, monotonicity under "all" fails:
      the empty configuration rejects every file, while `min_size_mb: 0`
      alone, which extends it, accepts every file. */
  lemma EmptyConfigIsNotMonotone(f: Found, now: int, currentUid: int)
    ensures Extends(EmptyConfig.(minSizeMb := Some(0.0)), EmptyConfig)
    ensures !Matches(EmptyConfig, f, now, currentUid)
    ensures Matches(EmptyConfig.(minSizeMb := Some(0.0)), f, now, currentUid)
  {
    SizeMbCompare(f.stat.size, 0.0);
    assert ActiveConditions(EmptyConfig.(minSizeMb := Some(0.0))) == [MinSize(0.0)];
  }

  // The walk

  /** What `scan_files` yields for one listed name, if anything. The name is
      passed over when a directory on its way is excluded, when its
      extension is exactly one of the excluded ones, when it is a broken
      link, or when `stat` raises any OS error. */
  function FoundOf(root: string, e: Entry, opts: ScanOptions): Option<Found>
  {
    if Pruned(e.dirs, opts.excludeDirs) || Ext(e.name) in opts.excludeExtensions || e.brokenLink then None
    else match e.stat
      case Failure(_) => None
      case Success(st) => Some(Found(FullPath(root, e), st))
  }

  /** Everything `scan_files` yields for a walk, in walk order. */
  function ScannedFiles(root: string, entries: seq<Entry>, opts: ScanOptions): seq<Found>
  {
    if entries == [] then []
    else
      var prev := ScannedFiles(root, entries[..|entries| - 1], opts);
      match FoundOf(root, entries[|entries| - 1], opts)
      case None => prev
      case Some(x) => prev + [x]
  }

  /** `scan_files`, with the generator's output collected into a list. */
  method ScanFiles(root: string, entries: seq<Entry>, opts: ScanOptions) returns (found: seq<Found>)
    ensures found == ScannedFiles(root, entries, opts)
  {
    found := [];
    for i := 0 to |entries|
      invariant found == ScannedFiles(root, entries[..i], opts)
    {
      assert entries[..i + 1][..i] == entries[..i];
      var e := entries[i];
      if Pruned(e.dirs, opts.excludeDirs) {
        continue;
      }
      var ext := Ext(e.name);
      if ext in opts.excludeExtensions {
        continue;
      }
      var fullPath := FullPath(root, e);
      // Skip broken symbolic links
      if e.brokenLink {
        continue;
      }
      match e.stat {
        case Failure(_) =>
        case Success(st) =>
          found := found + [Found(fullPath, st)];
      }
    }
    assert entries[..|entries|] == entries;
  }

  /** A file is yielded exactly when some listed name is neither pruned,
      excluded by extension, a broken link nor unreadable, and the file is
      that name's full path with its `stat` result. */
  lemma {:induction false} ScannedFilesMembers(root: string, entries: seq<Entry>, opts: ScanOptions, x: Found)
    ensures x in ScannedFiles(root, entries, opts) <==>
      exists e :: e in entries
        && !Pruned(e.dirs, opts.excludeDirs) && Ext(e.name) !in opts.excludeExtensions && !e.brokenLink
        && e.stat == Success(x.stat) && x.path == FullPath(root, e)
  {
    if entries != [] {
      var init := entries[..|entries| - 1];
      ScannedFilesMembers(root, init, opts, x);
      assert entries == init + [entries[|entries| - 1]];
    }
  }

  /** With base names free of '/', no yielded path has an excluded extension
      and none is a broken link. */
  lemma NoExcludedFileYielded(root: string, entries: seq<Entry>, opts: ScanOptions, x: Found)
    requires forall e :: e in entries ==> '/' !in e.name
    requires x in ScannedFiles(root, entries, opts)
    ensures PathExt(x.path) !in opts.excludeExtensions
    ensures exists e :: e in entries && !e.brokenLink && x.path == FullPath(root, e)
  {
    ScannedFilesMembers(root, entries, opts, x);
    var e :| e in entries
        && !Pruned(e.dirs, opts.excludeDirs) && Ext(e.name) !in opts.excludeExtensions && !e.brokenLink
        && e.stat == Success(x.stat) && x.path == FullPath(root, e);
    PathExtOfFullPath(root, e);
  }

  /** The walk holds no state across names: scanning two parts of a walk
      one after the other yields what scanning the whole walk yields. */
  lemma {:induction false} ScannedFilesAppend(root: string, a: seq<Entry>, b: seq<Entry>, opts: ScanOptions)
    ensures ScannedFiles(root, a + b, opts) == ScannedFiles(root, a, opts) + ScannedFiles(root, b, opts)
    decreases |b|
  {
    if b == [] {
      assert a + b == a;
    } else {
      assert (a + b)[..|a + b| - 1] == a + b[..|b| - 1];
      ScannedFilesAppend(root, a, b[..|b| - 1], opts);
    }
  }

  // The report rows

  /** One row of the filter report. Timestamps stay epoch seconds, the size
      is not rounded, and the ownership columns are 0 or 1. */
  datatype MatchRow = MatchRow(
    path: string,
    extension: string,
    sizeMb: real,
    lastAccessed: int,
    lastModified: int,
    created: int,
    ownedByCurrentUser: int,
    ownedByRoot: int)

  /** The row `main` builds for a matching file: the extension is taken from
      the full path and is not lower-cased. */
  function MatchRowOf(x: Found, currentUid: int): MatchRow
  {
    MatchRow(
      x.path, PathExt(x.path), SizeMb(x.stat.size),
      x.stat.atime, x.stat.mtime, x.stat.ctime,
      if x.stat.uid == currentUid then 1 else 0,
      if x.stat.uid == 0 then 1 else 0)
  }

  /** The rows for the files that pass, in the order they were found. */
  function MatchRows(found: seq<Found>, cfg: Config, now: int, currentUid: int): seq<MatchRow>
  {
    if found == [] then []
    else
      var prev := MatchRows(found[..|found| - 1], cfg, now, currentUid);
      var x := found[|found| - 1];
      if Matches(cfg, x, now, currentUid) then prev + [MatchRowOf(x, currentUid)] else prev
  }

  /** The loop of `main`: one row per file that passes the conditions. */
  method SelectMatches(found: seq<Found>, cfg: Config, now: int, currentUid: int) returns (rows: seq<MatchRow>)
    ensures rows == MatchRows(found, cfg, now, currentUid)
  {
    rows := [];
    for i := 0 to |found|
      invariant rows == MatchRows(found[..i], cfg, now, currentUid)
    {
      assert found[..i + 1][..i] == found[..i];
      var ok := PassesConditions(found[i], cfg, now, currentUid);
      if ok {
        rows := rows + [MatchRowOf(found[i], currentUid)];
      }
    }
    assert found[..|found|] == found;
  }

  /** There are never more rows than files found. */
  lemma {:induction false} MatchRowsBounded(found: seq<Found>, cfg: Config, now: int, currentUid: int)
    ensures |MatchRows(found, cfg, now, currentUid)| <= |found|
  {
    if found != [] {
      MatchRowsBounded(found[..|found| - 1], cfg, now, currentUid);
    }
  }

  /** Every row is the row of a found file that matches. */
  lemma {:induction false} MatchRowsSound(found: seq<Found>, cfg: Config, now: int, currentUid: int, r: MatchRow)
    requires r in MatchRows(found, cfg, now, currentUid)
    ensures exists x :: x in found && Matches(cfg, x, now, currentUid) && r == MatchRowOf(x, currentUid)
  {
    var init, last := found[..|found| - 1], found[|found| - 1];
    if r in MatchRows(init, cfg, now, currentUid) {
      MatchRowsSound(init, cfg, now, currentUid, r);
      var x :| x in init && Matches(cfg, x, now, currentUid) && r == MatchRowOf(x, currentUid);
      assert x in found;
    } else {
      assert last in found && Matches(cfg, last, now, currentUid) && r == MatchRowOf(last, currentUid);
    }
  }

  /** An element of a non-empty sequence other than its last one is in the
      sequence without its last element. */
  lemma InInit<T>(s: seq<T>, x: T)
    requires x in s && x != s[|s| - 1]
    ensures x in s[..|s| - 1]
  {
    var k :| 0 <= k < |s| && s[k] == x;
    assert s[..|s| - 1][k] == x;
  }

  /** Every found file that matches has its row reported. */
  lemma {:induction false} MatchRowsComplete(found: seq<Found>, cfg: Config, now: int, currentUid: int, x: Found)
    requires x in found && Matches(cfg, x, now, currentUid)
    ensures MatchRowOf(x, currentUid) in MatchRows(found, cfg, now, currentUid)
  {
    var last := found[|found| - 1];
    if x != last {
      InInit(found, x);
      MatchRowsComplete(found[..|found| - 1], cfg, now, currentUid, x);
    }
  }

  /** A configuration that switches no check on reports no file at all,
      whatever the tree holds. */
  lemma {:induction false} NoActiveKeyReportsNothing(found: seq<Found>, cfg: Config, now: int, currentUid: int)
    requires NoActiveKey(cfg)
    ensures MatchRows(found, cfg, now, currentUid) == []
  {
    if found != [] {
      NoActiveKeyIffNoCondition(cfg);
      NoActiveKeyReportsNothing(found[..|found| - 1], cfg, now, currentUid);
    }
  }

  /** With `{"min_size_mb": 1, "logic": "all"}`, of a 2 MB file and a 0.5 MB
      file only the first is reported. */
  lemma MinSizeScenario(a: Found, b: Found, now: int, currentUid: int)
    requires a.stat.size == 2 * 1048576 && b.stat.size == 1048576 / 2
    ensures MatchRows([a, b], EmptyConfig.(minSizeMb := Some(1.0), logic := Some("all")), now, currentUid) == [MatchRowOf(a, currentUid)]
  {
    var cfg := EmptyConfig.(minSizeMb := Some(1.0), logic := Some("all"));
    assert ActiveConditions(cfg) == [MinSize(1.0)];
    SizeBoundsInclusive(a, 1.0, now, currentUid);
    SizeBoundsInclusive(b, 1.0, now, currentUid);
    assert Matches(cfg, a, now, currentUid);
    assert !Holds(MinSize(1.0), b, now, currentUid);
    assert !Matches(cfg, b, now, currentUid);
    assert [a, b][..1] == [a];
    assert MatchRows([a, b], cfg, now, currentUid) == MatchRows([a], cfg, now, currentUid);
    assert [a][..0] == [];
    assert MatchRows([a], cfg, now, currentUid) == [MatchRowOf(a, currentUid)];
  }

  /** `main` without its file I/O: refuse a missing scan path or one that is
      not a directory, then scan and keep the row of every matching file.
      `scanPath` is "" when `SCAN_PATH` is unset, and `isDir` is what
      `os.path.isdir` reports for it. */
  method FilterMain(scanPath: string, isDir: bool, entries: seq<Entry>, opts: ScanOptions, cfg: Config, now: int, currentUid: int)
    returns (r: Result<seq<MatchRow>, string>)
    ensures scanPath == [] ==> r == Failure("No scan path provided in .env (SCAN_PATH).")
    ensures scanPath != [] && !isDir ==> r == Failure("Path does not exist or is not a directory: " + scanPath)
    ensures scanPath != [] && isDir ==> r == Success(MatchRows(ScannedFiles(scanPath, entries, opts), cfg, now, currentUid))
  {
    if scanPath == [] {
      return Failure("No scan path provided in .env (SCAN_PATH).");
    }
    if !isDir {
      return Failure("Path does not exist or is not a directory: " + scanPath);
    }
    var found := ScanFiles(scanPath, entries, opts);
    var rows := SelectMatches(found, cfg, now, currentUid);
    return Success(rows);
  }
}
