/** Creating a file under a name nobody uses yet: the bare name, then " (1)", " (2)", … up to a
    bound. An allocator remembers where the last search for a name ended. */
module UniqueFiles {
  import opened Base

  const MAX_UNIQUE_PATH_ATTEMPTS: int := 10000

  datatype Key = Key(dir: string, filename: string)

  datatype Outcome = Created(path: Path, suffix: nat) | OsError | Exhausted

  /** How names become paths (suffix 0 is the bare name), and the existing files. */
  type Naming = (Key, nat) -> Path

  datatype Probe = Opened | Exists | Failed

  /** O_CREATE|O_EXCL on one path; `fails` says where the operating system refuses. */
  function Open(disk: set<Path>, fails: Path -> bool, path: Path): Probe {
    if fails(path) then Failed else if path in disk then Exists else Opened
  }

  /** The search from one suffix upwards. */
  function Scan(nm: Naming, disk: set<Path>, fails: Path -> bool, key: Key, from: nat): Outcome
    decreases MAX_UNIQUE_PATH_ATTEMPTS + 1 - from
  {
    if from > MAX_UNIQUE_PATH_ATTEMPTS then Exhausted
    else match Open(disk, fails, nm(key, from))
      case Opened => Created(nm(key, from), from)
      case Failed => OsError
      case Exists => Scan(nm, disk, fails, key, from + 1)
  }

  /** The suffixes that search tries. */
  function Probes(nm: Naming, disk: set<Path>, fails: Path -> bool, key: Key, from: nat): seq<nat>
    decreases MAX_UNIQUE_PATH_ATTEMPTS + 1 - from
  {
    if from > MAX_UNIQUE_PATH_ATTEMPTS then []
    else if Open(disk, fails, nm(key, from)) != Exists then [from]
    else [from] + Probes(nm, disk, fails, key, from + 1)
  }

  ghost predicate Taken(nm: Naming, disk: set<Path>, fails: Path -> bool, key: Key, from: nat, top: nat) {
    forall i: nat | from <= i < top :: Open(disk, fails, nm(key, i)) == Exists
  }

  /** The search finds the first suffix whose path is not taken, if the bound allows. */
  lemma {:induction false} ScanFindsFirst(nm: Naming, disk: set<Path>, fails: Path -> bool, key: Key, from: nat, i: nat)
    requires from <= i && Taken(nm, disk, fails, key, from, i)
    ensures i > MAX_UNIQUE_PATH_ATTEMPTS ==> Scan(nm, disk, fails, key, from) == Exhausted
    ensures i <= MAX_UNIQUE_PATH_ATTEMPTS && Open(disk, fails, nm(key, i)) == Opened ==>
              Scan(nm, disk, fails, key, from) == Created(nm(key, i), i)
    ensures i <= MAX_UNIQUE_PATH_ATTEMPTS && Open(disk, fails, nm(key, i)) == Failed ==>
              Scan(nm, disk, fails, key, from) == OsError
    decreases i - from
  {
    if from < i && from <= MAX_UNIQUE_PATH_ATTEMPTS {
      ScanFindsFirst(nm, disk, fails, key, from + 1, i);
    }
  }

  lemma {:induction false} ScanSkipsTaken(nm: Naming, disk: set<Path>, fails: Path -> bool, key: Key, from: nat,
                                          top: nat)
    requires from <= top <= MAX_UNIQUE_PATH_ATTEMPTS + 1 && Taken(nm, disk, fails, key, from, top)
    ensures Scan(nm, disk, fails, key, from) == Scan(nm, disk, fails, key, top)
    decreases MAX_UNIQUE_PATH_ATTEMPTS + 1 - from
  {
    if from < top {
      ScanSkipsTaken(nm, disk, fails, key, from + 1, top);
    }
  }

  lemma {:induction false} ScanResult(nm: Naming, disk: set<Path>, fails: Path -> bool, key: Key, from: nat)
    ensures var o := Scan(nm, disk, fails, key, from);
            o.Created? ==>
                  && from <= o.suffix <= MAX_UNIQUE_PATH_ATTEMPTS && o.path == nm(key, o.suffix) && o.path !in disk
                           && Taken(nm, disk, fails, key, from, o.suffix)
    decreases MAX_UNIQUE_PATH_ATTEMPTS + 1 - from
  {
    if from <= MAX_UNIQUE_PATH_ATTEMPTS && Open(disk, fails, nm(key, from)) == Exists {
      ScanResult(nm, disk, fails, key, from + 1);
    }
  }

  /** Where the operating system never refuses, searching from a hint is searching from the
      bare name if and only if every name below the hint is taken. */
  lemma HintAgreesIff(nm: Naming, disk: set<Path>, key: Key, hint: nat)
    requires hint <= MAX_UNIQUE_PATH_ATTEMPTS + 1
    ensures var never := (p: Path) => false;
            Scan(nm, disk, never, key, 0) == Scan(nm, disk, never, key, hint) <==>
                  forall i: nat | i < hint :: nm(key, i) in disk
  {
    var never := (p: Path) => false;
    if forall i: nat | i < hint :: nm(key, i) in disk {
      ScanSkipsTaken(nm, disk, never, key, 0, hint);
    } else {
      var b := FirstFree(nm, disk, key, hint);
      ScanFindsFirst(nm, disk, never, key, 0, b);
      ScanResult(nm, disk, never, key, hint);
    }
  }

  lemma FirstFree(nm: Naming, disk: set<Path>, key: Key, top: nat) returns (b: nat)
    requires exists i: nat :: i < top && nm(key, i) !in disk
    ensures b < top && nm(key, b) !in disk && forall i: nat | i < b :: nm(key, i) in disk
  {
    b := 0;
    while nm(key, b) in disk
      invariant b < top && (forall i: nat | i < b :: nm(key, i) in disk)
      decreases top - b
    {
      var w: nat :| w < top && nm(key, w) !in disk;
      assert b < w;
      b := b + 1;
    }
  }

  // ---------------------------------------------------------------- histories

  datatype World = World(disk: set<Path>, next: map<Key, nat>)

  datatype Op =
    | Create(key: Key, fails: Path -> bool)
    | Appear(path: Path)
    | Remove(path: Path)
    | Reset

  function Hint(next: map<Key, nat>, key: Key): nat {
    if key in next then next[key] else 0
  }

  function Allocate(nm: Naming, w: World, key: Key, fails: Path -> bool): (World, Outcome) {
    var o := Scan(nm, w.disk, fails, key, Hint(w.next, key));
    if o.Created? then (World(w.disk + {o.path}, w.next[key := o.suffix + 1]), o) else (w, o)
  }

  function Step(nm: Naming, w: World, op: Op): World {
    match op
    case Create(key, fails) => Allocate(nm, w, key, fails).0
    case Appear(path) => w.(disk := w.disk + {path})
    case Remove(path) => w.(disk := w.disk - {path})
    case Reset => w.(next := map[])
  }

  function Run(nm: Naming, w: World, ops: seq<Op>): World
    decreases |ops|
  {
    if ops == [] then w else Run(nm, Step(nm, w, ops[0]), ops[1..])
  }

  /** Every hint lies above taken names only. */
  ghost predicate HintsSound(nm: Naming, w: World) {
    forall key | key in w.next ::
      w.next[key] <= MAX_UNIQUE_PATH_ATTEMPTS + 1 && forall i: nat | i < w.next[key] :: nm(key, i) in w.disk
  }

  lemma StepKeepsHints(nm: Naming, w: World, op: Op)
    requires HintsSound(nm, w) && !op.Remove?
    ensures HintsSound(nm, Step(nm, w, op)) && (op.Create? ==> w.disk <= Step(nm, w, op).disk)
  {
    if op.Create? {
      ScanResult(nm, w.disk, op.fails, op.key, Hint(w.next, op.key));
    }
  }

  lemma {:induction false} RunKeepsHints(nm: Naming, w: World, ops: seq<Op>)
    requires HintsSound(nm, w) && forall op | op in ops :: !op.Remove?
    ensures HintsSound(nm, Run(nm, w, ops))
    decreases |ops|
  {
    if ops != [] {
      assert ops[0] in ops;
      StepKeepsHints(nm, w, ops[0]);
      RunKeepsHints(nm, Step(nm, w, ops[0]), ops[1..]);
    }
  }

  /** An existing file is reported as existing. */
  ghost predicate ReportsExisting(disk: set<Path>, fails: Path -> bool) {
    forall p | p in disk :: !fails(p)
  }

  /** After any history without deletions, whatever else created files in between, a hinted
      Create finds the very path a search from the bare name would find, or fails as it would. */
  lemma HintedCreateIsScan(nm: Naming, disk: set<Path>, ops: seq<Op>, key: Key, fails: Path -> bool)
    requires forall op | op in ops :: !op.Remove?
    requires ReportsExisting(Run(nm, World(disk, map[]), ops).disk, fails)
    ensures var w := Run(nm, World(disk, map[]), ops);
            Allocate(nm, w, key, fails).1 == Scan(nm, w.disk, fails, key, 0)
  {
    RunKeepsHints(nm, World(disk, map[]), ops);
    var w := Run(nm, World(disk, map[]), ops);
    ScanSkipsTaken(nm, w.disk, fails, key, 0, Hint(w.next, key));
  }

  // ------------------------------------------------------------------- probes

  /** The suffixes of one name that a history tries, in order. */
  function ProbeLog(nm: Naming, w: World, ops: seq<Op>, key: Key): seq<nat>
    decreases |ops|
  {
    if ops == [] then []
    else
      var later := ProbeLog(nm, Step(nm, w, ops[0]), ops[1..], key);
      if ops[0].Create? && ops[0].key == key then Probes(nm, w.disk, ops[0].fails, key, Hint(w.next, key)) + later
      else later
  }

  predicate Creates(ops: seq<Op>, key: Key) {
    exists i :: 0 <= i < |ops| && ops[i].Create? && ops[i].key == key
  }

  /** A Create that failed after trying some suffix is the last one for its name. */
  ghost predicate StopsAfterFailure(nm: Naming, w: World, ops: seq<Op>, key: Key)
    decreases |ops|
  {
    ops == [] ||
    (&& (ops[0].Create? && ops[0].key == key && Creates(ops[1..], key) ==>
           Allocate(nm, w, key, ops[0].fails).1.Created? || Hint(w.next, key) > MAX_UNIQUE_PATH_ATTEMPTS)
     && StopsAfterFailure(nm, Step(nm, w, ops[0]), ops[1..], key))
  }

  ghost predicate Distinct(s: seq<nat>) {
    forall i, j | 0 <= i < j < |s| :: s[i] != s[j]
  }

  lemma DistinctConcat(a: seq<nat>, b: seq<nat>)
    ensures Distinct(a + b) <==> Distinct(a) && Distinct(b) && forall x | x in a :: x !in b
  {
    var s := a + b;
    if Distinct(s) {
      forall i, j | 0 <= i < j < |a| ensures a[i] != a[j] { assert s[i] != s[j]; }
      forall i, j | 0 <= i < j < |b| ensures b[i] != b[j] { assert s[|a| + i] != s[|a| + j]; }
      forall i, j | 0 <= i < |a| && 0 <= j < |b| ensures a[i] != b[j] { assert s[i] != s[|a| + j]; }
    }
    if Distinct(a) && Distinct(b) && (forall x | x in a :: x !in b) {
      forall i, j | 0 <= i < j < |s| ensures s[i] != s[j] {
        if i < |a| <= j {
          assert s[i] == a[i] && s[j] == b[j - |a|] && s[i] in a && s[j] in b;
        } else if |a| <= i {
          assert s[i] == b[i - |a|] && s[j] == b[j - |a|];
        }
      }
    }
  }

  lemma {:induction false} ProbesClimb(nm: Naming, disk: set<Path>, fails: Path -> bool, key: Key, from: nat)
    ensures var ps := Probes(nm, disk, fails, key, from);
            && Distinct(ps) && (forall x | x in ps :: from <= x)
            && (from <= MAX_UNIQUE_PATH_ATTEMPTS <==> ps != []) && (ps != [] ==> ps[0] == from)
            && (var o := Scan(nm, disk, fails, key, from); o.Created? ==> forall x | x in ps :: x <= o.suffix)
    decreases MAX_UNIQUE_PATH_ATTEMPTS + 1 - from
  {
    if from <= MAX_UNIQUE_PATH_ATTEMPTS && Open(disk, fails, nm(key, from)) == Exists {
      ProbesClimb(nm, disk, fails, key, from + 1);
      DistinctConcat([from], Probes(nm, disk, fails, key, from + 1));
      ScanResult(nm, disk, fails, key, from + 1);
    }
  }

  lemma {:induction false} LogStartsAtHint(nm: Naming, w: World, ops: seq<Op>, key: Key)
    requires forall i | 0 <= i < |ops| :: !ops[i].Reset?
    ensures forall x | x in ProbeLog(nm, w, ops, key) :: Hint(w.next, key) <= x
    ensures !Creates(ops, key) ==> ProbeLog(nm, w, ops, key) == [] && StopsAfterFailure(nm, w, ops, key)
    ensures Creates(ops, key) && Hint(w.next, key) <= MAX_UNIQUE_PATH_ATTEMPTS ==>
              Hint(w.next, key) in ProbeLog(nm, w, ops, key)
    decreases |ops|
  {
    if ops != [] {
      LogStartsAtHint(nm, Step(nm, w, ops[0]), ops[1..], key);
      CreatesSplit(ops, key);
      if ops[0].Create? {
        ProbesClimb(nm, w.disk, ops[0].fails, ops[0].key, Hint(w.next, ops[0].key));
        ScanResult(nm, w.disk, ops[0].fails, ops[0].key, Hint(w.next, ops[0].key));
      }
    }
  }

  lemma CreatesSplit(ops: seq<Op>, key: Key)
    requires ops != []
    ensures Creates(ops, key) <==> (ops[0].Create? && ops[0].key == key) || Creates(ops[1..], key)
  {
    if Creates(ops[1..], key) {
      var i :| 0 <= i < |ops| - 1 && ops[1..][i].Create? && ops[1..][i].key == key;
      assert ops[i + 1].Create?;
    }
    if Creates(ops, key) && !(ops[0].Create? && ops[0].key == key) {
      var i :| 0 <= i < |ops| && ops[i].Create? && ops[i].key == key;
      assert ops[1..][i - 1].Create?;
    }
  }

  /** Over any history without a reset, no suffix of a name is tried twice if and only if no
      Create of that name follows one that failed after trying something: a failed search
      leaves the hint where it was, so the next one tries the same suffixes again. */
  lemma {:induction false} NoSuffixTwiceIff(nm: Naming, w: World, ops: seq<Op>, key: Key)
    requires forall i | 0 <= i < |ops| :: !ops[i].Reset?
    ensures Distinct(ProbeLog(nm, w, ops, key)) <==> StopsAfterFailure(nm, w, ops, key)
    decreases |ops|
  {
    if ops != [] {
      var w1, rest, h := Step(nm, w, ops[0]), ops[1..], Hint(w.next, key);
      NoSuffixTwiceIff(nm, w1, rest, key);
      if ops[0].Create? && ops[0].key == key {
        var ps, later := Probes(nm, w.disk, ops[0].fails, key, h), ProbeLog(nm, w1, rest, key);
        ProbesClimb(nm, w.disk, ops[0].fails, key, h);
        LogStartsAtHint(nm, w1, rest, key);
        DistinctConcat(ps, later);
        if h <= MAX_UNIQUE_PATH_ATTEMPTS {
          assert ps[0] in ps;
        }
      }
    }
  }

  /** The failure case exists: with every name up to the bound taken, each call tries them
      all again. */
  lemma FullDirectoryIsSearchedAgain(nm: Naming, w: World, key: Key, fails: Path -> bool)
    requires key !in w.next && Taken(nm, w.disk, fails, key, 0, MAX_UNIQUE_PATH_ATTEMPTS + 1)
    ensures !Distinct(ProbeLog(nm, w, [Create(key, fails), Create(key, fails)], key))
  {
    var ops := [Create(key, fails), Create(key, fails)];
    ScanFindsFirst(nm, w.disk, fails, key, 0, MAX_UNIQUE_PATH_ATTEMPTS + 1);
    assert Creates(ops[1..], key) by { assert ops[1..][0].Create?; }
    NoSuffixTwiceIff(nm, w, ops, key);
  }

  // ------------------------------------------------------------- the allocator

  class FileSystem {
    var files: set<Path>

    constructor (files: set<Path>)
      ensures this.files == files
    {
      this.files := files;
    }

    /** O_CREATE|O_EXCL */
    method OpenExclusive(path: Path, fails: Path -> bool) returns (p: Probe)
      modifies this
      ensures p == Open(old(files), fails, path)
      ensures files == if p.Opened? then old(files) + {path} else old(files)
    {
      if fails(path) {
        return Failed;
      }
      if path in files {
        return Exists;
      }
      files := files + {path};
      return Opened;
    }
  }

  lemma ProbesUnfold(nm: Naming, disk: set<Path>, fails: Path -> bool, key: Key, i: nat, tried: seq<nat>)
    requires i <= MAX_UNIQUE_PATH_ATTEMPTS
    ensures tried + Probes(nm, disk, fails, key, i) ==
              if Open(disk, fails, nm(key, i)).Exists? then tried + [i] + Probes(nm, disk, fails, key, i + 1)
              else tried + [i]
  {}

  /** createUniqueFileFrom: `probes` are the suffixes it tried. */
  method CreateUniqueFileFrom(fs: FileSystem, nm: Naming, key: Key, fails: Path -> bool, startSuffix: int)
    returns (o: Outcome, probes: seq<nat>)
    modifies fs
    ensures var from := if startSuffix <= 0 then 0 else startSuffix;
            && o == Scan(nm, old(fs.files), fails, key, from)
            && probes == Probes(nm, old(fs.files), fails, key, from)
    ensures fs.files == if o.Created? then old(fs.files) + {o.path} else old(fs.files)
  {
    var start := startSuffix;
    ghost var disk := fs.files;
    ghost var from: nat := if startSuffix <= 0 then 0 else startSuffix;
    ghost var all, goal := Probes(nm, disk, fails, key, from), Scan(nm, disk, fails, key, from);
    probes := [];
    if start <= 0 {
      probes := [0];
      var p := fs.OpenExclusive(nm(key, 0), fails);
      if p.Opened? {
        return Created(nm(key, 0), 0), probes;
      }
      if !p.Exists? {
        return OsError, probes;
      }
      start := 1;
    }
    var i: nat := start;
    while i <= MAX_UNIQUE_PATH_ATTEMPTS
      invariant fs.files == disk && goal == Scan(nm, disk, fails, key, i)
      invariant all == probes + Probes(nm, disk, fails, key, i)
      decreases MAX_UNIQUE_PATH_ATTEMPTS + 1 - i
    {
      ProbesUnfold(nm, disk, fails, key, i, probes);
      probes := probes + [i];
      var p := fs.OpenExclusive(nm(key, i), fails);
      if p.Opened? {
        return Created(nm(key, i), i), probes;
      }
      if !p.Exists? {
        return OsError, probes;
      }
      i := i + 1;
    }
    o := Exhausted;
  }

  /** CreateUniqueFile: always from the bare name. */
  method CreateUniqueFile(fs: FileSystem, nm: Naming, key: Key, fails: Path -> bool) returns (o: Outcome)
    modifies fs
    ensures o == Scan(nm, old(fs.files), fails, key, 0)
    ensures fs.files == if o.Created? then old(fs.files) + {o.path} else old(fs.files)
  {
    var probes;
    o, probes := CreateUniqueFileFrom(fs, nm, key, fails, 0);
  }

  class UniqueFileAllocator {
    var next: map<Key, nat>

    constructor ()
      ensures next == map[]
    {
      next := map[];
    }

    method ResetHints()
      modifies this
      ensures next == map[]
    {
      next := map[];
    }

    /** UniqueFileAllocator.Create, one call at a time. */
    method Create(fs: FileSystem, nm: Naming, key: Key, fails: Path -> bool) returns (o: Outcome, probes: seq<nat>)
      requires HintsSound(nm, World(fs.files, next))
      modifies this, fs
      ensures (World(fs.files, next), o) == Allocate(nm, old(World(fs.files, next)), key, fails)
      ensures probes == Probes(nm, old(fs.files), fails, key, Hint(old(next), key))
      ensures HintsSound(nm, World(fs.files, next))
      ensures ReportsExisting(old(fs.files), fails) ==> o == Scan(nm, old(fs.files), fails, key, 0)
    {
      ghost var w := World(fs.files, next);
      var start := if key in next then next[key] else 0;
      o, probes := CreateUniqueFileFrom(fs, nm, key, fails, start);
      ScanResult(nm, w.disk, fails, key, start);
      StepKeepsHints(nm, w, Op.Create(key, fails));
      if ReportsExisting(w.disk, fails) {
        ScanSkipsTaken(nm, w.disk, fails, key, 0, start);
      }
      if !o.Created? {
        return;
      }
      var following := if o.suffix == 0 then 1 else o.suffix + 1;
      var current := if key in next then next[key] else 0;
      if following > current {
        next := next[key := following];
      }
    }
  }
}
