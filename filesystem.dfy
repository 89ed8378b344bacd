/** An abstract filesystem and the recursive directory ensurer built on it.

    A path string is resolved into its segments with `Split`; the filesystem
    maps resolved paths to entries. The empty path is the working directory,
    which always exists and is a directory. Creating an entry whose parent is
    missing or is a file fails as POSIX does; `denied` holds the paths where
    the operating system refuses to create anything (for instance for lack of
    permission), which stands for every other failure of `mkdir` and
    `writeFile`. */
module FileSystems {
  import opened Values
  import opened Paths

  type Path = seq<string>

  /** What a file holds: the spec record that was serialised to JSON, or the
      base64 payload of a screenshot. The byte-level encoding is not modelled. */
  datatype Content = Json(record: Record) | Image(base64: string)

  datatype Entry = Dir | File(content: Content)

  type Entries = map<Path, Entry>

  /** The error codes of `fs.mkdir` and `fs.writeFile` the model can produce. */
  datatype Errno = EEXIST | ENOENT | ENOTDIR | EISDIR | EACCES

  datatype Outcome = Done | Failed(code: Errno)

  /** The state of the filesystem after an operation, and how it ended. */
  datatype Attempt = Attempt(entries: Entries, outcome: Outcome)

  function Parent(p: Path): Path
    requires p != []
  {
    p[..|p| - 1]
  }

  /** The working directory is a directory and every entry hangs off one. */
  ghost predicate WellFormed(e: Entries) {
    [] in e && e[[]] == Dir &&
    forall p :: p in e && p != [] ==> Parent(p) in e && e[Parent(p)] == Dir
  }

  predicate IsDir(e: Entries, p: Path) {
    p in e && e[p] == Dir
  }

  /** `fs.mkdir(p)` without the recursive option. */
  function MakeDir(e: Entries, denied: set<Path>, p: Path): (a: Attempt)
    ensures WellFormed(e) ==> WellFormed(a.entries)
    ensures a.outcome.Done? <==> p != [] && p !in e && IsDir(e, Parent(p)) && p !in denied
    ensures a.outcome.Done? ==> a.entries == e[p := Dir]
    ensures a.outcome.Failed? ==> a.entries == e
    ensures a.outcome == Failed(EEXIST) <==> p in e || p == []
  {
    if p == [] || p in e then Attempt(e, Failed(EEXIST))
    else if Parent(p) !in e then Attempt(e, Failed(ENOENT))
    else if e[Parent(p)] != Dir then Attempt(e, Failed(ENOTDIR))
    else if p in denied then Attempt(e, Failed(EACCES))
    else Attempt(e[p := Dir], Done)
  }

  /** `fs.stat(p)`, reduced to the entry found there. In a well-formed
      filesystem, whatever it finds below the root lies in a directory. */
  function StatEntry(e: Entries, p: Path): (found: Option<Entry>)
    ensures found.Some? <==> p in e
    ensures WellFormed(e) && found.Some? && p != [] ==> Parent(p) in e && e[Parent(p)] == Dir
  {
    if p in e then Some(e[p]) else None
  }

  /** `fs.writeFile(p, content)`: creates or overwrites a file. */
  function WriteTo(e: Entries, denied: set<Path>, p: Path, content: Content): (a: Attempt)
    ensures WellFormed(e) ==> WellFormed(a.entries)
    ensures a.outcome.Done? <==> p != [] && !IsDir(e, p) && IsDir(e, Parent(p)) && p !in denied
    ensures a.outcome.Done? ==> a.entries == e[p := File(content)]
    ensures a.outcome.Failed? ==> a.entries == e
  {
    if p == [] || IsDir(e, p) then Attempt(e, Failed(EISDIR))
    else if Parent(p) !in e then Attempt(e, Failed(ENOENT))
    else if e[Parent(p)] != Dir then Attempt(e, Failed(ENOTDIR))
    else if p in denied then Attempt(e, Failed(EACCES))
    else Attempt(e[p := File(content)], Done)
  }

  /** One turn of the ensurer's loop on the prefix `p`: create it; on EEXIST
      look at what is there and carry on only if it is a directory. */
  function EnsureStep(e: Entries, denied: set<Path>, p: Path): (a: Attempt)
    ensures WellFormed(e) ==> WellFormed(a.entries)
  {
    var made := MakeDir(e, denied, p);
    if made.outcome == Failed(EEXIST) then
      (if StatEntry(e, p) == Some(Dir) then Attempt(e, Done) else made)
    else made
  }

  /** The ensurer's loop from prefix length `i` on: prefixes `segs[..i]`,
      `segs[..i+1]`, ..., `segs` in turn, stopping at the first failure. */
  function EnsureFrom(e: Entries, denied: set<Path>, segs: Path, i: nat): (a: Attempt)
    requires i >= 1
    ensures WellFormed(e) ==> WellFormed(a.entries)
    decreases |segs| + 1 - i
  {
    if i > |segs| then Attempt(e, Done)
    else
      var step := EnsureStep(e, denied, segs[..i]);
      if step.outcome.Failed? then step
      else EnsureFrom(step.entries, denied, segs, i + 1)
  }

  /** A prefix the ensurer can pass: a directory already, or absent and
      creatable. */
  predicate Passable(e: Entries, denied: set<Path>, p: Path) {
    IsDir(e, p) || (p !in e && p !in denied)
  }

  /** The ensurer succeeds exactly when every prefix from `i` on is passable
      in the filesystem it starts from. */
  lemma {:induction false} EnsureFromSucceedsIff(e: Entries, denied: set<Path>, segs: Path, i: nat)
    requires WellFormed(e)
    requires 1 <= i <= |segs| + 1
    requires IsDir(e, segs[..i - 1])
    ensures EnsureFrom(e, denied, segs, i).outcome.Done? <==>
            forall k :: i <= k <= |segs| ==> Passable(e, denied, segs[..k])
    decreases |segs| + 1 - i
  {
    if i <= |segs| {
      var p := segs[..i];
      assert Parent(p) == segs[..i - 1];
      var step := EnsureStep(e, denied, p);
      if Passable(e, denied, p) {
        assert step.outcome.Done? && IsDir(step.entries, p);
        assert WellFormed(step.entries);
        forall k | i < k <= |segs|
          ensures Passable(step.entries, denied, segs[..k]) == Passable(e, denied, segs[..k])
        {
          assert |segs[..k]| != |p|;
        }
        EnsureFromSucceedsIff(step.entries, denied, segs, i + 1);
      } else {
        assert step.outcome.Failed?;
      }
    }
  }

  /** Once the ensurer has succeeded from `i` on, every prefix from there is
      a directory and everything that was there before is untouched. */
  lemma {:induction false} EnsureFromResult(e: Entries, denied: set<Path>, segs: Path, i: nat)
    requires WellFormed(e)
    requires 1 <= i <= |segs| + 1
    requires IsDir(e, segs[..i - 1])
    requires EnsureFrom(e, denied, segs, i).outcome.Done?
    ensures var r := EnsureFrom(e, denied, segs, i).entries;
      WellFormed(r) &&
      (forall k :: i <= k <= |segs| ==> IsDir(r, segs[..k])) &&
      (forall p :: p in e ==> p in r && r[p] == e[p])
    decreases |segs| + 1 - i
  {
    if i <= |segs| {
      var p := segs[..i];
      assert Parent(p) == segs[..i - 1];
      var step := EnsureStep(e, denied, p);
      assert step.outcome.Done?;
      assert WellFormed(step.entries) && IsDir(step.entries, p);
      EnsureFromResult(step.entries, denied, segs, i + 1);
    }
  }

  /** Whatever its outcome, the ensurer leaves every existing entry as it
      was: a failed run keeps the directories it created before the failing
      prefix and removes or overwrites nothing. */
  lemma {:induction false} EnsureFromKeeps(e: Entries, denied: set<Path>, segs: Path, i: nat)
    requires 1 <= i
    ensures var r := EnsureFrom(e, denied, segs, i).entries;
      forall p :: p in e ==> p in r && r[p] == e[p]
    decreases |segs| + 1 - i
  {
    if i <= |segs| {
      var step := EnsureStep(e, denied, segs[..i]);
      assert forall p :: p in e ==> p in step.entries && step.entries[p] == e[p];
      if step.outcome.Done? {
        EnsureFromKeeps(step.entries, denied, segs, i + 1);
      }
    }
  }

  /** The only entries the ensurer adds are prefixes of the path. */
  lemma {:induction false} EnsureFromAddsPrefixes(e: Entries, denied: set<Path>, segs: Path, i: nat)
    requires 1 <= i <= |segs| + 1
    ensures var r := EnsureFrom(e, denied, segs, i).entries;
      forall p :: p in r && p !in e ==> exists k :: i <= k <= |segs| && p == segs[..k]
    decreases |segs| + 1 - i
  {
    if i <= |segs| {
      var p := segs[..i];
      var step := EnsureStep(e, denied, p);
      if step.outcome.Done? {
        assert forall q :: q in step.entries && q !in e ==> q == p;
        EnsureFromAddsPrefixes(step.entries, denied, segs, i + 1);
        var r := EnsureFrom(step.entries, denied, segs, i + 1).entries;
        forall q | q in r && q !in e
          ensures exists k :: i <= k <= |segs| && q == segs[..k]
        {
          if q == p {
            assert i <= i <= |segs| && q == segs[..i];
          } else {
            assert q !in step.entries;
            var k :| i + 1 <= k <= |segs| && q == segs[..k];
            assert i <= k <= |segs| && q == segs[..k];
          }
        }
      } else {
        assert forall q :: q in step.entries ==> q in e;
      }
    }
  }

  /** When every prefix from `i` on is a directory already, the ensurer
      succeeds and changes nothing. */
  lemma {:induction false} EnsureFromAllDirs(e: Entries, denied: set<Path>, segs: Path, i: nat)
    requires 1 <= i
    requires forall k :: i <= k <= |segs| ==> IsDir(e, segs[..k])
    ensures EnsureFrom(e, denied, segs, i) == Attempt(e, Done)
    decreases |segs| + 1 - i
  {
    if i <= |segs| {
      assert IsDir(e, segs[..i]);
      EnsureFromAllDirs(e, denied, segs, i + 1);
    }
  }

  /** The ensurer run on a whole path succeeds exactly when every prefix is
      either a directory already or absent and creatable; it fails as soon as
      one of them is a file or cannot be created. */
  lemma EnsureSucceedsIff(e: Entries, denied: set<Path>, segs: Path)
    requires WellFormed(e)
    ensures EnsureFrom(e, denied, segs, 1).outcome.Done? <==>
            forall k :: 1 <= k <= |segs| ==> Passable(e, denied, segs[..k])
  {
    assert segs[..0] == [];
    EnsureFromSucceedsIff(e, denied, segs, 1);
  }

  /** After a successful run every prefix of the path is a directory, the
      only new entries are those prefixes, and nothing that existed before
      has changed. */
  lemma EnsureCreatesPrefixes(e: Entries, denied: set<Path>, segs: Path)
    requires WellFormed(e)
    requires EnsureFrom(e, denied, segs, 1).outcome.Done?
    ensures var r := EnsureFrom(e, denied, segs, 1).entries;
      WellFormed(r) &&
      (forall k :: 1 <= k <= |segs| ==> IsDir(r, segs[..k])) &&
      (forall p :: p in e ==> p in r && r[p] == e[p]) &&
      (forall p :: p in r && p !in e ==> exists k :: 1 <= k <= |segs| && p == segs[..k])
  {
    assert segs[..0] == [];
    EnsureFromResult(e, denied, segs, 1);
    EnsureFromAddsPrefixes(e, denied, segs, 1);
  }

  /** Ensuring a path twice: the second run succeeds and leaves the
      filesystem as the first run left it. */
  lemma EnsureIdempotent(e: Entries, denied: set<Path>, segs: Path)
    requires WellFormed(e)
    requires EnsureFrom(e, denied, segs, 1).outcome.Done?
    ensures var r := EnsureFrom(e, denied, segs, 1).entries;
      EnsureFrom(r, denied, segs, 1) == Attempt(r, Done)
  {
    EnsureCreatesPrefixes(e, denied, segs);
    EnsureFromAllDirs(EnsureFrom(e, denied, segs, 1).entries, denied, segs, 1);
  }

  /** The ensurer fails as soon as some prefix already exists as a file. */
  lemma EnsureFailsOnFile(e: Entries, denied: set<Path>, segs: Path, k: nat)
    requires WellFormed(e)
    requires 1 <= k <= |segs|
    requires segs[..k] in e && e[segs[..k]].File?
    ensures EnsureFrom(e, denied, segs, 1).outcome.Failed?
  {
    EnsureSucceedsIff(e, denied, segs);
    assert !Passable(e, denied, segs[..k]);
  }

  /** The filesystem, the one piece of external state the reporter changes. */
  class FileSystem {
    var entries: Entries
    const denied: set<Path>

    ghost predicate Valid()
      reads this
    {
      WellFormed(entries)
    }

    constructor (initial: Entries, denied: set<Path>)
      requires WellFormed(initial)
      ensures Valid()
      ensures entries == initial && this.denied == denied
    {
      entries := initial;
      this.denied := denied;
    }

    /** `fs.mkdir(path)`. */
    method Mkdir(path: string) returns (outcome: Outcome)
      requires Valid()
      modifies this
      ensures Valid()
      ensures Attempt(entries, outcome) == MakeDir(old(entries), denied, Split(path))
    {
      var a := MakeDir(entries, denied, Split(path));
      entries, outcome := a.entries, a.outcome;
    }

    /** `fs.stat(path)`: what is there, if anything. */
    method Stat(path: string) returns (found: Option<Entry>)
      ensures found.Some? <==> Split(path) in entries
      ensures found.Some? ==> found.value == entries[Split(path)]
    {
      found := StatEntry(entries, Split(path));
    }

    /** `fs.writeFile(path, content)`. */
    method WriteFile(path: string, content: Content) returns (outcome: Outcome)
      requires Valid()
      modifies this
      ensures Valid()
      ensures Attempt(entries, outcome) == WriteTo(old(entries), denied, Split(path), content)
    {
      var a := WriteTo(entries, denied, Split(path), content);
      entries, outcome := a.entries, a.outcome;
    }
  }

  /** The recursive directory ensurer: split the path into segments and
      create each prefix in turn, tolerating a prefix that already exists as
      a directory. */
  method EnsureDirectory(fs: FileSystem, path: string) returns (outcome: Outcome)
    requires fs.Valid()
    modifies fs
    ensures fs.Valid()
    ensures Attempt(fs.entries, outcome) == EnsureFrom(old(fs.entries), fs.denied, Split(path), 1)
  {
    var segments := Split(path);
    var i := 1;
    while i <= |segments|
      invariant 1 <= i <= |segments| + 1
      invariant fs.Valid()
      invariant EnsureFrom(fs.entries, fs.denied, segments, i) == EnsureFrom(old(fs.entries), fs.denied, segments, 1)
    {
      var prefix := segments[..i];
      var newPath := Join(prefix);
      SplitJoin(prefix);
      ghost var before := fs.entries;
      var made := fs.Mkdir(newPath);
      if made.Failed? {
        if made.code == EEXIST {
          var stats := fs.Stat(newPath);
          if stats != Some(Dir) {
            return made;
          }
        } else {
          return made;
        }
      }
      assert EnsureStep(before, fs.denied, prefix) == Attempt(fs.entries, Done);
      i := i + 1;
    }
    outcome := Done;
  }
}
