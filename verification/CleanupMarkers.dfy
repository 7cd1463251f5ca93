/**
 Cleanup delete markers: paths the shell itself is about to remove, kept in memory and mirrored
 to a file, so that the delete notifications these removals cause are not sent to the provider.
*/
module CleanupMarkers {
  import opened Paths
  import opened Wrappers
  import opened Markers

  const CLEANUP_TTL_MS: int := 30_000

  /** The markers in memory and the entries of the mirror file, empty when there is no file. */
  datatype Mirror = Mirror(memory: map<Path, int>, file: map<Path, int>)

  const EMPTY := Mirror(map[], map[])

  function Live(m: map<Path, int>, now: int): map<Path, int> {
    Unexpired(m, now, CLEANUP_TTL_MS)
  }

  function AfterPrune(s: Mirror, now: int): Mirror {
    s.(memory := Live(s.memory, now))
  }

  function AfterMarkCleanup(s: Mirror, p: Path, now: int): Mirror {
    if !Markable(p) then s
    else var memory := Live(s.memory, now)[p := now]; Mirror(memory, memory)
  }

  function AfterClearCleanup(s: Mirror, p: Path): Mirror {
    if p == [] then s else AfterClearAll(s, {p})
  }

  /** Clearing pending mutations takes the cleanup markers of the same paths along. */
  function AfterClearAll(s: Mirror, cleared: set<Path>): Mirror {
    Mirror(s.memory - cleared, s.memory - cleared)
  }

  predicate MarkedAtOrUnder(m: map<Path, int>, p: Path) {
    exists d :: d in m && Covers(p, d)
  }

  /** Consuming removes a matching marker only when it was not read from the file. */
  function AfterConsume(s: Mirror, p: Path, now: int): (Mirror, bool) {
    if p == [] then (s, false)
    else
      var memory := Live(s.memory + s.file, now);
      var used := set d | d in memory && Covers(p, d) && d !in s.file;
      (if used == {} then Mirror(memory, s.file) else Mirror(memory - used, memory - used),
       MarkedAtOrUnder(memory, p))
  }

  // ---------------------------------------------------------------------------------------------
  // The class that holds the dictionary and the file
  // ---------------------------------------------------------------------------------------------

  class CleanupDeletes {
    var memory: map<Path, int>
    var file: map<Path, int>

    ghost function State(): Mirror
      reads this
    {
      Mirror(memory, file)
    }

    constructor ()
      ensures State() == EMPTY
    {
      memory, file := map[], map[];
    }

    method Persist()
      modifies `file
      ensures file == memory
    {
      file := memory;
    }

    method Prune(now: int)
      modifies `memory
      ensures State() == AfterPrune(old(State()), now)
    {
      var expired := set p | p in memory && memory[p] < now - CLEANUP_TTL_MS;
      memory := memory - expired;
      assert memory == Live(old(memory), now);
    }

    method MarkProviderCleanupDelete(path: Path, now: int)
      modifies this
      ensures State() == AfterMarkCleanup(old(State()), path, now)
    {
      if path == [] || Ignored(path) {
        return;
      }
      Prune(now);
      memory := memory[path := now];
      Persist();
    }

    method ClearProviderCleanupDelete(path: Path)
      modifies this
      ensures State() == AfterClearCleanup(old(State()), path)
    {
      if path == [] {
        return;
      }
      memory := memory - {path};
      Persist();
    }

    /** The share of ClearProviderMutationPending in these markers. */
    method ClearWithPendingMutations(paths: seq<Path>)
      modifies this
      ensures State() == AfterClearAll(old(State()), set p | p in paths)
    {
      ghost var done: set<Path> := {};
      for i := 0 to |paths|
        invariant forall p :: p in done <==> p in paths[..i]
        invariant memory == old(memory) - done && file == old(file)
      {
        memory := memory - {paths[i]};
        done := done + {paths[i]};
        assert paths[..i + 1] == paths[..i] + [paths[i]];
      }
      assert paths[..|paths|] == paths;
      assert done == set p | p in paths;
      Persist();
    }

    /** Marks the path around an attempt to remove it and takes the mark back if that fails. */
    method TryProviderCleanupDelete(path: Path, now: int, deleted: bool) returns (removed: bool)
      modifies this
      ensures removed == deleted
      ensures var marked := AfterMarkCleanup(old(State()), path, now);
              State() == if deleted then marked else AfterClearCleanup(marked, path)
    {
      MarkProviderCleanupDelete(path, now);
      removed := deleted;
      if !removed {
        ClearProviderCleanupDelete(path);
      }
    }

    method LoadProviderCleanupDeletes() returns (loaded: set<Path>)
      modifies `memory
      ensures memory == old(memory) + file && loaded == file.Keys
    {
      loaded := {};
      var left := file.Keys;
      while left != {}
        invariant left <= file.Keys && loaded == file.Keys - left
        invariant memory == old(memory) + (file - left)
      {
        var path :| path in left;
        memory := memory[path := file[path]];
        loaded := loaded + {path};
        left := left - {path};
      }
      assert file - {} == file;
    }

    method TryConsumeProviderCleanupDelete(path: Path, now: int) returns (swallowed: bool)
      modifies this
      ensures (State(), swallowed) == AfterConsume(old(State()), path, now)
    {
      if path == [] {
        return false;
      }
      var loaded := LoadProviderCleanupDeletes();
      Prune(now);
      ghost var merged := memory;
      assert merged == Live(old(memory) + old(file), now);
      var matches := set d | d in memory && Covers(path, d);
      var usedAny := RemoveUnloaded(matches, loaded);
      assert !usedAny ==> memory == merged;
      if usedAny {
        Persist();
      }
      swallowed := matches != {};
      assert matches - loaded == set d | d in merged && Covers(path, d) && d !in old(file);
      assert swallowed <==> MarkedAtOrUnder(merged, path) by {
        if MarkedAtOrUnder(merged, path) {
          var d :| d in merged && Covers(path, d);
          assert d in matches;
        }
      }
    }

    /** Removes the matches that were not read from the file and tells whether there were any. */
    method RemoveUnloaded(matches: set<Path>, loaded: set<Path>) returns (usedAny: bool)
      modifies `memory
      ensures memory == old(memory) - (matches - loaded)
      ensures usedAny <==> matches - loaded != {}
    {
      usedAny := false;
      var left := matches;
      while left != {}
        invariant left <= matches
        invariant memory == old(memory) - ((matches - left) - loaded)
        invariant usedAny <==> (matches - left) - loaded != {}
      {
        var path :| path in left;
        ghost var before := (matches - left) - loaded;
        left := left - {path};
        if path in loaded {
          assert (matches - left) - loaded == before;
        } else {
          memory := memory - {path};
          usedAny := true;
          assert (matches - left) - loaded == before + {path};
        }
      }
      assert matches - {} == matches;
    }
  }

  // ---------------------------------------------------------------------------------------------
  // Runs
  // ---------------------------------------------------------------------------------------------

  datatype Op =
    | MarkCleanup(path: Path, now: int)
    | ClearCleanup(cleared: set<Path>)
    | Consume(path: Path, now: int)
    | PruneOnly(now: int)

  function Apply(s: Mirror, op: Op): Mirror {
    match op
    case MarkCleanup(p, now) => AfterMarkCleanup(s, p, now)
    case ClearCleanup(cleared) => AfterClearAll(s, cleared)
    case Consume(p, now) => AfterConsume(s, p, now).0
    case PruneOnly(now) => AfterPrune(s, now)
  }

  function Run(ops: seq<Op>): Mirror {
    if ops == [] then EMPTY else Apply(Run(ops[..|ops| - 1]), ops[|ops| - 1])
  }

  /** The clock after a run; operations without a clock leave it where it was. */
  function Clock(ops: seq<Op>, start: int): int {
    if ops == [] then start
    else
      match ops[|ops| - 1]
      case MarkCleanup(_, now) => now
      case Consume(_, now) => now
      case PruneOnly(now) => now
      case ClearCleanup(_) => Clock(ops[..|ops| - 1], start)
  }

  ghost predicate ClockMovesForward(ops: seq<Op>, start: int) {
    forall i :: 0 <= i < |ops| ==> Clock(ops[..i], start) <= Clock(ops[..i + 1], start)
  }

  /** When p was last marked, unless it was cleared since. */
  function LastMarked(ops: seq<Op>, p: Path): Option<int> {
    if ops == [] then None
    else
      var before := ops[..|ops| - 1];
      match ops[|ops| - 1]
      case MarkCleanup(q, now) => if q == p && Markable(p) then Some(now) else LastMarked(before, p)
      case ClearCleanup(cleared) => if p in cleared then None else LastMarked(before, p)
      case Consume(_, _) => LastMarked(before, p)
      case PruneOnly(_) => LastMarked(before, p)
  }

  /** The markers still alive at time t, according to the history alone. */
  ghost predicate AliveBy(ops: seq<Op>, p: Path, t: int) {
    LastMarked(ops, p).Some? && t - LastMarked(ops, p).value <= 30_000
  }

  /** A map shows the history at time t: the same live paths with the same stamps. */
  ghost predicate Shows(m: map<Path, int>, ops: seq<Op>, t: int) {
    forall p :: (p in Live(m, t) <==> AliveBy(ops, p, t))
                && (p in Live(m, t) ==> m[p] == LastMarked(ops, p).value)
  }

  lemma {:induction false} LastMarkedIsPast(ops: seq<Op>, start: int, p: Path)
    requires ClockMovesForward(ops, start) && LastMarked(ops, p).Some?
    ensures LastMarked(ops, p).value <= Clock(ops, start)
  {
    var before := ops[..|ops| - 1];
    assert forall i :: 0 <= i <= |before| ==> before[..i] == ops[..i];
    assert ops[..|ops|] == ops;
    assert Clock(ops[..|before|], start) <= Clock(ops[..|before| + 1], start);
    if LastMarked(before, p).Some? {
      LastMarkedIsPast(before, start, p);
    }
  }

  /**
   Between operations the live markers in memory and in the file are the same, and both are what
   the history of marks and clears says; reading the file back never uses a marker up.
  */
  lemma {:induction false} MirrorAgrees(ops: seq<Op>, start: int, t: int)
    requires ClockMovesForward(ops, start) && Clock(ops, start) <= t
    ensures Shows(Run(ops).memory, ops, t)
    ensures Shows(Run(ops).file, ops, t)
  {
    if ops != [] {
      var before := ops[..|ops| - 1];
      assert forall i :: 0 <= i <= |before| ==> before[..i] == ops[..i];
      assert ops[..|ops|] == ops;
      assert Clock(ops[..|before|], start) <= Clock(ops[..|before| + 1], start);
      MirrorAgrees(before, start, t);
      match ops[|ops| - 1]
      case MarkCleanup(q, now) => MarkKeeps(ops, q, now, t);
      case ClearCleanup(cleared) => ClearKeeps(ops, cleared, t);
      case Consume(q, now) =>
        MirrorAgrees(before, start, now);
        ConsumeKeeps(before, q, now, t);
      case PruneOnly(now) =>
    }
  }

  lemma LiveAfterMark(m: map<Path, int>, q: Path, now: int, t: int, p: Path)
    requires now <= t
    ensures var marked := Live(m, now)[q := now];
            && (p in Live(marked, t) <==> if p == q then now >= t - 30_000 else p in Live(m, t))
            && (p in Live(marked, t) ==> marked[p] == if p == q then now else m[p])
  {
  }

  lemma {:induction false} MarkKeeps(ops: seq<Op>, q: Path, now: int, t: int)
    requires ops != [] && ops[|ops| - 1] == MarkCleanup(q, now) && now <= t
    requires Shows(Run(ops[..|ops| - 1]).memory, ops[..|ops| - 1], t)
    requires Shows(Run(ops[..|ops| - 1]).file, ops[..|ops| - 1], t)
    ensures Shows(Run(ops).memory, ops, t) && Shows(Run(ops).file, ops, t)
  {
    var before := ops[..|ops| - 1];
    if Markable(q) {
      var m := Run(before).memory;
      var marked := Live(m, now)[q := now];
      assert Run(ops) == Mirror(marked, marked);
      forall p ensures (p in Live(marked, t) <==> AliveBy(ops, p, t))
                       && (p in Live(marked, t) ==> marked[p] == LastMarked(ops, p).value) {
        LiveAfterMark(m, q, now, t, p);
        assert LastMarked(ops, p) == if p == q then Some(now) else LastMarked(before, p);
      }
    } else {
      assert Run(ops) == Run(before);
      forall p ensures LastMarked(ops, p) == LastMarked(before, p) {
      }
    }
  }

  lemma ClearKeeps(ops: seq<Op>, cleared: set<Path>, t: int)
    requires ops != [] && ops[|ops| - 1] == ClearCleanup(cleared)
    requires Shows(Run(ops[..|ops| - 1]).memory, ops[..|ops| - 1], t)
    ensures Shows(Run(ops).memory, ops, t) && Shows(Run(ops).file, ops, t)
  {
    var before := ops[..|ops| - 1];
    var s, s' := Run(before), Run(ops);
    assert s'.memory == s'.file == s.memory - cleared;
    forall p ensures p in Live(s'.memory, t) <==> AliveBy(ops, p, t) {
      assert p in Live(s.memory, t) <==> AliveBy(before, p, t);
    }
  }

  lemma ConsumeKeeps(before: seq<Op>, q: Path, now: int, t: int)
    requires now <= t
    requires Shows(Run(before).memory, before, now) && Shows(Run(before).file, before, now)
    requires Shows(Run(before).memory, before, t) && Shows(Run(before).file, before, t)
    ensures Shows(AfterConsume(Run(before), q, now).0.memory, before, t)
    ensures AfterConsume(Run(before), q, now).0.file == Run(before).file
  {
    var s := Run(before);
    var memory := Live(s.memory + s.file, now);
    forall d | d in memory ensures d in s.file {
      assert d in Live(s.memory, now) ==> AliveBy(before, d, now);
    }
    assert q != [] ==> (set d | d in memory && Covers(q, d) && d !in s.file) == {};
  }

  /**
   A delete notification is swallowed exactly when some path at or under it was marked no more
   than thirty seconds ago and not cleared since.
  */
  lemma SwallowedIff(ops: seq<Op>, start: int, path: Path, now: int)
    requires ClockMovesForward(ops, start) && Clock(ops, start) <= now && path != []
    ensures AfterConsume(Run(ops), path, now).1 <==>
            exists d :: Covers(path, d) && AliveBy(ops, d, now)
  {
    MirrorAgrees(ops, start, now);
    var s := Run(ops);
    var memory := Live(s.memory + s.file, now);
    forall d ensures d in memory <==> AliveBy(ops, d, now) {
      if AliveBy(ops, d, now) {
        assert d in Live(s.file, now);
      }
      if d in memory {
        assert d in Live(s.memory, now) || d in Live(s.file, now);
      }
    }
    if AfterConsume(s, path, now).1 {
      var d :| d in memory && Covers(path, d);
      assert AliveBy(ops, d, now);
    }
  }
}
