/** Which steps lead to a provider delete, over every run of the delete tasks. */
module DeleteHistory {
  import opened Paths
  import opened Markers
  import opened DeleteTasks

  /** Task t found its own marker pending. */
  ghost predicate CheckedAt(states: seq<System>, steps: seq<Step>, i: nat, t: nat) {
    && i < |steps| && i < |states| && steps[i].Check? && steps[i].task == t
    && t < |states[i].tasks| && states[i].tasks[t].path in states[i].markers.deletes
  }

  /** Task t was promoted to p, which is its own path or was missing from disk then. */
  ghost predicate PromotedAt(states: seq<System>, steps: seq<Step>, i: nat, t: nat, p: Path) {
    && i < |steps| && i < |states| && steps[i].PromoteTask? && steps[i].task == t && t < |states[i].tasks|
    && Covers(p, states[i].tasks[t].path) && (p == states[i].tasks[t].path || p !in steps[i].existing)
  }

  /** Task t, promoted to p, found the marker of p pending. */
  ghost predicate RecheckedAt(states: seq<System>, steps: seq<Step>, i: nat, t: nat, p: Path) {
    && i < |steps| && i < |states| && steps[i].Recheck? && steps[i].task == t && t < |states[i].tasks|
    && states[i].tasks[t].phase == Promoted(p) && p in states[i].markers.deletes
  }

  ghost predicate WasChecked(states: seq<System>, steps: seq<Step>, n: nat, t: nat) {
    exists i :: 0 <= i < n && CheckedAt(states, steps, i, t)
  }

  ghost predicate WasPromoted(states: seq<System>, steps: seq<Step>, n: nat, t: nat, p: Path) {
    exists i :: 0 <= i < n && PromotedAt(states, steps, i, t, p) && WasChecked(states, steps, i, t)
  }

  ghost predicate WasRechecked(states: seq<System>, steps: seq<Step>, n: nat, t: nat, p: Path) {
    exists i :: 0 <= i < n && RecheckedAt(states, steps, i, t, p) && WasPromoted(states, steps, i, t, p)
  }

  /** The steps that must have led a task into its phase. */
  ghost predicate Explained(states: seq<System>, steps: seq<Step>, n: nat, t: nat, phase: Phase) {
    match phase
    case Waiting => true
    case Checked => WasChecked(states, steps, n, t)
    case Promoted(p) => WasPromoted(states, steps, n, t, p)
    case Issuing(p) => WasRechecked(states, steps, n, t, p)
    case Finished => true
  }

  ghost predicate PhasesExplained(states: seq<System>, steps: seq<Step>, n: nat)
    requires n < |states|
  {
    forall t: nat :: t < |states[n].tasks| ==> Explained(states, steps, n, t, states[n].tasks[t].phase)
  }

  lemma StillExplained(states: seq<System>, steps: seq<Step>, n: nat, t: nat, phase: Phase)
    requires Explained(states, steps, n, t, phase)
    ensures Explained(states, steps, n + 1, t, phase)
  {
  }

  /** The task a step is about. */
  function Mover(step: Step): int {
    match step
    case Check(t, _) => t
    case PromoteTask(t, _, _) => t
    case Recheck(t, _) => t
    case Issue(t) => t
    case Notify(_, _) => -1
    case ReconcileListing(_, _) => -1
  }

  lemma OthersKeepTheirPhase(s: System, step: Step, t: nat)
    requires Enabled(s, step) && t < |Do(s, step).tasks| && t != Mover(step)
    ensures if t < |s.tasks| then Do(s, step).tasks[t] == s.tasks[t] else Do(s, step).tasks[t].phase.Waiting?
  {
  }

  lemma PromotionLeadsUp(s: Markers, p: Path, existing: set<Path>, now: int)
    requires p != []
    ensures var target := AfterPromote(s, p, existing, now).1;
            Covers(target, p) && (target == p || target !in existing)
  {
    ShallowestMissingIsMissing(existing, p, 1);
  }

  lemma MoverIsExplained(states: seq<System>, steps: seq<Step>, n: nat)
    requires AnyRun(states, steps) && n < |steps| && PhasesExplained(states, steps, n) && Mover(steps[n]) >= 0
    requires forall t :: 0 <= t < |states[n].tasks| ==> states[n].tasks[t].path != []
    ensures var t := Mover(steps[n]); Explained(states, steps, n + 1, t, states[n + 1].tasks[t].phase)
  {
    var s, step := states[n], steps[n];
    var t := Mover(step);
    assert Explained(states, steps, n, t, s.tasks[t].phase);
    match step
    case Check(_, _) =>
      assert s.tasks[t].path in s.markers.deletes ==> CheckedAt(states, steps, n, t);
    case PromoteTask(_, existing, now) =>
      PromotionLeadsUp(s.markers, s.tasks[t].path, existing, now);
      assert PromotedAt(states, steps, n, t, AfterPromote(s.markers, s.tasks[t].path, existing, now).1);
    case Recheck(_, _) =>
      var target := s.tasks[t].phase.target;
      assert target in s.markers.deletes ==> RecheckedAt(states, steps, n, t, target);
    case Issue(_) =>
  }

  lemma {:induction false} TasksHavePaths(states: seq<System>, steps: seq<Step>, n: nat)
    requires AnyRun(states, steps) && n < |states|
    ensures forall t :: 0 <= t < |states[n].tasks| ==> states[n].tasks[t].path != []
  {
    if n > 0 {
      TasksHavePaths(states, steps, n - 1);
      assert states[n] == Do(states[n - 1], steps[n - 1]);
    }
  }

  lemma TaskIsExplained(states: seq<System>, steps: seq<Step>, n: nat, t: nat)
    requires AnyRun(states, steps) && n < |steps| && PhasesExplained(states, steps, n) && t < |states[n + 1].tasks|
    ensures Explained(states, steps, n + 1, t, states[n + 1].tasks[t].phase)
  {
    if t == Mover(steps[n]) {
      TasksHavePaths(states, steps, n);
      MoverIsExplained(states, steps, n);
    } else {
      OthersKeepTheirPhase(states[n], steps[n], t);
      if t < |states[n].tasks| {
        StillExplained(states, steps, n, t, states[n].tasks[t].phase);
      }
    }
  }

  lemma {:induction false} RunIsExplained(states: seq<System>, steps: seq<Step>, n: nat)
    requires AnyRun(states, steps) && n < |states|
    ensures PhasesExplained(states, steps, n)
  {
    if n > 0 {
      RunIsExplained(states, steps, n - 1);
      forall t: nat | t < |states[n].tasks| ensures Explained(states, steps, n, t, states[n].tasks[t].phase) {
        TaskIsExplained(states, steps, n - 1, t);
      }
    }
  }

  lemma {:induction false} IssuedIsExplained(states: seq<System>, steps: seq<Step>, n: nat, p: Path) returns (t: nat)
    requires AnyRun(states, steps) && n < |states| && p in states[n].issued
    ensures t < |states[n].tasks| && WasRechecked(states, steps, n, t, p)
  {
    var s, step := states[n - 1], steps[n - 1];
    assert states[n] == Do(s, step);
    if p in s.issued {
      t := IssuedIsExplained(states, steps, n - 1, p);
    } else {
      t := step.task;
      RunIsExplained(states, steps, n - 1);
      assert Explained(states, steps, n - 1, t, s.tasks[t].phase);
    }
    StillExplained(states, steps, n - 1, t, Issuing(p));
  }

  lemma {:induction false} PathsStay(states: seq<System>, steps: seq<Step>, i: nat, n: nat, t: nat)
    requires AnyRun(states, steps) && i <= n < |states| && t < |states[i].tasks|
    ensures t < |states[n].tasks| && states[n].tasks[t].path == states[i].tasks[t].path
    decreases n - i
  {
    if i < n {
      assert states[i + 1] == Do(states[i], steps[i]);
      PathsStay(states, steps, i + 1, n, t);
    }
  }

  /**
   No delete without cause: over every run, with separate or atomic sections, a delete is issued
   only after a task found the marker of its notified path pending, was promoted to the path at or
   above it that is deleted, missing from disk unless it is the notified one, and then found the
   marker of that path pending.
  */
  lemma IssuedWasPending(states: seq<System>, steps: seq<Step>, n: nat, p: Path)
    returns (t: nat, checked: nat, promoted: nat, rechecked: nat)
    requires AnyRun(states, steps) && n < |states| && p in states[n].issued
    ensures checked < promoted < rechecked < n && t < |states[n].tasks|
    ensures steps[checked].Check? && steps[checked].task == t
            && states[n].tasks[t].path in states[checked].markers.deletes
    ensures steps[promoted].PromoteTask? && steps[promoted].task == t && Covers(p, states[n].tasks[t].path)
            && (p == states[n].tasks[t].path || p !in steps[promoted].existing)
    ensures steps[rechecked].Recheck? && steps[rechecked].task == t && t < |states[rechecked].tasks|
            && states[rechecked].tasks[t].phase == Promoted(p) && p in states[rechecked].markers.deletes
  {
    t := IssuedIsExplained(states, steps, n, p);
    rechecked :| 0 <= rechecked < n && RecheckedAt(states, steps, rechecked, t, p) && WasPromoted(states, steps, rechecked, t, p);
    promoted :| 0 <= promoted < rechecked && PromotedAt(states, steps, promoted, t, p) && WasChecked(states, steps, promoted, t);
    checked :| 0 <= checked < promoted && CheckedAt(states, steps, checked, t);
    PathsStay(states, steps, promoted, n, t);
    PathsStay(states, steps, checked, n, t);
  }

  lemma {:induction false} FinishedStays(states: seq<System>, steps: seq<Step>, i: nat, n: nat, t: nat)
    requires AnyRun(states, steps) && i <= n < |states| && TaskIn(states[i], t, Finished)
    ensures TaskIn(states[n], t, Finished)
    decreases n - i
  {
    if i < n {
      assert states[i + 1] == Do(states[i], steps[i]);
      FinishedStays(states, steps, i + 1, n, t);
    }
  }

  /** A task that finds its marker gone, before or after its promotion, takes no further step. */
  lemma UnmarkedIssuesNothing(states: seq<System>, steps: seq<Step>, i: nat, n: nat, t: nat)
    requires AnyRun(states, steps) && i < n < |steps| && Mover(steps[i]) == t
    requires || (steps[i].Check? && states[i].tasks[t].path !in states[i].markers.deletes)
             || (steps[i].Recheck? && states[i].tasks[t].phase.target !in states[i].markers.deletes)
    ensures Mover(steps[n]) != t
  {
    assert states[i + 1] == Do(states[i], steps[i]);
    FinishedStays(states, steps, i + 1, n, t);
    assert Enabled(states[n], steps[n]);
  }

  // ---------------------------------------------------------------------------------------------
  // The markers and what is owed
  // ---------------------------------------------------------------------------------------------

  /** The marker operation behind a step. */
  function OpOf(s: System, step: Step): Op {
    match step
    case Notify(path, now) => MarkDelete(path, now)
    case Check(_, now) => Query(now)
    case PromoteTask(t, existing, now) => Promote(if t < |s.tasks| then s.tasks[t].path else [], existing, now)
    case Recheck(_, now) => Query(now)
    case Issue(_) => Clear({})
    case ReconcileListing(listed, now) => Reconcile(listed, now)
  }

  function OpsOf(states: seq<System>, steps: seq<Step>, n: nat): seq<Op>
    requires n <= |steps| && n <= |states|
  {
    if n == 0 then [] else OpsOf(states, steps, n - 1) + [OpOf(states[n - 1], steps[n - 1])]
  }

  /** The tasks and the reconciliations drive the markers through the operations of the marker class alone. */
  lemma {:induction false} MarkersAreDriven(states: seq<System>, steps: seq<Step>, n: nat)
    requires AnyRun(states, steps) && n < |states|
    ensures states[n].markers == Run(OpsOf(states, steps, n))
  {
    if n > 0 {
      MarkersAreDriven(states, steps, n - 1);
      var s, step := states[n - 1], steps[n - 1];
      var before, op := OpsOf(states, steps, n - 1), OpOf(s, step);
      assert (before + [op])[..|before|] == before;
      StepDrives(s, step);
      assert states[n] == Do(s, step);
    }
  }

  lemma StepDrives(s: System, step: Step)
    requires Enabled(s, step)
    ensures Do(s, step).markers == Apply(s.markers, OpOf(s, step))
  {
  }

  lemma {:induction false} NothingPreserved(states: seq<System>, steps: seq<Step>, n: nat)
    requires AnyRun(states, steps) && n < |states|
    ensures states[n].markers.preserves == map[]
  {
    if n > 0 {
      NothingPreserved(states, steps, n - 1);
      StepDrives(states[n - 1], steps[n - 1]);
      assert states[n] == Do(states[n - 1], steps[n - 1]);
    }
  }

  /** Step i notified the delete of p, and every listing since had p in it. */
  ghost predicate OwedSince(steps: seq<Step>, i: int, n: nat, p: Path) {
    && 0 <= i < n <= |steps| && steps[i].Notify? && steps[i].path == p
    && forall j :: i < j < n && steps[j].ReconcileListing? ==> p in steps[j].listed
  }

  ghost predicate StillOwed(steps: seq<Step>, n: nat, p: Path) {
    exists i :: OwedSince(steps, i, n, p)
  }

  lemma OwedSinceLast(steps: seq<Step>, n: nat, p: Path)
    requires 0 < n <= |steps|
    ensures StillOwed(steps, n, p) <==>
            || (steps[n - 1].Notify? && steps[n - 1].path == p)
            || (StillOwed(steps, n - 1, p) && (steps[n - 1].ReconcileListing? ==> p in steps[n - 1].listed))
  {
    if steps[n - 1].Notify? && steps[n - 1].path == p {
      assert OwedSince(steps, n - 1, n, p);
    } else if StillOwed(steps, n - 1, p) && (steps[n - 1].ReconcileListing? ==> p in steps[n - 1].listed) {
      var before := n - 1;
      var i :| OwedSince(steps, i, before, p);
      assert OwedSince(steps, i, n, p);
    }
    if i :| OwedSince(steps, i, n, p) {
      if i < n - 1 {
        assert OwedSince(steps, i, n - 1, p);
      }
    }
  }

  lemma StepOwes(s: System, step: Step, p: Path)
    requires Enabled(s, step) && s.markers.preserves == map[]
    ensures p in Do(s, step).owed <==>
            || (step.Notify? && step.path == p && Markable(p))
            || (p in s.owed && (step.ReconcileListing? ==> p in step.listed))
  {
  }

  /** What is owed: every markable path whose delete was notified and which every listing since has had. */
  lemma {:induction false} OwedIff(states: seq<System>, steps: seq<Step>, n: nat, p: Path)
    requires AnyRun(states, steps) && n < |states|
    ensures p in states[n].owed <==> Markable(p) && StillOwed(steps, n, p)
  {
    if n > 0 {
      OwedIff(states, steps, n - 1, p);
      OwedSinceLast(steps, n, p);
      NothingPreserved(states, steps, n - 1);
      StepOwes(states[n - 1], steps[n - 1], p);
      assert states[n] == Do(states[n - 1], steps[n - 1]);
    }
  }
}
