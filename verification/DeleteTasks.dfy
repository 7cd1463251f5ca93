/**
 The delete tasks started by delete notifications.  Every section that holds the marker lock is
 one step; the steps of different tasks, new notifications and reconciliations interleave freely.
*/
module DeleteTasks {
  import opened Paths
  import opened Markers

  datatype Phase =
    | Waiting                  // polling until the local item is gone
    | Checked                  // its marker was still pending
    | Promoted(target: Path)   // narrowed or widened to this path
    | Issuing(target: Path)    // about to run the provider delete
    | Finished

  datatype Task = Task(path: Path, phase: Phase)

  /** owed holds the notified paths no reconciliation has since found unlisted. */
  datatype System = System(markers: Markers, tasks: seq<Task>, issued: set<Path>, owed: set<Path>)

  datatype Step =
    | Notify(path: Path, now: int)
    | Check(task: nat, now: int)
    | PromoteTask(task: nat, existing: set<Path>, now: int)
    | Recheck(task: nat, now: int)
    | Issue(task: nat)
    | ReconcileListing(listed: set<Path>, now: int)

  const START := System(NO_MARKERS, [], {}, {})

  function WithPhase(s: System, task: nat, phase: Phase): System
    requires task < |s.tasks|
  {
    s.(tasks := s.tasks[task := s.tasks[task].(phase := phase)])
  }

  predicate TaskIn(s: System, task: nat, phase: Phase) {
    task < |s.tasks| && s.tasks[task].phase == phase
  }

  /** A step can be taken; with no expiry, no marker has outlived its time to live. */
  predicate Enabled(s: System, step: Step) {
    match step
    case Notify(_, now) => Pruned(s.markers, now) == s.markers
    case Check(t, now) => TaskIn(s, t, Waiting) && Pruned(s.markers, now) == s.markers
    case PromoteTask(t, _, now) => TaskIn(s, t, Checked) && Pruned(s.markers, now) == s.markers
    case Recheck(t, now) =>
      t < |s.tasks| && s.tasks[t].phase.Promoted? && Pruned(s.markers, now) == s.markers
    case Issue(t) => t < |s.tasks| && s.tasks[t].phase.Issuing?
    case ReconcileListing(_, now) => Pruned(s.markers, now) == s.markers
  }

  function Do(s: System, step: Step): System
    requires Enabled(s, step)
  {
    match step
    case Notify(path, now) =>
      var (markers, accepted) := AfterMark(s.markers, path, now);
      if accepted then
        System(markers, s.tasks + [Task(path, Waiting)], s.issued, s.owed + {path})
      else if Markable(path) && CoveredBy(markers.deletes, path) then
        System(markers, s.tasks, s.issued, s.owed + {path})
      else s.(markers := markers)
    case Check(t, _) =>
      WithPhase(s, t, if s.tasks[t].path in s.markers.deletes then Checked else Finished)
    case PromoteTask(t, existing, now) =>
      var (markers, target) := AfterPromote(s.markers, s.tasks[t].path, existing, now);
      WithPhase(s.(markers := markers), t, Promoted(target))
    case Recheck(t, _) =>
      var target := s.tasks[t].phase.target;
      WithPhase(s, t, if target in s.markers.deletes then Issuing(target) else Finished)
    case Issue(t) =>
      WithPhase(s.(issued := s.issued + {s.tasks[t].phase.target}), t, Finished)
    case ReconcileListing(listed, now) =>
      s.(markers := AfterReconcile(s.markers, listed, now), owed := s.owed * listed)
  }

  // ---------------------------------------------------------------------------------------------
  // No lost delete
  // ---------------------------------------------------------------------------------------------

  /** The marker this task still answers for. */
  predicate AnswersFor(t: Task, marker: Path) {
    match t.phase
    case Waiting => t.path == marker
    case Checked => t.path == marker
    case Promoted(target) => target == marker
    case Issuing(target) => target == marker
    case Finished => false
  }

  predicate Answered(s: System, marker: Path) {
    marker in s.issued || exists t :: 0 <= t < |s.tasks| && AnswersFor(s.tasks[t], marker)
  }

  predicate IssuedOver(s: System, p: Path) {
    exists i :: i in s.issued && Covers(i, p)
  }

  /** p is covered by a marker whose delete is issued or still to come, or by an issued delete. */
  predicate Accounted(s: System, p: Path) {
    || IssuedOver(s, p)
    || exists m :: m in s.markers.deletes && Covers(m, p) && Answered(s, m)
  }

  predicate NoLostDelete(s: System) {
    forall p :: p in s.owed ==> Accounted(s, p)
  }

  ghost predicate Inv(s: System) {
    && s.markers.preserves == map[]
    && PrefixFree(s.markers.deletes)
    && (forall m :: m in s.markers.deletes ==> m != [] && Answered(s, m))
    && (forall p :: p in s.owed ==> p != [] && (IssuedOver(s, p) || CoveredBy(s.markers.deletes, p)))
  }

  lemma InvAccounts(s: System)
    requires Inv(s)
    ensures NoLostDelete(s)
  {
    forall p | p in s.owed ensures Accounted(s, p) {
      if !IssuedOver(s, p) {
        var m :| m in s.markers.deletes && Covers(m, p);
        assert Answered(s, m);
      }
    }
  }

  /**
   What a caller can check before promoting: no marker lies strictly above the path the task is
   about to be promoted to.
  */
  predicate PromotionSafe(s: System, step: Step)
    requires Enabled(s, step)
  {
    step.PromoteTask? ==>
      var p := s.tasks[step.task].path;
      PromotionBlocked(s.markers, p, step.existing, step.now) ||
      !MarkedStrictlyAbove(s.markers.deletes, ShallowestMissing(step.existing, p, 1))
  }

  lemma AnsweredStays(s: System, s': System, m: Path)
    requires Answered(s, m) && s.issued <= s'.issued && |s.tasks| <= |s'.tasks|
    requires forall t :: 0 <= t < |s.tasks| && AnswersFor(s.tasks[t], m) ==>
               AnswersFor(s'.tasks[t], m) || m in s'.issued
    ensures Answered(s', m)
  {
    if m !in s.issued {
      var t :| 0 <= t < |s.tasks| && AnswersFor(s.tasks[t], m);
      assert AnswersFor(s'.tasks[t], m) || m in s'.issued;
    }
  }

  lemma IssuedOverStays(s: System, s': System, p: Path)
    requires IssuedOver(s, p) && s.issued <= s'.issued
    ensures IssuedOver(s', p)
  {
    var i :| i in s.issued && Covers(i, p);
    assert i in s'.issued;
  }

  lemma NotifyKeeps(s: System, path: Path, now: int)
    requires Inv(s) && Enabled(s, Notify(path, now))
    ensures Inv(Do(s, Notify(path, now)))
  {
    var s' := Do(s, Notify(path, now));
    if Markable(path) {
      MarkWidens(s.markers, path, now);
      forall m | m in s'.markers.deletes ensures m != [] && Answered(s', m) {
        if m in s.markers.deletes {
          AnsweredStays(s, s', m);
        } else {
          assert AnswersFor(s'.tasks[|s.tasks|], path);
        }
      }
      forall p | p in s'.owed ensures p != [] && (IssuedOver(s', p) || CoveredBy(s'.markers.deletes, p)) {
        if p == path && p !in s.owed {
          assert Covers(path, path);
        } else if IssuedOver(s, p) {
          IssuedOverStays(s, s', p);
        } else {
          assert CoveredBy(s.markers.deletes, p);
        }
      }
    }
  }

  /** Checking, rechecking and issuing leave the markers alone and pass on the answering task. */
  lemma TaskStepKeeps(s: System, step: Step)
    requires Inv(s) && Enabled(s, step) && (step.Check? || step.Recheck? || step.Issue?)
    ensures Inv(Do(s, step))
  {
    var s' := Do(s, step);
    forall m | m in s'.markers.deletes ensures m != [] && Answered(s', m) {
      AnsweredStays(s, s', m);
    }
    forall p | p in s'.owed ensures p != [] && (IssuedOver(s', p) || CoveredBy(s'.markers.deletes, p)) {
      if IssuedOver(s, p) {
        IssuedOverStays(s, s', p);
      }
    }
  }

  lemma PromoteKeeps(s: System, step: Step)
    requires Inv(s) && step.PromoteTask? && Enabled(s, step) && PromotionSafe(s, step)
    ensures Inv(Do(s, step))
  {
    var s' := Do(s, step);
    var p := s.tasks[step.task].path;
    var (after, target) := AfterPromote(s.markers, p, step.existing, step.now);
    if PromotionBlocked(s.markers, p, step.existing, step.now) {
      assert s'.markers == s.markers && target == p;
      forall m | m in s'.markers.deletes ensures m != [] && Answered(s', m) {
        AnsweredStays(s, s', m);
      }
    } else {
      ShallowestMissingIsMissing(step.existing, p, 1);
      PromotionKeepsCoverageIff(s.markers, p, step.existing, step.now);
      assert AnswersFor(s'.tasks[step.task], target);
      forall m | m in s'.markers.deletes ensures m != [] && Answered(s', m) {
        if m != target {
          assert m in s.markers.deletes;
          assert !Covers(m, target);
          assert m != p;
          AnsweredStays(s, s', m);
        }
      }
    }
    forall q | q in s'.owed ensures q != [] && (IssuedOver(s', q) || CoveredBy(s'.markers.deletes, q)) {
      if IssuedOver(s, q) {
        IssuedOverStays(s, s', q);
      }
    }
  }

  lemma ReconcileKeeps(s: System, listed: set<Path>, now: int)
    requires Inv(s) && Enabled(s, ReconcileListing(listed, now)) && AncestorClosed(listed)
    ensures Inv(Do(s, ReconcileListing(listed, now)))
  {
    var s' := Do(s, ReconcileListing(listed, now));
    forall m | m in s'.markers.deletes ensures m != [] && Answered(s', m) {
      AnsweredStays(s, s', m);
    }
    forall p | p in s'.owed ensures p != [] && (IssuedOver(s', p) || CoveredBy(s'.markers.deletes, p)) {
      if IssuedOver(s, p) {
        IssuedOverStays(s, s', p);
      } else {
        ReconcileKeepsListedCoverage(s.markers, listed, now, p);
      }
    }
  }

  /** Any interleaving of enabled steps from the empty system. */
  ghost predicate AnyRun(states: seq<System>, steps: seq<Step>) {
    && |states| == |steps| + 1
    && states[0] == START
    && forall i :: 0 <= i < |steps| ==>
         Enabled(states[i], steps[i]) && states[i + 1] == Do(states[i], steps[i])
  }

  /** A run over ancestor-closed listings in which every promotion is safe. */
  ghost predicate SafeRun(states: seq<System>, steps: seq<Step>) {
    && AnyRun(states, steps)
    && forall i :: 0 <= i < |steps| ==>
         && PromotionSafe(states[i], steps[i])
         && (steps[i].ReconcileListing? ==> AncestorClosed(steps[i].listed))
  }

  /**
   In every run whose promotions are safe, every notified path stays accounted for until a
   reconciliation finds it unlisted.
  */
  lemma {:induction false} NoDeleteIsLost(states: seq<System>, steps: seq<Step>, n: nat)
    requires SafeRun(states, steps) && n < |states|
    ensures Inv(states[n]) && NoLostDelete(states[n])
  {
    if n > 0 {
      NoDeleteIsLost(states, steps, n - 1);
      var s, step := states[n - 1], steps[n - 1];
      match step
      case Notify(path, now) => NotifyKeeps(s, path, now);
      case Check(_, _) => TaskStepKeeps(s, step);
      case PromoteTask(_, _, _) => PromoteKeeps(s, step);
      case Recheck(_, _) => TaskStepKeeps(s, step);
      case Issue(_) => TaskStepKeeps(s, step);
      case ReconcileListing(listed, now) => ReconcileKeeps(s, listed, now);
    }
    InvAccounts(states[n]);
  }

  /** Once every task has finished, every owed path lies at or under an issued provider delete. */
  lemma AtRestAllIssued(states: seq<System>, steps: seq<Step>, n: nat, p: Path)
    requires SafeRun(states, steps) && n < |states|
    requires forall t :: 0 <= t < |states[n].tasks| ==> states[n].tasks[t].phase == Finished
    requires p in states[n].owed
    ensures IssuedOver(states[n], p)
  {
    NoDeleteIsLost(states, steps, n);
    assert Accounted(states[n], p);
  }

  /**
   Taking the pending check together with the promotion is enough: while the task's own marker is
   pending, its promotion is safe.
  */
  lemma OwnMarkerMakesPromotionSafe(s: System, step: Step)
    requires Inv(s) && step.PromoteTask? && Enabled(s, step)
    requires s.tasks[step.task].path in s.markers.deletes
    ensures PromotionSafe(s, step)
  {
    var p := s.tasks[step.task].path;
    ShallowestMissingIsMissing(step.existing, p, 1);
    var target := ShallowestMissing(step.existing, p, 1);
    if target != p && MarkedStrictlyAbove(s.markers.deletes, target) {
      var d :| d in s.markers.deletes && Covers(d, target) && d != target;
      CoversTransitive(d, target, p);
      assert false;
    }
  }

  /** A run over ancestor-closed listings whose promotions directly follow their own check. */
  ghost predicate AtomicRun(states: seq<System>, steps: seq<Step>) {
    && AnyRun(states, steps)
    && forall i :: 0 <= i < |steps| ==>
         && (steps[i].PromoteTask? ==> i > 0 && steps[i - 1].Check? && steps[i - 1].task == steps[i].task)
         && (steps[i].ReconcileListing? ==> AncestorClosed(steps[i].listed))
  }

  /** With the check and the promotion taken together, no delete is lost in any interleaving. */
  lemma {:induction false} AtomicRunLosesNothing(states: seq<System>, steps: seq<Step>, n: nat)
    requires AtomicRun(states, steps) && n < |states|
    ensures SafeRun(states[..n + 1], steps[..n]) && Inv(states[n]) && NoLostDelete(states[n])
  {
    if n > 0 {
      AtomicRunLosesNothing(states, steps, n - 1);
      var s, step := states[n - 1], steps[n - 1];
      if step.PromoteTask? {
        assert s == Do(states[n - 2], steps[n - 2]);
        assert s.tasks[step.task].path in s.markers.deletes;
        OwnMarkerMakesPromotionSafe(s, step);
      }
      ghost var earlier := states[..n];
      forall i | 0 <= i < n
        ensures PromotionSafe(states[i], steps[i])
      {
        if i < n - 1 {
          assert earlier[i] == states[i] && steps[..n - 1][i] == steps[i];
        }
      }
    }
    NoDeleteIsLost(states[..n + 1], steps[..n], n);
  }

  /** Exactly when one promotion leaves every owed path accounted for. */
  lemma PromotionLosesNothingIff(s: System, step: Step)
    requires Inv(s) && step.PromoteTask? && Enabled(s, step)
    requires !PromotionBlocked(s.markers, s.tasks[step.task].path, step.existing, step.now)
    ensures var target := ShallowestMissing(step.existing, s.tasks[step.task].path, 1);
            NoLostDelete(Do(s, step)) <==>
            forall p, d :: p in s.owed && d in s.markers.deletes && Covers(d, p) &&
                           Covers(d, target) && d != target ==>
                           IssuedOver(s, p) || Covers(target, p)
  {
    var target := ShallowestMissing(step.existing, s.tasks[step.task].path, 1);
    var s' := Do(s, step);
    var before, after := s.markers.deletes, s'.markers.deletes;
    assert after == Unrelated(before, target)[target := step.now];
    assert AnswersFor(s'.tasks[step.task], target);
    if forall p, d :: p in s.owed && d in before && Covers(d, p) && Covers(d, target) && d != target ==>
         IssuedOver(s, p) || Covers(target, p) {
      forall p | p in s'.owed ensures Accounted(s', p) {
        if IssuedOver(s, p) {
          IssuedOverStays(s, s', p);
        } else if Covers(target, p) {
          assert target in after && Answered(s', target);
        } else {
          var d :| d in before && Covers(d, p);
          assert !Covers(target, d) by {
            if Covers(target, d) { CoversTransitive(target, d, p); }
          }
          assert d in after;
          assert d != s.tasks[step.task].path by {
            ShallowestMissingIsMissing(step.existing, s.tasks[step.task].path, 1);
          }
          AnsweredStays(s, s', d);
        }
      }
    }
    if NoLostDelete(s') {
      forall p, d | p in s.owed && d in before && Covers(d, p) && Covers(d, target) && d != target
        ensures IssuedOver(s, p) || Covers(target, p)
      {
        assert Accounted(s', p);
        if !IssuedOver(s', p) {
          var m :| m in after && Covers(m, p) && Answered(s', m);
          if m != target {
            PrefixesAreRelated(d, m, p);
            assert false;
          }
        }
      }
    }
  }

  /**
   The other half of safety: a promotion to a path below a marker that is owed itself, and not yet
   issued, loses that delete.
  */
  lemma UnsafePromotionLoses(s: System, step: Step, d: Path)
    requires Inv(s) && step.PromoteTask? && Enabled(s, step)
    requires !PromotionBlocked(s.markers, s.tasks[step.task].path, step.existing, step.now)
    requires d in s.markers.deletes && d in s.owed && !IssuedOver(s, d)
    requires var target := ShallowestMissing(step.existing, s.tasks[step.task].path, 1);
             Covers(d, target) && d != target
    ensures !Accounted(Do(s, step), d) && d in Do(s, step).owed
  {
    var s' := Do(s, step);
    var target := ShallowestMissing(step.existing, s.tasks[step.task].path, 1);
    if Accounted(s', d) {
      var m :| m in s'.markers.deletes && Covers(m, d);
      CoversTransitive(m, d, target);
      assert false;
    }
  }

  /**
   When every marker is owed and nothing above the target is issued, being safe is exactly losing
   nothing.
  */
  lemma PromotionSafeIff(s: System, step: Step)
    requires Inv(s) && step.PromoteTask? && Enabled(s, step)
    requires !PromotionBlocked(s.markers, s.tasks[step.task].path, step.existing, step.now)
    requires forall d :: d in s.markers.deletes ==> d in s.owed && !IssuedOver(s, d)
    ensures PromotionSafe(s, step) <==> NoLostDelete(Do(s, step))
  {
    if PromotionSafe(s, step) {
      PromoteKeeps(s, step);
      InvAccounts(Do(s, step));
    } else {
      var target := ShallowestMissing(step.existing, s.tasks[step.task].path, 1);
      var d :| d in s.markers.deletes && Covers(d, target) && d != target;
      UnsafePromotionLoses(s, step, d);
    }
  }

  // ---------------------------------------------------------------------------------------------
  // The separate sections lose a delete
  // ---------------------------------------------------------------------------------------------

  const TOP: Path := ["a"]
  const MIDDLE: Path := ["a", "b"]
  const DEEP: Path := ["a", "b", "c"]

  const LOSING_STEPS: seq<Step> :=
    [Notify(DEEP, 0), Check(0, 0), Notify(TOP, 0), PromoteTask(0, {TOP}, 0),
     Check(1, 0), Recheck(0, 0), Issue(0)]

  /** The states of the losing run. */
  const LOSING_STATES: seq<System> :=
    [START,
     System(Markers(map[DEEP := 0], map[]), [Task(DEEP, Waiting)], {}, {DEEP}),
     System(Markers(map[DEEP := 0], map[]), [Task(DEEP, Checked)], {}, {DEEP}),
     System(Markers(map[TOP := 0], map[]), [Task(DEEP, Checked), Task(TOP, Waiting)], {}, {DEEP, TOP}),
     System(Markers(map[MIDDLE := 0], map[]), [Task(DEEP, Promoted(MIDDLE)), Task(TOP, Waiting)], {}, {DEEP, TOP}),
     System(Markers(map[MIDDLE := 0], map[]), [Task(DEEP, Promoted(MIDDLE)), Task(TOP, Finished)], {}, {DEEP, TOP}),
     System(Markers(map[MIDDLE := 0], map[]), [Task(DEEP, Issuing(MIDDLE)), Task(TOP, Finished)], {}, {DEEP, TOP}),
     System(Markers(map[MIDDLE := 0], map[]), [Task(DEEP, Finished), Task(TOP, Finished)], {MIDDLE}, {DEEP, TOP})]

  lemma NamesAreKept()
    ensures Markable(TOP) && Markable(MIDDLE) && Markable(DEEP)
  {
    LetterIsKept("a");
    LetterIsKept("b");
    LetterIsKept("c");
  }

  lemma OneMarkerPruned(p: Path)
    ensures Pruned(Markers(map[p := 0], map[]), 0) == Markers(map[p := 0], map[])
    ensures Pruned(NO_MARKERS, 0) == NO_MARKERS
  {
  }

  lemma FirstMark()
    ensures AfterMark(NO_MARKERS, DEEP, 0) == (Markers(map[DEEP := 0], map[]), true)
  {
    NamesAreKept();
    OneMarkerPruned(DEEP);
    assert OutsideOf(map[], DEEP) == map[];
  }

  lemma SecondMark()
    ensures AfterMark(Markers(map[DEEP := 0], map[]), TOP, 0) == (Markers(map[TOP := 0], map[]), true)
  {
    NamesAreKept();
    OneMarkerPruned(DEEP);
    assert Covers(TOP, DEEP) && !Covers(DEEP, TOP);
    assert OutsideOf(map[DEEP := 0], TOP) == map[];
  }

  lemma LatePromotion()
    ensures AfterPromote(Markers(map[TOP := 0], map[]), DEEP, {TOP}, 0) == (Markers(map[MIDDLE := 0], map[]), MIDDLE)
  {
    NamesAreKept();
    OneMarkerPruned(TOP);
    assert DEEP[..1] == TOP && DEEP[..2] == MIDDLE;
    assert ShallowestMissing({TOP}, DEEP, 1) == ShallowestMissing({TOP}, DEEP, 2) == MIDDLE;
    assert Covers(TOP, MIDDLE);
    assert Unrelated(map[TOP := 0], MIDDLE) == map[];
  }

  lemma EarlyStep(i: nat)
    requires i < 4
    ensures Enabled(LOSING_STATES[i], LOSING_STEPS[i])
    ensures LOSING_STATES[i + 1] == Do(LOSING_STATES[i], LOSING_STEPS[i])
  {
    if i == 0 {
      OneMarkerPruned(DEEP);
      FirstMark();
    } else if i == 1 {
      OneMarkerPruned(DEEP);
    } else if i == 2 {
      OneMarkerPruned(DEEP);
      SecondMark();
    } else {
      OneMarkerPruned(TOP);
      LatePromotion();
    }
  }

  lemma LateStep(i: nat)
    requires 4 <= i < |LOSING_STEPS|
    ensures Enabled(LOSING_STATES[i], LOSING_STEPS[i])
    ensures LOSING_STATES[i + 1] == Do(LOSING_STATES[i], LOSING_STEPS[i])
  {
    OneMarkerPruned(MIDDLE);
  }

  /**
   With the check and the promotion in separate sections the property fails: a delete of "a" that
   arrives between them is narrowed away to "a/b".  All tasks finish and "a" is never deleted.
  */
  lemma SplitPromotionLosesADelete()
    ensures AnyRun(LOSING_STATES, LOSING_STEPS)
    ensures var final := LOSING_STATES[|LOSING_STEPS|];
            && TOP in final.owed && !Accounted(final, TOP)
            && forall t :: 0 <= t < |final.tasks| ==> final.tasks[t].phase == Finished
  {
    forall i | 0 <= i < |LOSING_STEPS|
      ensures Enabled(LOSING_STATES[i], LOSING_STEPS[i])
      ensures LOSING_STATES[i + 1] == Do(LOSING_STATES[i], LOSING_STEPS[i])
    {
      if i < 4 {
        EarlyStep(i);
      } else {
        LateStep(i);
      }
    }
    assert !Covers(MIDDLE, TOP);
  }
}
