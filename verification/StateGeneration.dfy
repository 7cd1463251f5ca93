/**
 The generation guard of the mobile model: native calls run one after another on a serial queue,
 and a snapshot that comes back in the background is applied only if no newer call has made it
 stale.
*/
module StateGeneration {

  const GENERATION_LIMIT: nat := 0x1_0000_0000_0000_0000

  /** A background call: its place on the serial queue and the generation it captured. */
  datatype Waiting = Waiting(ticket: nat, generation: nat)

  /**
   generation counts all bumps; the field in the source holds it modulo 2^64.  queued counts the
   native calls put on the serial queue, waiting holds the background calls whose continuation has
   not run, in queue order, and applied lists the calls whose snapshots were applied.
  */
  datatype Model = Model(generation: nat, queued: nat, waiting: seq<Waiting>, applied: seq<nat>, logouts: nat)

  datatype Step =
    | Dispatch                              // dispatch and refresh: bump, call, apply
    | DispatchInBackground(invalidate: bool)
    | RefreshInBackground
    | ClearForLogout                        // the interface part of logout
    | LogoutTask                            // its task, which invalidates and dispatches
    | Resume(cancelled: bool)               // the oldest continuation runs
    | Reset                                 // resetLocalState and load: apply without a bump

  const START := Model(0, 0, [], [], 0)

  predicate Enabled(m: Model, step: Step) {
    match step
    case LogoutTask => m.logouts > 0
    case Resume(_) => m.waiting != []
    case Dispatch => true
    case DispatchInBackground(_) => true
    case RefreshInBackground => true
    case ClearForLogout => true
    case Reset => true
  }

  predicate SameGeneration(a: nat, b: nat) {
    a % GENERATION_LIMIT == b % GENERATION_LIMIT
  }

  function Queue(m: Model): Model {
    m.(queued := m.queued + 1, waiting := m.waiting + [Waiting(m.queued, m.generation)])
  }

  function Bump(m: Model): Model {
    m.(generation := m.generation + 1)
  }

  function CallNow(m: Model): Model {
    m.(queued := m.queued + 1, applied := m.applied + [m.queued])
  }

  function Do(m: Model, step: Step): Model
    requires Enabled(m, step)
  {
    match step
    case Dispatch => CallNow(Bump(m))
    case DispatchInBackground(invalidate) => Queue(if invalidate then Bump(m) else m)
    case RefreshInBackground => Queue(m)
    case ClearForLogout => Bump(m).(logouts := m.logouts + 1)
    case LogoutTask => Queue(Bump(m)).(logouts := m.logouts - 1)
    case Resume(cancelled) =>
      var w := m.waiting[0];
      var rest := m.(waiting := m.waiting[1..]);
      if !cancelled && SameGeneration(w.generation, m.generation)
      then rest.(applied := m.applied + [w.ticket]) else rest
    case Reset => CallNow(m)
  }

  // ---------------------------------------------------------------------------------------------
  // Monotone snapshots
  // ---------------------------------------------------------------------------------------------

  predicate Increasing(tickets: seq<nat>) {
    forall i, j :: 0 <= i < j < |tickets| ==> tickets[i] < tickets[j]
  }

  /** A waiting call that would still be applied was queued after everything applied so far. */
  predicate NotOvertaken(m: Model) {
    forall i, k :: 0 <= i < |m.waiting| && 0 <= k < |m.applied| && m.waiting[i].generation == m.generation ==>
      m.applied[k] < m.waiting[i].ticket
  }

  predicate InOrder(m: Model) {
    && Increasing(m.applied) && (forall k :: 0 <= k < |m.applied| ==> m.applied[k] < m.queued)
    && (forall i, j :: 0 <= i < j < |m.waiting| ==> m.waiting[i].ticket < m.waiting[j].ticket)
    && (forall i :: 0 <= i < |m.waiting| ==> m.waiting[i].ticket < m.queued && m.waiting[i].generation <= m.generation)
    && NotOvertaken(m)
  }

  predicate WouldBeOvertaken(m: Model) {
    exists i :: 0 <= i < |m.waiting| && m.waiting[i].generation == m.generation
  }

  lemma BumpKeepsOrder(m: Model)
    requires InOrder(m)
    ensures InOrder(Bump(m)) && !WouldBeOvertaken(Bump(m))
  {
  }

  lemma QueueKeepsOrder(m: Model)
    requires InOrder(m)
    ensures InOrder(Queue(m))
  {
  }

  lemma CallKeepsOrder(m: Model)
    requires InOrder(m) && !WouldBeOvertaken(m)
    ensures InOrder(CallNow(m))
  {
  }

  lemma ResumeKeepsOrder(m: Model, cancelled: bool)
    requires InOrder(m) && m.waiting != [] && m.generation < GENERATION_LIMIT
    ensures InOrder(Do(m, Resume(cancelled)))
  {
    // below the limit, comparing modulo 2^64 is comparing
    assert SameGeneration(m.waiting[0].generation, m.generation) <==> m.waiting[0].generation == m.generation;
  }

  lemma StepKeepsOrder(m: Model, step: Step)
    requires InOrder(m) && Enabled(m, step) && m.generation + 1 < GENERATION_LIMIT
    requires step.Reset? ==> !WouldBeOvertaken(m)
    ensures InOrder(Do(m, step))
  {
    BumpKeepsOrder(m);
    match step
    case Dispatch => CallKeepsOrder(Bump(m));
    case DispatchInBackground(invalidate) => QueueKeepsOrder(if invalidate then Bump(m) else m);
    case RefreshInBackground => QueueKeepsOrder(m);
    case ClearForLogout =>
    case LogoutTask => QueueKeepsOrder(Bump(m));
    case Resume(cancelled) => ResumeKeepsOrder(m, cancelled);
    case Reset => CallKeepsOrder(m);
  }

  /** Applying without a bump keeps the order exactly when no call of this generation is waiting. */
  lemma ResetKeepsOrderIff(m: Model)
    requires InOrder(m)
    ensures InOrder(Do(m, Reset)) <==> !WouldBeOvertaken(m)
  {
    var after := Do(m, Reset);
    assert after.applied[|m.applied|] == m.queued;
    if WouldBeOvertaken(m) {
      var i :| 0 <= i < |m.waiting| && m.waiting[i].generation == m.generation;
      assert after.waiting[i].ticket < after.applied[|m.applied|];
    }
  }

  /** The oldest k continuations run, none of them cancelled. */
  function ResumeAll(m: Model, k: nat): Model
    requires k <= |m.waiting|
    decreases k
  {
    if k == 0 then m else ResumeAll(Do(m, Resume(false)), k - 1)
  }

  lemma {:induction false} ResumeAllKeepsOrder(m: Model, k: nat)
    requires InOrder(m) && k <= |m.waiting| && m.generation < GENERATION_LIMIT
    ensures InOrder(ResumeAll(m, k))
    decreases k
  {
    if k > 0 {
      ResumeKeepsOrder(m, false);
      ResumeAllKeepsOrder(Do(m, Resume(false)), k - 1);
    }
  }

  /** A current call queued before an applied one is applied after it. */
  lemma {:induction false} OvertakenIsApplied(m: Model, i: nat, a: nat)
    requires i < |m.waiting| && m.waiting[i].generation == m.generation
    requires a < |m.applied| && m.applied[a] > m.waiting[i].ticket
    ensures !Increasing(ResumeAll(m, i + 1).applied)
    decreases i
  {
    var next := Do(m, Resume(false));
    if i == 0 {
      assert next.applied == m.applied + [m.waiting[0].ticket];
      assert next.applied[a] == m.applied[a] && next.applied[|m.applied|] == m.waiting[0].ticket;
      assert ResumeAll(next, 0) == next;
    } else {
      assert next.waiting[i - 1] == m.waiting[i] && next.applied[a] == m.applied[a];
      OvertakenIsApplied(next, i - 1, a);
    }
  }

  ghost predicate InvertedLater(m: Model) {
    exists k: nat :: k <= |m.waiting| && !Increasing(ResumeAll(m, k).applied)
  }

  /**
   After a reset some of the waiting continuations, run in their order, apply an older snapshot over
   a newer one exactly when a call of this generation was waiting.
  */
  lemma ResetInvertsIff(m: Model)
    requires InOrder(m) && m.generation < GENERATION_LIMIT
    ensures InvertedLater(Do(m, Reset)) <==> WouldBeOvertaken(m)
  {
    var after := Do(m, Reset);
    if WouldBeOvertaken(m) {
      var i :| 0 <= i < |m.waiting| && m.waiting[i].generation == m.generation;
      assert after.applied[|m.applied|] == m.queued && after.waiting == m.waiting;
      OvertakenIsApplied(after, i, |m.applied|);
    } else {
      ResetKeepsOrderIff(m);
      forall k: nat | k <= |after.waiting| ensures Increasing(ResumeAll(after, k).applied) {
        ResumeAllKeepsOrder(after, k);
      }
    }
  }

  predicate Run(models: seq<Model>, steps: seq<Step>) {
    && |models| == |steps| + 1 && models[0] == START
    && forall i :: 0 <= i < |steps| ==> Enabled(models[i], steps[i]) && models[i + 1] == Do(models[i], steps[i])
  }

  /** No reset overtakes a waiting call, and the counter does not wrap. */
  predicate Guarded(models: seq<Model>, steps: seq<Step>)
    requires Run(models, steps)
  {
    forall i :: 0 <= i < |steps| ==>
      models[i].generation + 1 < GENERATION_LIMIT && (steps[i].Reset? ==> !WouldBeOvertaken(models[i]))
  }

  lemma {:induction false} RunKeepsOrder(models: seq<Model>, steps: seq<Step>, n: nat)
    requires Run(models, steps) && Guarded(models, steps) && n < |models|
    ensures InOrder(models[n])
  {
    if n > 0 {
      RunKeepsOrder(models, steps, n - 1);
      StepKeepsOrder(models[n - 1], steps[n - 1]);
    }
  }

  /** Each applied snapshot comes from a later native call than every snapshot applied before it. */
  lemma SnapshotsAreMonotone(models: seq<Model>, steps: seq<Step>, n: nat, i: nat, j: nat)
    requires Run(models, steps) && Guarded(models, steps) && n < |models|
    requires i < j < |models[n].applied|
    ensures models[n].applied[i] < models[n].applied[j]
  {
    RunKeepsOrder(models, steps, n);
  }

  // ---------------------------------------------------------------------------------------------
  // At rest the newest snapshot is shown
  // ---------------------------------------------------------------------------------------------

  /** The last call queued was applied, or still waits and is not stale. */
  predicate NewestIsComing(m: Model) {
    m.queued > 0 && m.logouts == 0 ==>
      || (m.waiting != [] && m.waiting[|m.waiting| - 1] == Waiting(m.queued - 1, m.generation))
      || (m.applied != [] && m.applied[|m.applied| - 1] == m.queued - 1)
  }

  lemma StepKeepsNewest(m: Model, step: Step)
    requires InOrder(m) && NewestIsComing(m) && Enabled(m, step) && !(step.Resume? && step.cancelled)
    requires m.generation + 1 < GENERATION_LIMIT
    ensures NewestIsComing(Do(m, step))
  {
    if step.Resume? {
      // below the limit, comparing modulo 2^64 is comparing
      assert SameGeneration(m.waiting[0].generation, m.generation) <==> m.waiting[0].generation == m.generation;
    }
    if step.Resume? && m.queued > 0 && m.logouts == 0 {
      if |m.waiting| > 1 {
        assert m.waiting[1..][|m.waiting| - 2] == m.waiting[|m.waiting| - 1];
      }
    }
  }

  lemma {:induction false} RunKeepsNewest(models: seq<Model>, steps: seq<Step>, n: nat)
    requires Run(models, steps) && Guarded(models, steps) && n < |models|
    requires forall i :: 0 <= i < |steps| ==> !(steps[i].Resume? && steps[i].cancelled)
    ensures NewestIsComing(models[n])
  {
    if n > 0 {
      RunKeepsOrder(models, steps, n - 1);
      RunKeepsNewest(models, steps, n - 1);
      StepKeepsNewest(models[n - 1], steps[n - 1]);
    }
  }

  /** With nothing cancelled, once nothing is waiting the last applied call is the last one queued. */
  lemma NewestIsShownAtRest(models: seq<Model>, steps: seq<Step>, n: nat)
    requires Run(models, steps) && Guarded(models, steps) && n < |models|
    requires forall i :: 0 <= i < |steps| ==> !(steps[i].Resume? && steps[i].cancelled)
    requires models[n].waiting == [] && models[n].logouts == 0 && models[n].queued > 0
    ensures models[n].applied != [] && models[n].applied[|models[n].applied| - 1] == models[n].queued - 1
  {
    RunKeepsNewest(models, steps, n);
  }

  // ---------------------------------------------------------------------------------------------
  // Which background calls are applied
  // ---------------------------------------------------------------------------------------------

  /** Steps after which earlier background calls count as stale. */
  predicate Invalidates(step: Step) {
    step.Dispatch? || step.ClearForLogout? || step.LogoutTask? || (step.DispatchInBackground? && step.invalidate)
  }

  predicate QueuesACall(step: Step) {
    step.RefreshInBackground? || step.DispatchInBackground? || step.LogoutTask?
  }

  predicate NoneInvalidates(steps: seq<Step>, i: nat, n: nat) {
    forall k :: i <= k < n && k < |steps| ==> !Invalidates(steps[k])
  }

  lemma {:induction false} GenerationGrows(models: seq<Model>, steps: seq<Step>, i: nat, n: nat)
    requires Run(models, steps) && i <= n < |models|
    ensures models[i].generation <= models[n].generation
    ensures models[i].generation == models[n].generation <==> NoneInvalidates(steps, i, n)
    decreases n
  {
    if i < n {
      GenerationGrows(models, steps, i, n - 1);
      assert models[n] == Do(models[n - 1], steps[n - 1]);
    }
  }

  lemma {:induction false} TicketsAreOld(models: seq<Model>, steps: seq<Step>, n: nat)
    requires Run(models, steps) && n < |models|
    ensures forall j :: 0 <= j < |models[n].waiting| ==> models[n].waiting[j].ticket < models[n].queued
  {
    if n > 0 {
      TicketsAreOld(models, steps, n - 1);
      assert models[n] == Do(models[n - 1], steps[n - 1]);
    }
  }

  /** The call queued by step i keeps the generation it captured for as long as it waits. */
  lemma {:induction false} GenerationIsKept(models: seq<Model>, steps: seq<Step>, i: nat, n: nat)
    requires Run(models, steps) && i < n < |models| && QueuesACall(steps[i])
    ensures models[i].queued < models[n].queued
    ensures forall j :: 0 <= j < |models[n].waiting| && models[n].waiting[j].ticket == models[i].queued ==>
              models[n].waiting[j].generation == models[i + 1].generation
    decreases n
  {
    assert models[n] == Do(models[n - 1], steps[n - 1]);
    if n == i + 1 {
      TicketsAreOld(models, steps, i);
    } else {
      GenerationIsKept(models, steps, i, n - 1);
    }
  }

  /**
   The snapshot of a background call is applied when its continuation runs exactly when it was not
   cancelled and since it was queued nothing invalidated it: no call made at once, no invalidating
   call in the background, and neither part of a logout.
  */
  lemma AppliedIff(models: seq<Model>, steps: seq<Step>, i: nat, n: nat)
    requires Run(models, steps) && i < n < |steps| && QueuesACall(steps[i])
    requires steps[n].Resume? && models[n].waiting[0].ticket == models[i].queued
    requires models[n].generation < GENERATION_LIMIT
    ensures models[n + 1].applied
            == if !steps[n].cancelled && NoneInvalidates(steps, i + 1, n)
               then models[n].applied + [models[i].queued] else models[n].applied
  {
    GenerationIsKept(models, steps, i, n);
    GenerationGrows(models, steps, i + 1, n);
    // below the limit, comparing modulo 2^64 is comparing
    assert SameGeneration(models[n].waiting[0].generation, models[n].generation) <==>
           models[n].waiting[0].generation == models[n].generation;
  }

  /** A reset while a refresh is on its way lets the older snapshot replace the newer one. */
  lemma ResetCanBeOvertaken()
    ensures var m1 := Do(START, RefreshInBackground);
            var m2 := Do(m1, Reset);
            Do(m2, Resume(false)).applied == [1, 0]
  {
    var m1 := Do(START, RefreshInBackground);
    assert m1.waiting == [Waiting(0, 0)];
    var m2 := Do(m1, Reset);
    assert m2.applied == [1] && m2.waiting == [Waiting(0, 0)];
  }

  // ---------------------------------------------------------------------------------------------
  // The model object
  // ---------------------------------------------------------------------------------------------

  class MobileModel {
    var stateGeneration: nat    // modulo 2^64
    ghost var bumps: nat
    var queued: nat
    var waiting: seq<(nat, nat)>   // tickets with the captured generation, modulo 2^64
    ghost var captured: seq<nat>
    var applied: seq<nat>
    var logouts: nat

    ghost predicate Valid()
      reads this
    {
      && stateGeneration == bumps % GENERATION_LIMIT
      && |captured| == |waiting|
      && forall i :: 0 <= i < |waiting| ==> waiting[i].1 == captured[i] % GENERATION_LIMIT
    }

    ghost function State(): Model
      requires Valid()
      reads this
    {
      Model(bumps, queued, seq(|waiting|, i requires 0 <= i < |waiting| reads this requires Valid() => Waiting(waiting[i].0, captured[i])), applied, logouts)
    }

    constructor ()
      ensures Valid() && State() == START
    {
      stateGeneration, bumps, queued, waiting, captured, applied, logouts := 0, 0, 0, [], [], [], 0;
    }

    method BumpGeneration()
      requires Valid()
      modifies `stateGeneration, `bumps
      ensures Valid() && State() == Bump(old(State()))
    {
      stateGeneration := (stateGeneration + 1) % GENERATION_LIMIT;
      bumps := bumps + 1;
    }

    method RunNativeInBackground()
      requires Valid()
      modifies `queued, `waiting, `captured
      ensures Valid() && State() == Queue(old(State()))
    {
      waiting := waiting + [(queued, stateGeneration)];
      captured := captured + [bumps];
      queued := queued + 1;
    }

    method RunNativeAndApply()
      requires Valid()
      modifies `queued, `applied
      ensures Valid() && State() == CallNow(old(State()))
    {
      applied := applied + [queued];
      queued := queued + 1;
    }

    method DispatchAction()
      requires Valid()
      modifies this
      ensures Valid() && State() == Do(old(State()), Dispatch)
    {
      BumpGeneration();
      RunNativeAndApply();
    }

    method DispatchActionInBackground(invalidatePendingState: bool)
      requires Valid()
      modifies this
      ensures Valid() && State() == Do(old(State()), DispatchInBackground(invalidatePendingState))
    {
      if invalidatePendingState {
        BumpGeneration();
      }
      RunNativeInBackground();
    }

    method Logout()
      requires Valid()
      modifies this
      ensures Valid() && State() == Do(old(State()), ClearForLogout)
    {
      BumpGeneration();
      logouts := logouts + 1;
    }

    method RunLogoutTask()
      requires Valid() && logouts > 0
      modifies this
      ensures Valid() && State() == Do(old(State()), LogoutTask)
    {
      DispatchActionInBackground(true);
      logouts := logouts - 1;
    }

    /** resetLocalState and load: the snapshot is applied, the generation stays. */
    method ResetLocalState()
      requires Valid()
      modifies this
      ensures Valid() && State() == Do(old(State()), Reset)
    {
      RunNativeAndApply();
    }

    /** The guard after the await. */
    method ResumeOldest(cancelled: bool)
      requires Valid() && waiting != []
      modifies this
      ensures Valid() && State() == Do(old(State()), Resume(cancelled))
    {
      var (ticket, generation) := waiting[0];
      waiting := waiting[1..];
      captured := captured[1..];
      if cancelled || generation != stateGeneration {
        return;
      }
      applied := applied + [ticket];
    }
  }
}
