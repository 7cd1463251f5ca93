/** The relay never gets stuck: what is queued or being broadcast comes to an end in every order of steps. */
module RelayProgress {
  import opened Wrappers
  import opened Filters
  import opened Relay

  // ---------------------------------------------------------------------------------------------
  // Nothing waits without cause
  // ---------------------------------------------------------------------------------------------

  predicate Awaits(h: Handler) {
    h.AwaitingDelivery? || h.AwaitingOwn?
  }

  predicate OwnsJob(conn: Connection, owner: ConnId) {
    exists i :: 0 <= i < |conn.queue| && conn.queue[i].owner == owner
  }

  predicate JobSomewhere(s: State, owner: ConnId) {
    exists k :: k in s.conns && OwnsJob(s.conns[k], owner)
  }

  predicate NoEmptyJob(queue: seq<Job>) {
    forall i :: 0 <= i < |queue| ==> queue[i].frames != []
  }

  /** Queued jobs have frames, broadcasts are of recorded events, and a waiting handler has a job queued. */
  ghost predicate Sound(s: State) {
    && |s.pending| == |s.events|
    && (forall k :: k in s.conns ==> NoEmptyJob(s.conns[k].queue))
    && (forall h :: h in s.conns && s.conns[h].handler.Broadcasting? ==> s.conns[h].handler.n < |s.pending|)
    && (forall h :: h in s.conns && s.conns[h].handler.AwaitingDelivery? ==> s.conns[h].handler.n < |s.pending|)
    && forall h :: h in s.conns && Awaits(s.conns[h].handler) ==> JobSomewhere(s, h)
  }

  /** A step that goes on with what is queued or being broadcast. */
  predicate GoesOn(step: Step) {
    step.Write? || step.Deliver? || step.Fail?
  }

  ghost predicate Stuck(s: State) {
    forall step :: GoesOn(step) ==> !Enabled(s, step)
  }

  ghost predicate Quiet(s: State) {
    forall k :: k in s.conns ==> s.conns[k].queue == [] && (s.conns[k].handler.Ready? || s.conns[k].handler.Gone?)
  }

  /** Only a relay that has nothing left to do cannot go on. */
  lemma StuckIsQuiet(s: State)
    requires Sound(s) && Stuck(s)
    ensures Quiet(s)
  {
    forall k | k in s.conns ensures s.conns[k].queue == [] {
      assert !Enabled(s, Write(k)) && !Enabled(s, Fail(k));
    }
    forall k | k in s.conns ensures s.conns[k].handler.Ready? || s.conns[k].handler.Gone? {
      assert !Enabled(s, Deliver(k));
      assert !JobSomewhere(s, k);
    }
  }

  lemma JobStays(s: State, s': State, owner: ConnId)
    requires JobSomewhere(s, owner)
    requires forall k :: k in s.conns && OwnsJob(s.conns[k], owner) ==> k in s'.conns && OwnsJob(s'.conns[k], owner)
    ensures JobSomewhere(s', owner)
  {
    var k :| k in s.conns && OwnsJob(s.conns[k], owner);
    assert k in s'.conns && OwnsJob(s'.conns[k], owner);
  }

  lemma QueuedJob(conn: Connection, job: Job, owner: ConnId)
    ensures OwnsJob(conn.(queue := conn.queue + [job]), owner) <==> OwnsJob(conn, owner) || job.owner == owner
  {
    var longer := conn.queue + [job];
    assert longer[|conn.queue|] == job;
    if i :| 0 <= i < |conn.queue| && conn.queue[i].owner == owner {
      assert longer[i].owner == owner;
    }
  }

  lemma EnqueueIsSound(s: State, c: ConnId, job: Job, waiting: ConnId, h: Handler)
    requires Sound(s) && c in s.conns && waiting in s.conns && job.frames != [] && job.owner == waiting
    requires h.AwaitingOwn? || (h.AwaitingDelivery? && h.n < |s.pending|)
    ensures Sound(SetHandler(Enqueue(s, c, job), waiting, h))
  {
    var next := SetHandler(Enqueue(s, c, job), waiting, h);
    QueuedJob(s.conns[c], job, waiting);
    assert OwnsJob(next.conns[c], waiting);
    forall k | k in next.conns && Awaits(next.conns[k].handler) ensures JobSomewhere(next, k) {
      if k != waiting {
        forall x | x in s.conns && OwnsJob(s.conns[x], k) ensures OwnsJob(next.conns[x], k) {
          QueuedJob(s.conns[c], job, k);
        }
        JobStays(s, next, k);
      }
    }
  }

  lemma CalmHandlerIsSound(s: State, c: ConnId, h: Handler)
    requires Sound(s) && c in s.conns && !Awaits(h) && (h.Broadcasting? ==> h.n < |s.pending|)
    ensures Sound(SetHandler(s, c, h))
  {
    var next := SetHandler(s, c, h);
    forall k | k in next.conns && Awaits(next.conns[k].handler) ensures JobSomewhere(next, k) {
      JobStays(s, next, k);
    }
  }

  lemma DroppedJob(conn: Connection, owner: ConnId)
    requires conn.queue != [] && conn.queue[0].owner != owner && OwnsJob(conn, owner)
    ensures OwnsJob(conn.(queue := conn.queue[1..]), owner)
  {
    var i :| 0 <= i < |conn.queue| && conn.queue[i].owner == owner;
    assert conn.queue[1..][i - 1] == conn.queue[i];
  }

  function Popped(s: State, c: ConnId, wire: seq<Frame>): State
    requires c in s.conns && s.conns[c].queue != []
  {
    s.(conns := s.conns[c := s.conns[c].(wire := wire, queue := s.conns[c].queue[1..])])
  }

  lemma OthersKeepTheirJob(s: State, c: ConnId, wire: seq<Frame>, k: ConnId)
    requires c in s.conns && s.conns[c].queue != [] && s.conns[c].queue[0].owner != k && JobSomewhere(s, k)
    ensures JobSomewhere(Popped(s, c, wire), k)
  {
    var popped := Popped(s, c, wire);
    forall x | x in s.conns && OwnsJob(s.conns[x], k) ensures OwnsJob(popped.conns[x], k) {
      if x == c {
        DroppedJob(s.conns[c], k);
      }
    }
    JobStays(s, popped, k);
  }

  lemma ResumeKeepsJobs(s: State, owner: ConnId, delivered: bool)
    ensures var next := Resume(s, owner, delivered);
            && next.conns.Keys == s.conns.Keys && next.pending == s.pending && next.events == s.events
            && (forall k :: k in s.conns ==> next.conns[k].queue == s.conns[k].queue)
            && (forall k :: k in s.conns && k != owner ==> next.conns[k].handler == s.conns[k].handler)
            && (owner in s.conns ==> !Awaits(next.conns[owner].handler))
            && (owner in s.conns && next.conns[owner].handler.Broadcasting? ==>
                  s.conns[owner].handler == next.conns[owner].handler
                  || s.conns[owner].handler == AwaitingDelivery(next.conns[owner].handler.n))
  {
  }

  /** The first job of a connection leaves, and the handler it belongs to goes on. */
  lemma ResumeIsSound(s: State, c: ConnId, wire: seq<Frame>, delivered: bool)
    requires Sound(s) && c in s.conns && s.conns[c].queue != []
    ensures Sound(Resume(Popped(s, c, wire), s.conns[c].queue[0].owner, delivered))
  {
    var owner := s.conns[c].queue[0].owner;
    var popped := Popped(s, c, wire);
    var next := Resume(popped, owner, delivered);
    ResumeKeepsJobs(popped, owner, delivered);
    forall k | k in next.conns && Awaits(next.conns[k].handler) ensures JobSomewhere(next, k) {
      OthersKeepTheirJob(s, c, wire, k);
      JobStays(popped, next, k);
    }
    forall k | k in next.conns ensures NoEmptyJob(next.conns[k].queue) {
      assert NoEmptyJob(s.conns[k].queue);
    }
  }

  lemma WriteIsSound(s: State, c: ConnId)
    requires Sound(s) && Enabled(s, Write(c))
    ensures Sound(Do(s, Write(c)))
  {
    var conn := s.conns[c];
    var job := conn.queue[0];
    if |job.frames| == 1 {
      ResumeIsSound(s, c, conn.wire + [job.frames[0]], true);
    } else {
      var next := Do(s, Write(c));
      assert next.conns[c].queue[0].owner == job.owner;
      forall k | k in next.conns && Awaits(next.conns[k].handler) ensures JobSomewhere(next, k) {
        forall x | x in s.conns && OwnsJob(s.conns[x], k) ensures OwnsJob(next.conns[x], k) {
          var i :| 0 <= i < |s.conns[x].queue| && s.conns[x].queue[i].owner == k;
          assert next.conns[x].queue[i].owner == k;
        }
        JobStays(s, next, k);
      }
    }
  }

  lemma DeliverIsSound(s: State, c: ConnId)
    requires Sound(s) && Enabled(s, Deliver(c))
    ensures Sound(Do(s, Deliver(c)))
  {
    var n := s.conns[c].handler.n;
    if s.pending[n] == [] {
      if c in s.open {
        EnqueueIsSound(s, c, Job([OkFrame(n)], c), c, AwaitingOwn);
      } else {
        CalmHandlerIsSound(s, c, Gone);
      }
    } else {
      var (target, sub) := s.pending[n][0];
      var popped := s.(pending := s.pending[n := s.pending[n][1..]]);
      forall k | k in popped.conns && Awaits(popped.conns[k].handler) ensures JobSomewhere(popped, k) {
        JobStays(s, popped, k);
      }
      if target in s.open && target in s.conns {
        EnqueueIsSound(popped, target, Job([EventFrame(sub, n)], c), c, AwaitingDelivery(n));
      }
    }
  }

  lemma RequestIsSound(s: State, step: Step)
    requires Sound(s) && step.Request? && Enabled(s, step)
    ensures Sound(Do(s, step))
  {
    var c := step.c;
    var subscribed := s.(conns := s.conns[c := s.conns[c].(subs := s.conns[c].subs[step.sub := step.filters])]);
    forall k | k in subscribed.conns && Awaits(subscribed.conns[k].handler) ensures JobSomewhere(subscribed, k) {
      JobStays(s, subscribed, k);
    }
    if c in s.open {
      EnqueueIsSound(subscribed, c, Job(Replay(s.events, |s.events|, step.sub, step.filters) + [Eose(step.sub)], c), c, AwaitingOwn);
    } else {
      CalmHandlerIsSound(subscribed, c, Gone);
    }
  }

  lemma OtherIsSound(s: State, step: Step)
    requires Sound(s) && Enabled(s, step) && (step.Accept? || step.Publish? || step.CloseSub? || step.Disconnect?)
    ensures Sound(Do(s, step))
  {
    var next := Do(s, step);
    forall k | k in next.conns && Awaits(next.conns[k].handler) ensures JobSomewhere(next, k) {
      JobStays(s, next, k);
    }
  }

  lemma {:induction false} RunIsSound(states: seq<State>, steps: seq<Step>, n: nat)
    requires Run(states, steps) && n < |states|
    ensures Sound(states[n])
  {
    if n > 0 {
      RunIsSound(states, steps, n - 1);
      var s, step := states[n - 1], steps[n - 1];
      assert states[n] == Do(s, step);
      match step
      case Write(c) => WriteIsSound(s, c);
      case Deliver(c) => DeliverIsSound(s, c);
      case Request(_, _, _) => RequestIsSound(s, step);
      case Fail(c) => ResumeIsSound(s, c, s.conns[c].wire, false);
      case Accept(_) => OtherIsSound(s, step);
      case Publish(_, _, _) => OtherIsSound(s, step);
      case CloseSub(_, _) => OtherIsSound(s, step);
      case Disconnect(_) => OtherIsSound(s, step);
    }
  }

  /** In every run, unless everything is written and every handler ready or gone, some step goes on. */
  lemma NoDeadlock(states: seq<State>, steps: seq<Step>, n: nat)
    requires Run(states, steps) && n < |states|
    ensures Stuck(states[n]) ==> Quiet(states[n])
  {
    RunIsSound(states, steps, n);
    if Stuck(states[n]) {
      StuckIsQuiet(states[n]);
    }
  }

  // ---------------------------------------------------------------------------------------------
  // Going on comes to an end
  // ---------------------------------------------------------------------------------------------

  function FramesIn(queue: seq<Job>): nat {
    if queue == [] then 0 else |queue[0].frames| + FramesIn(queue[1..])
  }

  function HandlerLoad(h: Handler): nat {
    if h.Broadcasting? || h.AwaitingDelivery? then 2 else 0
  }

  /** What one connection has left to do. */
  function Load(conn: Connection): nat {
    FramesIn(conn.queue) + HandlerLoad(conn.handler)
  }

  function Loads(conns: map<ConnId, Connection>, ids: seq<ConnId>): nat
    requires forall c :: c in ids ==> c in conns
  {
    if ids == [] then 0 else Load(conns[ids[0]]) + Loads(conns, ids[1..])
  }

  function Undelivered(pending: seq<seq<(ConnId, SubId)>>): nat {
    if pending == [] then 0 else |pending[0]| + Undelivered(pending[1..])
  }

  /** ids names every connection once. */
  ghost predicate Lists(ids: seq<ConnId>, s: State) {
    Enumerates(ids, s.conns.Keys)
  }

  /** What is left to do altogether. */
  function Work(s: State, ids: seq<ConnId>): nat
    requires forall c :: c in ids ==> c in s.conns
  {
    2 * Undelivered(s.pending) + Loads(s.conns, ids)
  }

  lemma {:induction false} SameLoads(a: map<ConnId, Connection>, b: map<ConnId, Connection>, ids: seq<ConnId>)
    requires forall c :: c in ids ==> c in a && c in b && Load(a[c]) == Load(b[c])
    ensures Loads(a, ids) == Loads(b, ids)
  {
    if ids != [] {
      assert ids[0] in ids && forall c :: c in ids[1..] ==> c in ids;
      SameLoads(a, b, ids[1..]);
    }
  }

  lemma {:induction false} LoadChanges(conns: map<ConnId, Connection>, ids: seq<ConnId>, c: ConnId, conn: Connection)
    requires (forall k :: k in ids ==> k in conns) && c in ids
    requires forall i, j :: 0 <= i < j < |ids| ==> ids[i] != ids[j]
    ensures Loads(conns[c := conn], ids) + Load(conns[c]) == Loads(conns, ids) + Load(conn)
  {
    var rest := ids[1..];
    assert ids == [ids[0]] + rest;
    if ids[0] == c {
      assert forall k :: k in rest ==> k != c;
      SameLoads(conns[c := conn], conns, rest);
    } else {
      LoadChanges(conns, rest, c, conn);
    }
  }

  lemma {:induction false} OneDelivered(pending: seq<seq<(ConnId, SubId)>>, n: nat)
    requires n < |pending| && pending[n] != []
    ensures Undelivered(pending[n := pending[n][1..]]) + 1 == Undelivered(pending)
  {
    var next := pending[n := pending[n][1..]];
    if n == 0 {
      assert next[1..] == pending[1..];
    } else {
      assert next[1..] == pending[1..][n - 1 := pending[1..][n - 1][1..]];
      OneDelivered(pending[1..], n - 1);
    }
  }

  lemma {:induction false} OneMoreJob(queue: seq<Job>, job: Job)
    ensures FramesIn(queue + [job]) == FramesIn(queue) + |job.frames|
  {
    if queue == [] {
      assert queue + [job] == [job];
    } else {
      assert (queue + [job])[1..] == queue[1..] + [job];
      OneMoreJob(queue[1..], job);
    }
  }

  lemma EnqueueLoad(s: State, ids: seq<ConnId>, c: ConnId, job: Job)
    requires Lists(ids, s) && c in s.conns
    ensures Work(Enqueue(s, c, job), ids) == Work(s, ids) + |job.frames|
  {
    OneMoreJob(s.conns[c].queue, job);
    LoadChanges(s.conns, ids, c, s.conns[c].(queue := s.conns[c].queue + [job]));
  }

  lemma HandlerChange(s: State, ids: seq<ConnId>, c: ConnId, h: Handler)
    requires Lists(ids, s) && c in s.conns
    ensures Work(SetHandler(s, c, h), ids) + HandlerLoad(s.conns[c].handler) == Work(s, ids) + HandlerLoad(h)
  {
    LoadChanges(s.conns, ids, c, s.conns[c].(handler := h));
  }

  lemma ResumeLoad(s: State, ids: seq<ConnId>, owner: ConnId, delivered: bool)
    requires Lists(ids, s)
    ensures Lists(ids, Resume(s, owner, delivered)) && Work(Resume(s, owner, delivered), ids) == Work(s, ids)
  {
    if owner in s.conns {
      match s.conns[owner].handler
      case AwaitingDelivery(n) => HandlerChange(s, ids, owner, Broadcasting(n));
      case AwaitingOwn => HandlerChange(s, ids, owner, if delivered then Ready else Gone);
      case Ready =>
      case Broadcasting(_) =>
      case Gone =>
    }
  }

  lemma PoppedLoad(s: State, ids: seq<ConnId>, c: ConnId, wire: seq<Frame>)
    requires Sound(s) && Lists(ids, s) && c in s.conns && s.conns[c].queue != []
    ensures Lists(ids, Popped(s, c, wire)) && Work(Popped(s, c, wire), ids) < Work(s, ids)
  {
    assert NoEmptyJob(s.conns[c].queue);
    LoadChanges(s.conns, ids, c, s.conns[c].(wire := wire, queue := s.conns[c].queue[1..]));
  }

  lemma WriteLessens(s: State, ids: seq<ConnId>, c: ConnId)
    requires Sound(s) && Lists(ids, s) && Enabled(s, Write(c))
    ensures Lists(ids, Do(s, Write(c))) && Work(Do(s, Write(c)), ids) < Work(s, ids)
  {
    var conn := s.conns[c];
    var job := conn.queue[0];
    var wire := conn.wire + [job.frames[0]];
    if |job.frames| == 1 {
      PoppedLoad(s, ids, c, wire);
      ResumeLoad(Popped(s, c, wire), ids, job.owner, true);
    } else {
      var queue := [job.(frames := job.frames[1..])] + conn.queue[1..];
      assert queue[1..] == conn.queue[1..];
      LoadChanges(s.conns, ids, c, conn.(wire := wire, queue := queue));
    }
  }

  lemma DeliverLessens(s: State, ids: seq<ConnId>, c: ConnId)
    requires Lists(ids, s) && Enabled(s, Deliver(c))
    ensures Lists(ids, Do(s, Deliver(c))) && Work(Do(s, Deliver(c)), ids) < Work(s, ids)
  {
    var n := s.conns[c].handler.n;
    if s.pending[n] == [] {
      if c in s.open {
        EnqueueLoad(s, ids, c, Job([OkFrame(n)], c));
        HandlerChange(Enqueue(s, c, Job([OkFrame(n)], c)), ids, c, AwaitingOwn);
      } else {
        HandlerChange(s, ids, c, Gone);
      }
    } else {
      var (target, sub) := s.pending[n][0];
      var popped := s.(pending := s.pending[n := s.pending[n][1..]]);
      OneDelivered(s.pending, n);
      if target in s.open && target in s.conns {
        EnqueueLoad(popped, ids, target, Job([EventFrame(sub, n)], c));
        HandlerChange(Enqueue(popped, target, Job([EventFrame(sub, n)], c)), ids, c, AwaitingDelivery(n));
      }
    }
  }

  /** A sequence of steps that only go on with what is there. */
  ghost predicate Continues(states: seq<State>, steps: seq<Step>) {
    && |states| == |steps| + 1
    && forall i :: 0 <= i < |steps| ==>
         GoesOn(steps[i]) && Enabled(states[i], steps[i]) && states[i + 1] == Do(states[i], steps[i])
  }

  lemma FirstStep(states: seq<State>, steps: seq<Step>)
    requires Continues(states, steps) && steps != []
    ensures GoesOn(steps[0]) && Enabled(states[0], steps[0]) && states[1] == Do(states[0], steps[0])
    ensures Continues(states[1..], steps[1..]) && states[1..][|steps| - 1] == states[|steps|]
  {
    forall i | 0 <= i < |steps[1..]|
      ensures GoesOn(steps[1..][i]) && Enabled(states[1..][i], steps[1..][i]) && states[1..][i + 1] == Do(states[1..][i], steps[1..][i])
    {
      assert steps[1..][i] == steps[i + 1] && states[1..][i] == states[i + 1] && states[1..][i + 1] == states[i + 2];
    }
  }

  lemma GoingOn(s: State, step: Step, ids: seq<ConnId>)
    requires Sound(s) && Lists(ids, s) && GoesOn(step) && Enabled(s, step)
    ensures Sound(Do(s, step)) && Lists(ids, Do(s, step)) && Work(Do(s, step), ids) < Work(s, ids)
  {
    match step
    case Write(c) =>
      WriteIsSound(s, c);
      WriteLessens(s, ids, c);
    case Deliver(c) =>
      DeliverIsSound(s, c);
      DeliverLessens(s, ids, c);
    case Fail(c) =>
      ResumeIsSound(s, c, s.conns[c].wire, false);
      PoppedLoad(s, ids, c, s.conns[c].wire);
      ResumeLoad(Popped(s, c, s.conns[c].wire), ids, s.conns[c].queue[0].owner, false);
  }

  /**
   With no new messages the relay comes to rest: in whatever order it goes on, it takes no more steps
   than there is work, and where it cannot go on everything is written and every handler ready or gone.
  */
  lemma {:induction false} ComesToRest(states: seq<State>, steps: seq<Step>, ids: seq<ConnId>)
    requires Continues(states, steps) && Sound(states[0]) && Lists(ids, states[0])
    ensures |steps| <= Work(states[0], ids)
    ensures Stuck(states[|steps|]) ==> Quiet(states[|steps|])
    decreases |steps|
  {
    if steps == [] {
      if Stuck(states[0]) {
        StuckIsQuiet(states[0]);
      }
    } else {
      FirstStep(states, steps);
      GoingOn(states[0], steps[0], ids);
      ComesToRest(states[1..], steps[1..], ids);
    }
  }

  /** So from every state of a run the relay comes to rest. */
  lemma EveryRunComesToRest(states: seq<State>, steps: seq<Step>, n: nat, later: seq<State>, more: seq<Step>, ids: seq<ConnId>)
    requires Run(states, steps) && n < |states|
    requires Continues(later, more) && later[0] == states[n] && Lists(ids, states[n])
    ensures |more| <= Work(states[n], ids)
    ensures Stuck(later[|more|]) ==> Quiet(later[|more|])
  {
    RunIsSound(states, steps, n);
    ComesToRest(later, more, ids);
  }

  // ---------------------------------------------------------------------------------------------
  // What handlers do next
  // ---------------------------------------------------------------------------------------------

  /**
   Connections come and go at any time, a ready handler and no other takes any message, and a frame is
   written only to an open connection.
  */
  lemma TakesAnything(s: State, c: ConnId)
    ensures Enabled(s, Write(c)) ==> c in s.open
    ensures Enabled(s, Fail(c)) ==> c !in s.open
    ensures forall sub, filters :: Enabled(s, Request(c, sub, filters)) ==> s.conns[c].handler.Ready?
    ensures forall sub :: Enabled(s, CloseSub(c, sub)) ==> s.conns[c].handler.Ready?
    ensures forall e, order :: Enabled(s, Publish(c, e, order)) ==> s.conns[c].handler.Ready?
    ensures c !in s.conns ==>
              && Enabled(s, Accept(c))
              && var next := Do(s, Accept(c));
                 c in next.open && c in next.conns && next.conns[c] == Connection(map[], [], [], Ready)
                 && forall k :: k in s.conns ==> k in next.conns && next.conns[k] == s.conns[k]
    ensures c in s.open ==> Enabled(s, Disconnect(c)) && c !in Do(s, Disconnect(c)).open
    ensures c in s.conns && s.conns[c].handler.Ready? ==>
              && (forall sub, filters :: Enabled(s, Request(c, sub, filters)))
              && (forall sub :: Enabled(s, CloseSub(c, sub)) && sub !in Do(s, CloseSub(c, sub)).conns[c].subs)
              && forall e, order :: Enumerates(order, Targets(s, e)) ==> Enabled(s, Publish(c, e, order))
  {
  }

  /**
   A broadcast goes on whether or not a delivery could be written; a handler whose own answer was
   written is ready for the next message, and one whose answer could not be written is gone.
  */
  lemma AnswerDecides(s: State, c: ConnId, owner: ConnId)
    requires c in s.conns && s.conns[c].queue != [] && s.conns[c].queue[0].owner == owner && owner in s.conns
    ensures Enabled(s, Write(c)) && |s.conns[c].queue[0].frames| == 1 ==>
              var h := Do(s, Write(c)).conns[owner].handler;
              && (s.conns[owner].handler.AwaitingOwn? ==> h == Ready)
              && (s.conns[owner].handler.AwaitingDelivery? ==> h == Broadcasting(s.conns[owner].handler.n))
    ensures Enabled(s, Fail(c)) ==>
              var h := Do(s, Fail(c)).conns[owner].handler;
              && (s.conns[owner].handler.AwaitingOwn? ==> h == Gone)
              && (s.conns[owner].handler.AwaitingDelivery? ==> h == Broadcasting(s.conns[owner].handler.n))
  {
  }
}
