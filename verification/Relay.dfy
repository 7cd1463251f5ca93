/**
 The local Nostr relay.  One step is a stretch without an await: handling one message, asking for
 a connection's send lock, or writing one frame while holding it.  The lock is a first-in
 first-out queue of jobs; the head of the queue holds it.
*/
module Relay {
  import opened Wrappers
  import opened Filters

  // ---------------------------------------------------------------------------------------------
  // The relay's state
  // ---------------------------------------------------------------------------------------------

  type ConnId = nat
  type SubId = string

  /** A frame names the recorded event it carries by its position. */
  datatype Frame = EventFrame(sub: SubId, n: nat) | Eose(sub: SubId) | OkFrame(n: nat)

  /** The frames one holder of the send lock has left to write, and the connection it handles. */
  datatype Job = Job(frames: seq<Frame>, owner: ConnId)

  datatype Handler =
    | Ready                      // waiting for the next message
    | Broadcasting(n: nat)       // between two deliveries of event n
    | AwaitingDelivery(n: nat)   // a delivery of event n is queued or being written
    | AwaitingOwn                // its own answer is queued or being written
    | Gone

  datatype Connection = Connection(subs: map<SubId, seq<Filter>>, queue: seq<Job>, wire: seq<Frame>,
                                   handler: Handler)

  /** pending[n] lists the deliveries of event n that are not yet queued. */
  datatype State = State(events: seq<Event>, pending: seq<seq<(ConnId, SubId)>>,
                         conns: map<ConnId, Connection>, open: set<ConnId>)

  const START := State([], [], map[], {})

  datatype Step =
    | Accept(c: ConnId)
    | Publish(c: ConnId, event: Event, order: seq<(ConnId, SubId)>)
    | Deliver(c: ConnId)
    | Request(c: ConnId, sub: SubId, filters: seq<Filter>)
    | CloseSub(c: ConnId, sub: SubId)
    | Write(c: ConnId)
    | Fail(c: ConnId)
    | Disconnect(c: ConnId)

  function SetHandler(s: State, c: ConnId, h: Handler): State
    requires c in s.conns
  {
    s.(conns := s.conns[c := s.conns[c].(handler := h)])
  }

  function Enqueue(s: State, c: ConnId, job: Job): State
    requires c in s.conns
  {
    s.(conns := s.conns[c := s.conns[c].(queue := s.conns[c].queue + [job])])
  }

  /** The handler goes on once its job is done. */
  function Resume(s: State, c: ConnId, delivered: bool): State {
    if c !in s.conns then s
    else
      match s.conns[c].handler
      case AwaitingDelivery(n) => SetHandler(s, c, Broadcasting(n))
      case AwaitingOwn => SetHandler(s, c, if delivered then Ready else Gone)
      case Ready => s
      case Broadcasting(_) => s
      case Gone => s
  }

  function Targets(s: State, e: Event): set<(ConnId, SubId)> {
    set c, sub | c in s.conns && c in s.open && sub in s.conns[c].subs && MatchesAny(e, s.conns[c].subs[sub]) :: (c, sub)
  }

  /** An event goes to exactly the subscriptions of open connections that ask for it. */
  lemma TargetsAreWanted(s: State, e: Event)
    ensures forall x :: x in Targets(s, e) <==>
              x.0 in s.conns && x.0 in s.open && x.1 in s.conns[x.0].subs && Wanted(e, s.conns[x.0].subs[x.1])
  {
    forall c, sub | c in s.conns && sub in s.conns[c].subs
      ensures MatchesAny(e, s.conns[c].subs[sub]) <==> Wanted(e, s.conns[c].subs[sub])
    {
      MatchesWanted(e, s.conns[c].subs[sub]);
    }
  }

  ghost predicate Enumerates<T(!new)>(order: seq<T>, items: set<T>) {
    && (forall x :: x in order <==> x in items)
    && forall i, j :: 0 <= i < j < |order| ==> order[i] != order[j]
  }

  /** The recorded events that match, in recording order. */
  function Replay(events: seq<Event>, r: nat, sub: SubId, filters: seq<Filter>): seq<Frame>
    requires r <= |events|
  {
    if r == 0 then []
    else Replay(events, r - 1, sub, filters)
         + (if MatchesAny(events[r - 1], filters) then [EventFrame(sub, r - 1)] else [])
  }

  ghost predicate Enabled(s: State, step: Step) {
    match step
    case Accept(c) => c !in s.conns
    case Publish(c, e, order) => c in s.conns && s.conns[c].handler.Ready? && Enumerates(order, Targets(s, e))
    case Deliver(c) => c in s.conns && s.conns[c].handler.Broadcasting? && s.conns[c].handler.n < |s.pending|
    case Request(c, _, _) => c in s.conns && s.conns[c].handler.Ready?
    case CloseSub(c, _) => c in s.conns && s.conns[c].handler.Ready?
    case Write(c) => c in s.conns && c in s.open && s.conns[c].queue != [] && s.conns[c].queue[0].frames != []
    case Fail(c) => c in s.conns && c !in s.open && s.conns[c].queue != []
    case Disconnect(c) => c in s.open
  }

  function DeliverNext(s: State, c: ConnId): State
    requires c in s.conns && s.conns[c].handler.Broadcasting? && s.conns[c].handler.n < |s.pending|
  {
    var n := s.conns[c].handler.n;
    if s.pending[n] == [] then
      if c in s.open then SetHandler(Enqueue(s, c, Job([OkFrame(n)], c)), c, AwaitingOwn)
      else SetHandler(s, c, Gone)
    else
      var (target, sub) := s.pending[n][0];
      var popped := s.(pending := s.pending[n := s.pending[n][1..]]);
      if target in s.open && target in s.conns
      then SetHandler(Enqueue(popped, target, Job([EventFrame(sub, n)], c)), c, AwaitingDelivery(n))
      else popped
  }

  function AnswerRequest(s: State, c: ConnId, sub: SubId, filters: seq<Filter>): State
    requires c in s.conns
  {
    var subscribed := s.(conns := s.conns[c := s.conns[c].(subs := s.conns[c].subs[sub := filters])]);
    if c in s.open
    then SetHandler(Enqueue(subscribed, c, Job(Replay(s.events, |s.events|, sub, filters) + [Eose(sub)], c)),
                    c, AwaitingOwn)
    else SetHandler(subscribed, c, Gone)
  }

  function WriteFrame(s: State, c: ConnId): State
    requires c in s.conns && s.conns[c].queue != [] && s.conns[c].queue[0].frames != []
  {
    var conn := s.conns[c];
    var job := conn.queue[0];
    var written := conn.(wire := conn.wire + [job.frames[0]]);
    if |job.frames| == 1
    then Resume(s.(conns := s.conns[c := written.(queue := conn.queue[1..])]), job.owner, true)
    else s.(conns := s.conns[c := written.(queue := [job.(frames := job.frames[1..])] + conn.queue[1..])])
  }

  function Do(s: State, step: Step): State
    requires Enabled(s, step)
  {
    match step
    case Accept(c) => s.(conns := s.conns[c := Connection(map[], [], [], Ready)], open := s.open + {c})
    case Publish(c, e, order) =>
      SetHandler(s.(events := s.events + [e], pending := s.pending + [order]), c, Broadcasting(|s.events|))
    case Deliver(c) => DeliverNext(s, c)
    case Request(c, sub, filters) => AnswerRequest(s, c, sub, filters)
    case CloseSub(c, sub) => s.(conns := s.conns[c := s.conns[c].(subs := s.conns[c].subs - {sub})])
    case Write(c) => WriteFrame(s, c)
    case Fail(c) =>
      Resume(s.(conns := s.conns[c := s.conns[c].(queue := s.conns[c].queue[1..])]), s.conns[c].queue[0].owner, false)
    case Disconnect(c) => s.(open := s.open - {c})
  }

  // ---------------------------------------------------------------------------------------------
  // What a connection has sent or is going to send
  // ---------------------------------------------------------------------------------------------

  function Queued(queue: seq<Job>): seq<Frame> {
    if queue == [] then [] else queue[0].frames + Queued(queue[1..])
  }

  function Out(conn: Connection): seq<Frame> {
    conn.wire + Queued(conn.queue)
  }

  predicate BelongsTo(frame: Frame, sub: SubId) {
    !frame.OkFrame? && frame.sub == sub
  }

  /** The frames of one subscription, in order. */
  function ForSub(frames: seq<Frame>, sub: SubId): seq<Frame> {
    if frames == [] then []
    else (if BelongsTo(frames[0], sub) then [frames[0]] else []) + ForSub(frames[1..], sub)
  }

  lemma {:induction false} ForSubConcat(a: seq<Frame>, b: seq<Frame>, sub: SubId)
    ensures ForSub(a + b, sub) == ForSub(a, sub) + ForSub(b, sub)
  {
    if a == [] {
      assert a + b == b;
    } else {
      var own := if BelongsTo(a[0], sub) then [a[0]] else [];
      assert (a + b)[0] == a[0] && (a + b)[1..] == a[1..] + b;
      ForSubConcat(a[1..], b, sub);
      assert own + (ForSub(a[1..], sub) + ForSub(b, sub)) == own + ForSub(a[1..], sub) + ForSub(b, sub);
    }
  }

  lemma {:induction false} ForSubNone(a: seq<Frame>, sub: SubId)
    requires forall i :: 0 <= i < |a| ==> !BelongsTo(a[i], sub)
    ensures ForSub(a, sub) == []
  {
    if a != [] {
      ForSubNone(a[1..], sub);
    }
  }

  lemma {:induction false} ForSubAll(a: seq<Frame>, sub: SubId)
    requires forall i :: 0 <= i < |a| ==> BelongsTo(a[i], sub)
    ensures ForSub(a, sub) == a
  {
    if a != [] {
      ForSubAll(a[1..], sub);
    }
  }

  lemma {:induction false} QueuedAppend(queue: seq<Job>, job: Job)
    ensures Queued(queue + [job]) == Queued(queue) + job.frames
  {
    if queue == [] {
      assert queue + [job] == [job];
      assert Queued([job]) == job.frames + Queued([]);
    } else {
      QueuedAppend(queue[1..], job);
      assert (queue + [job])[1..] == queue[1..] + [job];
    }
  }

  lemma EnqueueOut(s: State, c: ConnId, job: Job, k: ConnId)
    requires c in s.conns && k in s.conns
    ensures Out(Enqueue(s, c, job).conns[k]) == Out(s.conns[k]) + (if k == c then job.frames else [])
  {
    QueuedAppend(s.conns[c].queue, job);
    assert s.conns[c].wire + (Queued(s.conns[c].queue) + job.frames)
           == (s.conns[c].wire + Queued(s.conns[c].queue)) + job.frames;
  }

  /** Writing moves a frame from the queue to the wire and changes neither their order nor the rest. */
  lemma WriteOut(s: State, c: ConnId, k: ConnId)
    requires Enabled(s, Write(c)) && k in s.conns
    ensures Out(Do(s, Write(c)).conns[k]) == Out(s.conns[k])
    ensures Do(s, Write(c)).conns[k].subs == s.conns[k].subs
  {
    var conn := s.conns[c];
    var job := conn.queue[0];
    assert Queued(conn.queue) == job.frames + Queued(conn.queue[1..]);
    if |job.frames| == 1 {
      assert conn.wire + [job.frames[0]] + Queued(conn.queue[1..])
             == conn.wire + (job.frames + Queued(conn.queue[1..]));
    } else {
      var rest := job.(frames := job.frames[1..]);
      var queue := [rest] + conn.queue[1..];
      assert queue[1..] == conn.queue[1..];
      assert Queued(queue) == job.frames[1..] + Queued(conn.queue[1..]);
      assert conn.wire + [job.frames[0]] + (job.frames[1..] + Queued(conn.queue[1..]))
             == conn.wire + (job.frames + Queued(conn.queue[1..]));
    }
  }

  lemma {:induction false} ReplayBelongs(events: seq<Event>, r: nat, sub: SubId, filters: seq<Filter>)
    requires r <= |events|
    ensures forall i :: 0 <= i < |Replay(events, r, sub, filters)| ==>
              Replay(events, r, sub, filters)[i].EventFrame? && Replay(events, r, sub, filters)[i].sub == sub
  {
    if r > 0 {
      ReplayBelongs(events, r - 1, sub, filters);
    }
  }

  lemma {:induction false} ReplayOfLonger(events: seq<Event>, e: Event, r: nat, sub: SubId, filters: seq<Filter>)
    requires r <= |events|
    ensures Replay(events + [e], r, sub, filters) == Replay(events, r, sub, filters)
  {
    if r > 0 {
      ReplayOfLonger(events, e, r - 1, sub, filters);
    }
  }

  predicate InRecordingOrder(frames: seq<Frame>) {
    forall i, j :: 0 <= i < j < |frames| ==> frames[i].EventFrame? && frames[j].EventFrame? && frames[i].n < frames[j].n
  }

  /** The replay holds each recorded event that is asked for, once, in recording order. */
  lemma {:induction false} ReplayIsExact(events: seq<Event>, r: nat, sub: SubId, filters: seq<Filter>)
    requires r <= |events|
    ensures InRecordingOrder(Replay(events, r, sub, filters))
    ensures forall x :: x in Replay(events, r, sub, filters) <==>
              x.EventFrame? && x.sub == sub && x.n < r && Wanted(events[x.n], filters)
  {
    if r > 0 {
      ReplayIsExact(events, r - 1, sub, filters);
      MatchesWanted(events[r - 1], filters);
      var before := Replay(events, r - 1, sub, filters);
      forall i | 0 <= i < |before| ensures before[i].EventFrame? && before[i].n < r - 1 {
        assert before[i] in before;
      }
    }
  }

  // ---------------------------------------------------------------------------------------------
  // The delivery invariant of one subscription
  // ---------------------------------------------------------------------------------------------

  /** Before its request a subscription id has left no trace on the connection. */
  ghost predicate Untouched(s: State, c: ConnId, sub: SubId) {
    && (c in s.conns ==> sub !in s.conns[c].subs && ForSub(Out(s.conns[c]), sub) == [])
    && forall n :: 0 <= n < |s.pending| ==> (c, sub) !in s.pending[n]
  }

  /** The frames after EOSE: each matching event since the request, once, unless still pending. */
  ghost predicate LaterIs(s: State, c: ConnId, sub: SubId, filters: seq<Filter>, r: nat, later: seq<Frame>)
    requires |s.pending| == |s.events| && r <= |s.events|
  {
    && (forall x :: x in later ==> x.EventFrame? && x.sub == sub && r <= x.n < |s.events|)
    && (forall i, j :: 0 <= i < j < |later| ==> later[i] != later[j])
    && (forall n :: 0 <= n < r ==> (c, sub) !in s.pending[n])
    && forall n :: r <= n < |s.events| ==>
         && (MatchesAny(s.events[n], filters) <==> EventFrame(sub, n) in later || (c, sub) in s.pending[n])
         && !(EventFrame(sub, n) in later && (c, sub) in s.pending[n])
  }

  ghost predicate Subscribed(s: State, c: ConnId, sub: SubId, filters: seq<Filter>, r: nat, later: seq<Frame>) {
    && c in s.conns && c in s.open && sub in s.conns[c].subs && s.conns[c].subs[sub] == filters
    && r <= |s.events| && |s.pending| == |s.events|
    && ForSub(Out(s.conns[c]), sub) == Replay(s.events, r, sub, filters) + [Eose(sub)] + later
    && LaterIs(s, c, sub, filters, r, later)
  }

  /** Every unfinished broadcast has a handler working on it, and lists each delivery once. */
  ghost predicate Broadcasts(s: State) {
    && |s.pending| == |s.events|
    && (forall n :: 0 <= n < |s.pending| && s.pending[n] != [] ==> Working(s, n))
    && (forall n, i, j :: 0 <= n < |s.pending| && 0 <= i < j < |s.pending[n]| ==> s.pending[n][i] != s.pending[n][j])
  }

  predicate Working(s: State, n: nat) {
    exists h :: h in s.conns && (s.conns[h].handler == Broadcasting(n) || s.conns[h].handler == AwaitingDelivery(n))
  }

  // ---------------------------------------------------------------------------------------------
  // Broadcasts are always being worked on
  // ---------------------------------------------------------------------------------------------

  lemma WorkingStays(s: State, s': State, n: nat)
    requires Working(s, n) && s.conns.Keys <= s'.conns.Keys
    requires forall h :: h in s.conns && (s.conns[h].handler == Broadcasting(n) || s.conns[h].handler == AwaitingDelivery(n)) ==>
               s'.conns[h].handler == Broadcasting(n) || s'.conns[h].handler == AwaitingDelivery(n)
    ensures Working(s', n)
  {
    var h :| h in s.conns && (s.conns[h].handler == Broadcasting(n) || s.conns[h].handler == AwaitingDelivery(n));
    assert h in s'.conns;
  }

  lemma PublishBroadcasts(s: State, step: Step)
    requires Broadcasts(s) && Enabled(s, step) && step.Publish?
    ensures Broadcasts(Do(s, step))
  {
    var s' := Do(s, step);
    assert s'.conns[step.c].handler == Broadcasting(|s.events|);
    forall n | 0 <= n < |s'.pending| && s'.pending[n] != [] ensures Working(s', n) {
      if n < |s.pending| {
        WorkingStays(s, s', n);
      }
    }
  }

  lemma DeliverBroadcasts(s: State, step: Step)
    requires Broadcasts(s) && Enabled(s, step) && step.Deliver?
    ensures Broadcasts(Do(s, step))
  {
    var s' := Do(s, step);
    var m := s.conns[step.c].handler.n;
    forall n | 0 <= n < |s'.pending| && s'.pending[n] != [] ensures Working(s', n) {
      if n != m {
        WorkingStays(s, s', n);
      } else {
        assert s.pending[m] != [];
        assert s'.conns[step.c].handler == Broadcasting(m) || s'.conns[step.c].handler == AwaitingDelivery(m);
      }
    }
  }

  lemma OtherStepsBroadcast(s: State, step: Step)
    requires Broadcasts(s) && Enabled(s, step) && !step.Publish? && !step.Deliver?
    ensures Broadcasts(Do(s, step))
  {
    var s' := Do(s, step);
    assert s'.pending == s.pending && s'.events == s.events;
    forall n | 0 <= n < |s'.pending| && s'.pending[n] != [] ensures Working(s', n) {
      WorkingStays(s, s', n);
    }
  }

  lemma BroadcastsStep(s: State, step: Step)
    requires Broadcasts(s) && Enabled(s, step)
    ensures Broadcasts(Do(s, step))
  {
    if step.Publish? {
      PublishBroadcasts(s, step);
    } else if step.Deliver? {
      DeliverBroadcasts(s, step);
    } else {
      OtherStepsBroadcast(s, step);
    }
  }

  // ---------------------------------------------------------------------------------------------
  // How each step changes what one connection sends
  // ---------------------------------------------------------------------------------------------

  /** The frames a step adds to connection k. */
  ghost function Added(s: State, step: Step, k: ConnId): seq<Frame>
    requires Enabled(s, step)
  {
    match step
    case Deliver(c) =>
      var n := s.conns[c].handler.n;
      if s.pending[n] == [] then (if k == c && c in s.open then [OkFrame(n)] else [])
      else if k == s.pending[n][0].0 && k in s.open then [EventFrame(s.pending[n][0].1, n)] else []
    case Request(c, sub, filters) =>
      if k == c && c in s.open then Replay(s.events, |s.events|, sub, filters) + [Eose(sub)] else []
    case Accept(_) => []
    case Publish(_, _, _) => []
    case CloseSub(_, _) => []
    case Write(_) => []
    case Fail(_) => []
    case Disconnect(_) => []
  }

  lemma SetHandlerOut(s: State, c: ConnId, h: Handler, k: ConnId)
    requires c in s.conns && k in s.conns
    ensures Out(SetHandler(s, c, h).conns[k]) == Out(s.conns[k])
    ensures SetHandler(s, c, h).conns[k].subs == s.conns[k].subs
  {
  }

  lemma DeliverOut(s: State, c: ConnId, k: ConnId)
    requires Enabled(s, Deliver(c)) && k in s.conns
    ensures Out(Do(s, Deliver(c)).conns[k]) == Out(s.conns[k]) + Added(s, Deliver(c), k)
    ensures Do(s, Deliver(c)).conns[k].subs == s.conns[k].subs
  {
    var n := s.conns[c].handler.n;
    assert Out(s.conns[k]) + [] == Out(s.conns[k]);
    if s.pending[n] == [] {
      if c in s.open {
        var job := Job([OkFrame(n)], c);
        EnqueueOut(s, c, job, k);
        SetHandlerOut(Enqueue(s, c, job), c, AwaitingOwn, k);
      }
    } else {
      var (target, sub) := s.pending[n][0];
      var popped := s.(pending := s.pending[n := s.pending[n][1..]]);
      if target in s.open && target in s.conns {
        var job := Job([EventFrame(sub, n)], c);
        EnqueueOut(popped, target, job, k);
        SetHandlerOut(Enqueue(popped, target, job), c, AwaitingDelivery(n), k);
      }
    }
  }

  lemma RequestOut(s: State, step: Step, k: ConnId)
    requires step.Request? && Enabled(s, step) && k in s.conns
    ensures Out(Do(s, step).conns[k]) == Out(s.conns[k]) + Added(s, step, k)
    ensures Do(s, step).conns[k].subs
            == if k == step.c then s.conns[k].subs[step.sub := step.filters] else s.conns[k].subs
  {
    var c := step.c;
    var subscribed := s.(conns := s.conns[c := s.conns[c].(subs := s.conns[c].subs[step.sub := step.filters])]);
    assert Out(subscribed.conns[k]) == Out(s.conns[k]);
    assert Out(s.conns[k]) + [] == Out(s.conns[k]);
    if c in s.open {
      var job := Job(Replay(s.events, |s.events|, step.sub, step.filters) + [Eose(step.sub)], c);
      EnqueueOut(subscribed, c, job, k);
      SetHandlerOut(Enqueue(subscribed, c, job), c, AwaitingOwn, k);
    }
  }

  /** Apart from a job that fails on it, a connection only ever gets frames appended. */
  lemma StepOut(s: State, step: Step, k: ConnId)
    requires Enabled(s, step) && k in s.conns && !(step.Fail? && step.c == k)
    ensures k in Do(s, step).conns
    ensures Out(Do(s, step).conns[k]) == Out(s.conns[k]) + Added(s, step, k)
  {
    assert Out(s.conns[k]) + [] == Out(s.conns[k]);
    match step
    case Deliver(c) => DeliverOut(s, c, k);
    case Request(_, _, _) => RequestOut(s, step, k);
    case Write(c) => WriteOut(s, c, k);
    case Accept(_) =>
    case Publish(_, _, _) =>
    case CloseSub(_, _) =>
    case Fail(_) =>
    case Disconnect(_) =>
  }

  lemma StepSubs(s: State, step: Step, k: ConnId)
    requires Enabled(s, step) && k in s.conns
    ensures k in Do(s, step).conns
    ensures Do(s, step).conns[k].subs
            == if step.Request? && step.c == k then s.conns[k].subs[step.sub := step.filters]
               else if step.CloseSub? && step.c == k then s.conns[k].subs - {step.sub}
               else s.conns[k].subs
  {
    match step
    case Deliver(c) => DeliverOut(s, c, k);
    case Request(_, _, _) => RequestOut(s, step, k);
    case Write(c) => WriteOut(s, c, k);
    case Accept(_) =>
    case Publish(_, _, _) =>
    case CloseSub(_, _) =>
    case Fail(_) =>
    case Disconnect(_) =>
  }

  // ---------------------------------------------------------------------------------------------
  // The invariant over the steps
  // ---------------------------------------------------------------------------------------------

  /** The subscription is not requested again, closed or cut off by this step. */
  predicate LeavesAlone(step: Step, c: ConnId, sub: SubId) {
    && !(step.Request? && step.c == c && step.sub == sub)
    && !(step.CloseSub? && step.c == c && step.sub == sub)
    && !(step.Disconnect? && step.c == c)
  }

  lemma AddedForSub(s: State, step: Step, c: ConnId, sub: SubId)
    requires Enabled(s, step) && c in s.conns && c in s.open && LeavesAlone(step, c, sub)
    ensures ForSub(Added(s, step, c), sub)
            == if step.Deliver? && s.pending[s.conns[step.c].handler.n] != []
                  && s.pending[s.conns[step.c].handler.n][0] == (c, sub)
               then [EventFrame(sub, s.conns[step.c].handler.n)] else []
  {
    match step
    case Deliver(h) =>
      var n := s.conns[h].handler.n;
      if s.pending[n] == [] {
        ForSubNone(Added(s, step, c), sub);
      } else {
        var (target, other) := s.pending[n][0];
        if target == c && other == sub {
          ForSubAll([EventFrame(sub, n)], sub);
        } else {
          ForSubNone(Added(s, step, c), sub);
        }
      }
    case Request(_, other, filters) =>
      ReplayBelongs(s.events, |s.events|, other, filters);
      ForSubNone(Added(s, step, c), sub);
    case Accept(_) =>
    case Publish(_, _, _) =>
    case CloseSub(_, _) =>
    case Write(_) =>
    case Fail(_) =>
    case Disconnect(_) =>
  }

  lemma OutForSub(s: State, step: Step, c: ConnId, sub: SubId)
    requires Enabled(s, step) && c in s.conns && c in s.open
    ensures c in Do(s, step).conns
    ensures ForSub(Out(Do(s, step).conns[c]), sub) == ForSub(Out(s.conns[c]), sub) + ForSub(Added(s, step, c), sub)
  {
    StepOut(s, step, c);
    ForSubConcat(Out(s.conns[c]), Added(s, step, c), sub);
  }

  /** Recording an event adds it to the pending deliveries exactly when it matches. */
  lemma PublishKeeps(s: State, step: Step, c: ConnId, sub: SubId, filters: seq<Filter>, r: nat, later: seq<Frame>)
    requires Subscribed(s, c, sub, filters, r, later) && step.Publish? && Enabled(s, step)
    ensures Subscribed(Do(s, step), c, sub, filters, r, later)
  {
    var s' := Do(s, step);
    OutForSub(s, step, c, sub);
    AddedForSub(s, step, c, sub);
    StepSubs(s, step, c);
    ReplayOfLonger(s.events, step.event, r, sub, filters);
    assert s'.pending == s.pending + [step.order] && s'.events == s.events + [step.event];
    assert (c, sub) in step.order <==> MatchesAny(step.event, filters) by {
      assert (c, sub) in step.order <==> (c, sub) in Targets(s, step.event);
    }
    assert EventFrame(sub, |s.events|) !in later;
  }

  /** Queueing a delivery moves its event from the pending deliveries to the frames after EOSE. */
  lemma DeliverKeeps(s: State, step: Step, c: ConnId, sub: SubId, filters: seq<Filter>, r: nat, later: seq<Frame>)
    returns (later': seq<Frame>)
    requires Subscribed(s, c, sub, filters, r, later) && Broadcasts(s) && step.Deliver? && Enabled(s, step)
    ensures Subscribed(Do(s, step), c, sub, filters, r, later')
  {
    var s' := Do(s, step);
    OutForSub(s, step, c, sub);
    AddedForSub(s, step, c, sub);
    StepSubs(s, step, c);
    var n := s.conns[step.c].handler.n;
    assert s'.events == s.events;
    var prefix := Replay(s.events, r, sub, filters) + [Eose(sub)];
    if s.pending[n] != [] && s.pending[n][0] == (c, sub) {
      later' := later + [EventFrame(sub, n)];
      assert (prefix + later) + [EventFrame(sub, n)] == prefix + later';
      DeliverMoves(s, s', n, c, sub, filters, r, later);
    } else {
      later' := later;
      assert (prefix + later) + [] == prefix + later;
      if s.pending[n] != [] {
        assert s'.pending == s.pending[n := s.pending[n][1..]];
        assert s.pending[n] == [s.pending[n][0]] + s.pending[n][1..];
      } else {
        assert s'.pending == s.pending;
      }
    }
  }

  lemma DeliverMoves(s: State, s': State, n: nat, c: ConnId, sub: SubId, filters: seq<Filter>, r: nat, later: seq<Frame>)
    requires Broadcasts(s) && r <= |s.events| && LaterIs(s, c, sub, filters, r, later)
    requires n < |s.pending| && s.pending[n] != [] && s.pending[n][0] == (c, sub)
    requires s'.events == s.events && s'.pending == s.pending[n := s.pending[n][1..]]
    ensures LaterIs(s', c, sub, filters, r, later + [EventFrame(sub, n)])
  {
    assert (c, sub) in s.pending[n];
    assert r <= n;
    assert EventFrame(sub, n) !in later;
    assert (c, sub) !in s.pending[n][1..];
  }

  lemma OtherStepsKeep(s: State, step: Step, c: ConnId, sub: SubId, filters: seq<Filter>, r: nat, later: seq<Frame>)
    requires Subscribed(s, c, sub, filters, r, later) && Enabled(s, step) && LeavesAlone(step, c, sub)
    requires !step.Publish? && !step.Deliver?
    ensures Subscribed(Do(s, step), c, sub, filters, r, later)
  {
    OutForSub(s, step, c, sub);
    AddedForSub(s, step, c, sub);
    StepSubs(s, step, c);
    assert Do(s, step).pending == s.pending && Do(s, step).events == s.events;
    assert c in Do(s, step).open;
  }

  /** Answering the request on an untouched id establishes the invariant with nothing after EOSE. */
  lemma RequestSubscribes(s: State, step: Step)
    requires step.Request? && Enabled(s, step) && step.c in s.open
    requires Untouched(s, step.c, step.sub) && Broadcasts(s)
    ensures Subscribed(Do(s, step), step.c, step.sub, step.filters, |s.events|, [])
  {
    var c, sub := step.c, step.sub;
    OutForSub(s, step, c, sub);
    StepSubs(s, step, c);
    var frames := Replay(s.events, |s.events|, sub, step.filters) + [Eose(sub)];
    ReplayBelongs(s.events, |s.events|, sub, step.filters);
    ForSubAll(frames, sub);
    assert [] + frames == frames == frames + [];
    assert Do(s, step).pending == s.pending && Do(s, step).events == s.events;
  }

  // ---------------------------------------------------------------------------------------------
  // Before the request
  // ---------------------------------------------------------------------------------------------

  lemma UntouchedTargets(s: State, e: Event, c: ConnId, sub: SubId)
    requires c in s.conns ==> sub !in s.conns[c].subs
    ensures (c, sub) !in Targets(s, e)
  {
  }

  lemma ResumeOut(s: State, c: ConnId, delivered: bool, k: ConnId)
    requires k in s.conns
    ensures k in Resume(s, c, delivered).conns && Out(Resume(s, c, delivered).conns[k]) == Out(s.conns[k])
  {
  }

  /** Dropping a job leaves no frame of a subscription that had none. */
  lemma DropJob(wire: seq<Frame>, head: seq<Frame>, tail: seq<Frame>, sub: SubId)
    requires ForSub(wire + (head + tail), sub) == []
    ensures ForSub(wire + tail, sub) == []
  {
    ForSubConcat(wire, head + tail, sub);
    ForSubConcat(head, tail, sub);
    ForSubConcat(wire, tail, sub);
  }

  lemma FailOut(s: State, step: Step, k: ConnId, sub: SubId)
    requires step.Fail? && Enabled(s, step) && k in s.conns && ForSub(Out(s.conns[k]), sub) == []
    ensures ForSub(Out(Do(s, step).conns[k]), sub) == []
  {
    var conn := s.conns[step.c];
    var dropped := s.(conns := s.conns[step.c := conn.(queue := conn.queue[1..])]);
    DropJobIf(conn, sub, k == step.c);
    ResumeOut(dropped, conn.queue[0].owner, false, k);
  }

  lemma DropJobIf(conn: Connection, sub: SubId, own: bool)
    requires conn.queue != [] && (own ==> ForSub(Out(conn), sub) == [])
    ensures own ==> ForSub(Out(conn.(queue := conn.queue[1..])), sub) == []
  {
    if own {
      DropJob(conn.wire, conn.queue[0].frames, Queued(conn.queue[1..]), sub);
    }
  }

  /** No step but the request itself adds a frame of an untouched subscription. */
  lemma NothingAdded(s: State, step: Step, c: ConnId, sub: SubId)
    requires Enabled(s, step) && Untouched(s, c, sub)
    requires !(step.Request? && step.c == c && step.sub == sub)
    ensures ForSub(Added(s, step, c), sub) == []
  {
    if step.Request? {
      ReplayBelongs(s.events, |s.events|, step.sub, step.filters);
    } else if step.Deliver? {
      var n := s.conns[step.c].handler.n;
      assert s.pending[n] != [] ==> s.pending[n][0] in s.pending[n];
    }
    ForSubNone(Added(s, step, c), sub);
  }

  lemma UntouchedOut(s: State, step: Step, c: ConnId, sub: SubId)
    requires Enabled(s, step) && c in s.conns && Untouched(s, c, sub)
    requires !(step.Request? && step.c == c && step.sub == sub)
    ensures c in Do(s, step).conns && ForSub(Out(Do(s, step).conns[c]), sub) == []
  {
    if step.Fail? && step.c == c {
      FailOut(s, step, c, sub);
    } else {
      StepOut(s, step, c);
      NothingAdded(s, step, c, sub);
      ForSubConcat(Out(s.conns[c]), Added(s, step, c), sub);
    }
  }

  lemma UntouchedStays(s: State, step: Step, c: ConnId, sub: SubId)
    requires Untouched(s, c, sub) && Broadcasts(s) && Enabled(s, step)
    requires !(step.Request? && step.c == c && step.sub == sub)
    ensures Untouched(Do(s, step), c, sub)
  {
    var s' := Do(s, step);
    if c in s.conns {
      UntouchedOut(s, step, c, sub);
      StepSubs(s, step, c);
    }
    forall n | 0 <= n < |s'.pending| ensures (c, sub) !in s'.pending[n] {
      if step.Publish? {
        UntouchedTargets(s, step.event, c, sub);
      } else if step.Deliver? {
        var m := s.conns[step.c].handler.n;
        if s.pending[m] != [] {
          assert s'.pending == s.pending[m := s.pending[m][1..]];
          assert s.pending[m] == [s.pending[m][0]] + s.pending[m][1..];
        }
      } else {
        assert s'.pending == s.pending;
      }
    }
  }

  // ---------------------------------------------------------------------------------------------
  // Runs
  // ---------------------------------------------------------------------------------------------

  ghost predicate Run(states: seq<State>, steps: seq<Step>) {
    && |states| == |steps| + 1 && states[0] == START
    && forall i :: 0 <= i < |steps| ==> Enabled(states[i], steps[i]) && states[i + 1] == Do(states[i], steps[i])
  }

  /** Step k is the only request of this subscription id, on an open connection it stays open on. */
  ghost predicate OneRequest(states: seq<State>, steps: seq<Step>, k: nat)
    requires Run(states, steps)
  {
    && k < |steps| && steps[k].Request? && steps[k].c in states[k].open
    && (forall i :: 0 <= i < k ==>
          !(steps[i].Request? && steps[i].c == steps[k].c && steps[i].sub == steps[k].sub))
    && forall i :: k < i < |steps| ==> LeavesAlone(steps[i], steps[k].c, steps[k].sub)
  }

  lemma {:induction false} AlwaysBroadcasts(states: seq<State>, steps: seq<Step>, n: nat)
    requires Run(states, steps) && n < |states|
    ensures Broadcasts(states[n])
  {
    if n > 0 {
      AlwaysBroadcasts(states, steps, n - 1);
      BroadcastsStep(states[n - 1], steps[n - 1]);
    }
  }

  lemma {:induction false} UntouchedUntilRequest(states: seq<State>, steps: seq<Step>, k: nat, n: nat)
    requires Run(states, steps) && OneRequest(states, steps, k) && n <= k
    ensures Untouched(states[n], steps[k].c, steps[k].sub)
  {
    if n > 0 {
      UntouchedUntilRequest(states, steps, k, n - 1);
      AlwaysBroadcasts(states, steps, n - 1);
      UntouchedStays(states[n - 1], steps[n - 1], steps[k].c, steps[k].sub);
    }
  }

  /**
   Under every interleaving, what the connection has sent and queued for the subscription is the
   replay of what was recorded before the request, then EOSE, then events recorded since, each at
   most once, the missing ones still being broadcast.
  */
  lemma {:induction false} SubscriptionInvariant(states: seq<State>, steps: seq<Step>, k: nat, n: nat)
    returns (later: seq<Frame>)
    requires Run(states, steps) && OneRequest(states, steps, k) && k < n < |states|
    ensures Subscribed(states[n], steps[k].c, steps[k].sub, steps[k].filters, |states[k].events|, later)
  {
    AlwaysBroadcasts(states, steps, n - 1);
    var s, step := states[n - 1], steps[n - 1];
    var c, sub, filters, r := steps[k].c, steps[k].sub, steps[k].filters, |states[k].events|;
    if n == k + 1 {
      UntouchedUntilRequest(states, steps, k, k);
      RequestSubscribes(s, step);
      later := [];
    } else {
      later := SubscriptionInvariant(states, steps, k, n - 1);
      if step.Publish? {
        PublishKeeps(s, step, c, sub, filters, r, later);
      } else if step.Deliver? {
        later := DeliverKeeps(s, step, c, sub, filters, r, later);
      } else {
        OtherStepsKeep(s, step, c, sub, filters, r, later);
      }
    }
  }

  /** No handler is in the middle of anything and nothing is waiting to be written to c. */
  ghost predicate AtRest(s: State, c: ConnId) {
    && c in s.conns && s.conns[c].queue == []
    && forall h :: h in s.conns ==> s.conns[h].handler == Ready || s.conns[h].handler == Gone
  }

  /**
   At rest the subscription has been sent exactly the matching events recorded before its request,
   in recording order, then EOSE, then every matching event recorded since exactly once.
  */
  lemma DeliveredExactlyOnce(states: seq<State>, steps: seq<Step>, k: nat, n: nat) returns (replay: seq<Frame>, later: seq<Frame>)
    requires Run(states, steps) && OneRequest(states, steps, k) && k < n < |states|
    requires AtRest(states[n], steps[k].c)
    ensures |states[k].events| <= |states[n].events|
    ensures ForSub(states[n].conns[steps[k].c].wire, steps[k].sub) == replay + [Eose(steps[k].sub)] + later
    ensures InRecordingOrder(replay)
    ensures forall x :: x in replay <==>
              x.EventFrame? && x.sub == steps[k].sub && x.n < |states[k].events|
              && Wanted(states[n].events[x.n], steps[k].filters)
    ensures forall i, j :: 0 <= i < j < |later| ==> later[i] != later[j]
    ensures forall x :: x in later <==>
              x.EventFrame? && x.sub == steps[k].sub && |states[k].events| <= x.n < |states[n].events|
              && Wanted(states[n].events[x.n], steps[k].filters)
  {
    later := SubscriptionInvariant(states, steps, k, n);
    AlwaysBroadcasts(states, steps, n);
    var s := states[n];
    assert forall m :: 0 <= m < |s.pending| ==> s.pending[m] == [] by {
      forall m | 0 <= m < |s.pending| ensures s.pending[m] == [] {
        assert !Working(s, m);
      }
    }
    assert Out(s.conns[steps[k].c]) == s.conns[steps[k].c].wire;
    replay := Replay(s.events, |states[k].events|, steps[k].sub, steps[k].filters);
    ReplayIsExact(s.events, |states[k].events|, steps[k].sub, steps[k].filters);
    assert forall m :: 0 <= m < |s.pending| ==> (steps[k].c, steps[k].sub) !in s.pending[m];
    forall x ensures x in later <==>
      x.EventFrame? && x.sub == steps[k].sub && |states[k].events| <= x.n < |s.events|
      && Wanted(s.events[x.n], steps[k].filters)
    {
      if x.EventFrame? {
        if |states[k].events| <= x.n < |s.events| {
          MatchesWanted(s.events[x.n], steps[k].filters);
        }
        assert x == EventFrame(x.sub, x.n);
      }
    }
  }

  // ---------------------------------------------------------------------------------------------
  // The relay's own methods
  // ---------------------------------------------------------------------------------------------

  lemma AppendDistinct<T(!new)>(order: seq<T>, x: T)
    requires forall i, j :: 0 <= i < j < |order| ==> order[i] != order[j]
    requires x !in order
    ensures forall i, j :: 0 <= i < j < |order + [x]| ==> (order + [x])[i] != (order + [x])[j]
  {
  }

  class LocalRelay {
    var events: seq<Event>
    var pending: seq<seq<(ConnId, SubId)>>
    var connections: map<ConnId, Connection>
    var open: set<ConnId>

    ghost function View(): State
      reads this
    {
      State(events, pending, connections, open)
    }

    constructor ()
      ensures View() == START
    {
      events, pending, connections, open := [], [], map[], {};
    }

    /** The subscriptions of one connection that match an event. */
    method MatchingSubscriptions(c: ConnId, e: Event) returns (order: seq<(ConnId, SubId)>)
      requires c in connections
      ensures forall x :: x in order <==>
                x.0 == c && x.1 in connections[c].subs && MatchesAny(e, connections[c].subs[x.1])
      ensures forall i, j :: 0 <= i < j < |order| ==> order[i] != order[j]
    {
      order := [];
      var subs := connections[c].subs;
      var left := subs.Keys;
      while left != {}
        invariant left <= subs.Keys
        invariant forall x :: x in order <==>
                    x.0 == c && x.1 in subs && x.1 !in left && MatchesAny(e, subs[x.1])
        invariant forall i, j :: 0 <= i < j < |order| ==> order[i] != order[j]
      {
        var sub :| sub in left;
        left := left - {sub};
        if MatchesAny(e, subs[sub]) {
          AppendDistinct(order, (c, sub));
          order := order + [(c, sub)];
        }
      }
    }

    /** The deliveries of an event: every matching subscription of every open connection. */
    method CollectDeliveries(e: Event) returns (order: seq<(ConnId, SubId)>)
      ensures Enumerates(order, Targets(View(), e))
      ensures forall x :: x in order <==>
                x.0 in connections && x.0 in open && x.1 in connections[x.0].subs && Wanted(e, connections[x.0].subs[x.1])
    {
      order := [];
      var left := open;
      while left != {}
        invariant left <= open
        invariant forall x :: x in order <==> x in Targets(View(), e) && x.0 !in left
        invariant forall i, j :: 0 <= i < j < |order| ==> order[i] != order[j]
      {
        var c :| c in left;
        ghost var before := order;
        left := left - {c};
        if c in connections {
          var matching := MatchingSubscriptions(c, e);
          order := order + matching;
          forall i, j | 0 <= i < j < |order| ensures order[i] != order[j] {
            if i < |before| <= j {
              assert order[i] in before && order[j] in matching;
            }
          }
        }
      }
      TargetsAreWanted(View(), e);
    }

    /** Records an event and starts its broadcast. */
    method HandleEvent(c: ConnId, e: Event) returns (order: seq<(ConnId, SubId)>)
      requires c in connections && connections[c].handler.Ready?
      modifies this
      ensures Enabled(old(View()), Publish(c, e, order))
      ensures View() == Do(old(View()), Publish(c, e, order))
    {
      order := CollectDeliveries(e);
      var n := |events|;
      events := events + [e];
      pending := pending + [order];
      connections := connections[c := connections[c].(handler := Broadcasting(n))];
    }

    /** Asks for the next delivery of a broadcast, or answers the publisher when there is none. */
    method ContinueBroadcast(c: ConnId)
      requires Enabled(View(), Deliver(c))
      modifies this
      ensures View() == Do(old(View()), Deliver(c))
    {
      var n := connections[c].handler.n;
      if pending[n] == [] {
        if c in open {
          QueueJob(c, Job([OkFrame(n)], c));
          connections := connections[c := connections[c].(handler := AwaitingOwn)];
        } else {
          connections := connections[c := connections[c].(handler := Gone)];
        }
        return;
      }
      var (target, sub) := pending[n][0];
      pending := pending[n := pending[n][1..]];
      if target in open && target in connections {
        QueueJob(target, Job([EventFrame(sub, n)], c));
        connections := connections[c := connections[c].(handler := AwaitingDelivery(n))];
      }
    }

    method QueueJob(c: ConnId, job: Job)
      requires c in connections
      modifies `connections
      ensures View() == Enqueue(old(View()), c, job)
    {
      connections := connections[c := connections[c].(queue := connections[c].queue + [job])];
    }

    /** Subscribes, copies the log, and asks for the send lock before anything else can run. */
    method HandleRequest(c: ConnId, sub: SubId, filters: seq<Filter>)
      requires c in connections && connections[c].handler.Ready?
      modifies `connections
      ensures View() == Do(old(View()), Request(c, sub, filters))
    {
      connections := connections[c := connections[c].(subs := connections[c].subs[sub := filters])];
      var frames: seq<Frame> := [];
      for n := 0 to |events|
        invariant frames == Replay(events, n, sub, filters)
      {
        if MatchesAny(events[n], filters) {
          frames := frames + [EventFrame(sub, n)];
        }
      }
      if c in open {
        QueueJob(c, Job(frames + [Eose(sub)], c));
        connections := connections[c := connections[c].(handler := AwaitingOwn)];
      } else {
        connections := connections[c := connections[c].(handler := Gone)];
      }
    }

    /** A handshake has succeeded. */
    method AddConnection(c: ConnId)
      requires c !in connections
      modifies `connections, `open
      ensures View() == Do(old(View()), Accept(c))
    {
      connections := connections[c := Connection(map[], [], [], Ready)];
      open := open + {c};
    }

    method DiscardConnection(c: ConnId)
      requires c in open
      modifies `open
      ensures View() == Do(old(View()), Disconnect(c))
    {
      open := open - {c};
    }

    /** Writing to a lost connection fails: a broadcast goes on, any other handler ends. */
    method FailNext(c: ConnId)
      requires Enabled(View(), Fail(c))
      modifies `connections
      ensures View() == Do(old(View()), Fail(c))
    {
      var owner := connections[c].queue[0].owner;
      connections := connections[c := connections[c].(queue := connections[c].queue[1..])];
      if owner in connections {
        match connections[owner].handler
        case AwaitingDelivery(n) =>
          connections := connections[owner := connections[owner].(handler := Broadcasting(n))];
        case AwaitingOwn =>
          connections := connections[owner := connections[owner].(handler := Gone)];
        case Ready =>
        case Broadcasting(_) =>
        case Gone =>
      }
    }

    method HandleClose(c: ConnId, sub: SubId)
      requires c in connections && connections[c].handler.Ready?
      modifies `connections
      ensures View() == Do(old(View()), CloseSub(c, sub))
    {
      connections := connections[c := connections[c].(subs := connections[c].subs - {sub})];
    }

    /** Writes one frame of the job that holds the lock and lets its owner go on after the last. */
    method WriteNext(c: ConnId)
      requires Enabled(View(), Write(c))
      modifies `connections
      ensures View() == Do(old(View()), Write(c))
    {
      var conn := connections[c];
      var job := conn.queue[0];
      conn := conn.(wire := conn.wire + [job.frames[0]]);
      if |job.frames| > 1 {
        connections := connections[c := conn.(queue := [job.(frames := job.frames[1..])] + conn.queue[1..])];
        return;
      }
      connections := connections[c := conn.(queue := conn.queue[1..])];
      if job.owner in connections {
        match connections[job.owner].handler
        case AwaitingDelivery(n) =>
          connections := connections[job.owner := connections[job.owner].(handler := Broadcasting(n))];
        case AwaitingOwn =>
          connections := connections[job.owner := connections[job.owner].(handler := Ready)];
        case Ready =>
        case Broadcasting(_) =>
        case Gone =>
      }
    }
  }
}
