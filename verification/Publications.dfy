/**
 How the roots of a drive come about: every AppKey keeps the newest root it knows of each AppKey,
 and writes down what it knows in each root it publishes.
*/
module Publications {
  import opened Wrappers
  import opened Merge

  /** log lists every root with its AppKey in the order of publication; known is what each AppKey holds. */
  datatype Network = Network(log: seq<(Key, RootRef)>, known: map<Key, map<Key, RootRef>>)

  const NOTHING := Network([], map[])

  datatype Step =
    | Publish(key: Key, cid: Cid, at: int)     // with causal fields
    | PublishPlain(key: Key, cid: Cid, at: int)  // by an app that does not write them
    | Learn(key: Key, n: nat)                  // the n-th publication reaches an AppKey

  function Holds(net: Network, key: Key): map<Key, RootRef> {
    if key in net.known then net.known[key] else map[]
  }

  /** An incoming root does not replace one that is as new. */
  predicate Stale(held: map<Key, RootRef>, author: Key, incoming: RootRef) {
    author in held &&
    if held[author].seqNo > 0 || incoming.seqNo > 0
    then incoming.seqNo == 0 || (held[author].seqNo > 0 && incoming.seqNo <= held[author].seqNo)
    else held[author].publishedAt >= incoming.publishedAt
  }

  function ObservationOf(root: RootRef): Observation {
    Observation(root.seqNo, root.cid)
  }

  /** The next root of an AppKey: the next number, the root it replaces, and every numbered root it holds. */
  function NextRoot(held: map<Key, RootRef>, key: Key, cid: Cid, at: int): RootRef {
    RootRef(cid, at,
            if key in held then held[key].seqNo + 1 else 1,
            if key in held then [Parent(key, ObservationOf(held[key]))] else [],
            map k | k in held && held[k].seqNo > 0 :: ObservationOf(held[k]),
            false)
  }

  function PlainRoot(cid: Cid, at: int): RootRef {
    RootRef(cid, at, 0, [], map[], false)
  }

  function Put(net: Network, key: Key, author: Key, root: RootRef): Network {
    net.(known := net.known[key := Holds(net, key)[author := root]])
  }

  /** A new root has an identifier of its own. */
  predicate Unused(net: Network, cid: Cid) {
    forall i :: 0 <= i < |net.log| ==> !SameRoot(cid, net.log[i].1.cid) && !SameRoot(net.log[i].1.cid, cid)
  }

  predicate Enabled(net: Network, step: Step) {
    match step
    case Publish(_, cid, _) => Unused(net, cid)
    case PublishPlain(key, cid, at) => Unused(net, cid) && !Stale(Holds(net, key), key, PlainRoot(cid, at))
    case Learn(_, n) => n < |net.log|
  }

  function Do(net: Network, step: Step): Network
    requires Enabled(net, step)
  {
    match step
    case Publish(key, cid, at) =>
      var root := NextRoot(Holds(net, key), key, cid, at);
      Put(net, key, key, root).(log := net.log + [(key, root)])
    case PublishPlain(key, cid, at) =>
      Put(net, key, key, PlainRoot(cid, at)).(log := net.log + [(key, PlainRoot(cid, at))])
    case Learn(key, n) =>
      if Stale(Holds(net, key), net.log[n].0, net.log[n].1) then net else Put(net, key, net.log[n].0, net.log[n].1)
  }

  ghost predicate Run(nets: seq<Network>, steps: seq<Step>) {
    && |nets| == |steps| + 1 && nets[0] == NOTHING
    && forall i :: 0 <= i < |steps| ==> Enabled(nets[i], steps[i]) && nets[i + 1] == Do(nets[i], steps[i])
  }

  // ---------------------------------------------------------------------------------------------
  // What every run keeps
  // ---------------------------------------------------------------------------------------------

  /** Some root of that AppKey, with that number and identifier, has been published. */
  ghost predicate WasPublished(log: seq<(Key, RootRef)>, author: Key, seen: Observation) {
    exists i :: 0 <= i < |log| && log[i].0 == author && ObservationOf(log[i].1) == seen
  }

  ghost predicate KnownWerePublished(net: Network) {
    forall key, author :: author in Holds(net, key) ==> (author, Holds(net, key)[author]) in net.log
  }

  ghost predicate Distinct(log: seq<(Key, RootRef)>) {
    forall i, j :: 0 <= i < |log| && 0 <= j < |log| && i != j ==> !SameRoot(log[i].1.cid, log[j].1.cid)
  }

  /** The numbers of one AppKey increase. */
  ghost predicate Numbered(log: seq<(Key, RootRef)>) {
    forall i, j :: 0 <= i < j < |log| && log[i].0 == log[j].0 && log[j].1.seqNo > 0 ==> log[i].1.seqNo < log[j].1.seqNo
  }

  /** Every AppKey holds its own newest number. */
  ghost predicate OwnIsNewest(net: Network) {
    forall i :: 0 <= i < |net.log| ==>
      net.log[i].0 in Holds(net, net.log[i].0) && net.log[i].1.seqNo <= Holds(net, net.log[i].0)[net.log[i].0].seqNo
  }

  /** A root names only roots that have been published. */
  ghost predicate NamesPublished(log: seq<(Key, RootRef)>, root: RootRef) {
    && (forall k :: 0 <= k < |root.parents| ==> WasPublished(log, root.parents[k].key, root.parents[k].seen))
    && forall author :: author in root.observed ==> WasPublished(log, author, root.observed[author])
  }

  ghost predicate Inv(net: Network) {
    && KnownWerePublished(net) && Distinct(net.log) && Numbered(net.log) && OwnIsNewest(net)
    && forall i :: 0 <= i < |net.log| ==> NamesPublished(net.log, net.log[i].1)
  }

  lemma StillPublished(log: seq<(Key, RootRef)>, root: RootRef, more: (Key, RootRef))
    requires NamesPublished(log, root)
    ensures NamesPublished(log + [more], root)
  {
    forall author, seen | WasPublished(log, author, seen) ensures WasPublished(log + [more], author, seen) {
      var i :| 0 <= i < |log| && log[i].0 == author && ObservationOf(log[i].1) == seen;
      assert (log + [more])[i] == log[i];
    }
  }

  lemma NextNamesPublished(net: Network, key: Key, cid: Cid, at: int)
    requires KnownWerePublished(net)
    ensures NamesPublished(net.log, NextRoot(Holds(net, key), key, cid, at))
  {
    var held := Holds(net, key);
    forall author | author in held ensures WasPublished(net.log, author, ObservationOf(held[author])) {
      assert (author, held[author]) in net.log;
    }
  }

  /** The log with one more root, held by its AppKey. */
  function Grown(net: Network, key: Key, root: RootRef): Network {
    Put(net, key, key, root).(log := net.log + [(key, root)])
  }

  lemma KnownGrows(net: Network, key: Key, root: RootRef)
    requires KnownWerePublished(net)
    ensures KnownWerePublished(Grown(net, key, root))
  {
    var next := Grown(net, key, root);
    assert next.log[|net.log|] == (key, root);
    forall k, author | author in Holds(next, k) ensures (author, Holds(next, k)[author]) in next.log {
      if k != key || author != key {
        assert author in Holds(net, k) && Holds(next, k)[author] == Holds(net, k)[author];
      }
    }
  }

  lemma OwnGrows(net: Network, key: Key, root: RootRef)
    requires OwnIsNewest(net)
    requires key in Holds(net, key) ==> Holds(net, key)[key].seqNo <= root.seqNo
    ensures OwnIsNewest(Grown(net, key, root))
  {
    var next := Grown(net, key, root);
    forall i | 0 <= i < |next.log|
      ensures next.log[i].0 in Holds(next, next.log[i].0)
              && next.log[i].1.seqNo <= Holds(next, next.log[i].0)[next.log[i].0].seqNo
    {
      if i < |net.log| {
        assert next.log[i] == net.log[i];
      }
    }
  }

  lemma NamesGrow(net: Network, key: Key, root: RootRef)
    requires NamesPublished(net.log, root)
    requires forall i :: 0 <= i < |net.log| ==> NamesPublished(net.log, net.log[i].1)
    ensures var log := net.log + [(key, root)]; forall i :: 0 <= i < |log| ==> NamesPublished(log, log[i].1)
  {
    var log := net.log + [(key, root)];
    forall i | 0 <= i < |log| ensures NamesPublished(log, log[i].1) {
      StillPublished(net.log, if i < |net.log| then net.log[i].1 else root, (key, root));
    }
  }

  lemma NumbersGrow(net: Network, key: Key, root: RootRef)
    requires Numbered(net.log) && Distinct(net.log) && Unused(net, root.cid)
    requires forall i :: 0 <= i < |net.log| && net.log[i].0 == key && root.seqNo > 0 ==> net.log[i].1.seqNo < root.seqNo
    ensures Numbered(net.log + [(key, root)]) && Distinct(net.log + [(key, root)])
  {
  }

  lemma LogGrows(net: Network, key: Key, root: RootRef)
    requires Inv(net) && Unused(net, root.cid) && NamesPublished(net.log, root)
    requires key in Holds(net, key) ==> Holds(net, key)[key].seqNo < root.seqNo || Holds(net, key)[key].seqNo == root.seqNo == 0
    ensures Inv(Grown(net, key, root))
  {
    KnownGrows(net, key, root);
    OwnGrows(net, key, root);
    NamesGrow(net, key, root);
    NumbersGrow(net, key, root);
  }

  lemma LearnKeeps(net: Network, key: Key, author: Key, root: RootRef)
    requires Inv(net) && (author, root) in net.log && !Stale(Holds(net, key), author, root)
    ensures Inv(Put(net, key, author, root))
  {
    var next := Put(net, key, author, root);
    forall k, a | a in Holds(next, k) ensures (a, Holds(next, k)[a]) in next.log {
      if k != key || a != author {
        assert a in Holds(net, k) && Holds(next, k)[a] == Holds(net, k)[a];
      }
    }
    OwnStays(net, key, author, root);
  }

  lemma OwnStays(net: Network, key: Key, author: Key, root: RootRef)
    requires OwnIsNewest(net) && !Stale(Holds(net, key), author, root)
    ensures OwnIsNewest(Put(net, key, author, root))
  {
    var next := Put(net, key, author, root);
    forall i | 0 <= i < |next.log|
      ensures next.log[i].0 in Holds(next, next.log[i].0)
              && next.log[i].1.seqNo <= Holds(next, next.log[i].0)[next.log[i].0].seqNo
    {
      assert next.log[i] == net.log[i];
    }
  }

  lemma StepKeeps(net: Network, step: Step)
    requires Inv(net) && Enabled(net, step)
    ensures Inv(Do(net, step))
  {
    match step
    case Publish(key, cid, at) =>
      NextNamesPublished(net, key, cid, at);
      LogGrows(net, key, NextRoot(Holds(net, key), key, cid, at));
    case PublishPlain(key, cid, at) =>
      LogGrows(net, key, PlainRoot(cid, at));
    case Learn(key, n) =>
      if !Stale(Holds(net, key), net.log[n].0, net.log[n].1) {
        LearnKeeps(net, key, net.log[n].0, net.log[n].1);
      }
  }

  lemma {:induction false} RunKeeps(nets: seq<Network>, steps: seq<Step>, n: nat)
    requires Run(nets, steps) && n < |nets|
    ensures Inv(nets[n])
  {
    if n > 0 {
      RunKeeps(nets, steps, n - 1);
      StepKeeps(nets[n - 1], steps[n - 1]);
    }
  }

  // ---------------------------------------------------------------------------------------------
  // What a root is taken to have seen
  // ---------------------------------------------------------------------------------------------

  /**
   The AppKey holds this root, or a later numbered one of the same author; of the others' roots only
   numbered ones count.
  */
  ghost predicate HasSeen(net: Network, key: Key, author: Key, root: RootRef) {
    var held := Holds(net, key);
    author in held &&
    ((held[author] == root && (root.seqNo > 0 || author == key)) || 0 < root.seqNo < held[author].seqNo)
  }

  lemma SeesHeld(log: seq<(Key, RootRef)>, author: Key, j: nat, held: RootRef)
    requires Distinct(log) && j < |log| && log[j].0 == author && (author, held) in log
    ensures SeesRoot(ObservationOf(held), log[j].1) <==> held == log[j].1 || 0 < log[j].1.seqNo < held.seqNo
  {
    var i :| 0 <= i < |log| && log[i] == (author, held);
    if SameRoot(held.cid, log[j].1.cid) {
      assert i == j;
    }
  }

  lemma OwnSeen(net: Network, key: Key, j: nat)
    requires Inv(net) && j < |net.log| && net.log[j].0 == key && net.log[j].1.seqNo > 0
    ensures HasSeen(net, key, key, net.log[j].1)
  {
    var held := Holds(net, key)[key];
    assert (key, held) in net.log;
    var i :| 0 <= i < |net.log| && net.log[i] == (key, held);
    if i != j {
      assert held.seqNo != net.log[j].1.seqNo;
    }
  }

  /** When a root is published, it observes exactly the earlier roots its AppKey has seen. */
  lemma NewRootObserves(net: Network, key: Key, cid: Cid, at: int, j: nat)
    requires Inv(net) && Unused(net, cid) && j < |net.log|
    ensures RootObserves(key, NextRoot(Holds(net, key), key, cid, at), net.log[j].0, net.log[j].1) <==>
            HasSeen(net, key, net.log[j].0, net.log[j].1)
  {
    var (author, root) := net.log[j];
    var held := Holds(net, key);
    if author in held {
      assert (author, held[author]) in net.log;
      SeesHeld(net.log, author, j, held[author]);
    }
    if author == key {
      if root.seqNo > 0 {
        OwnSeen(net, key, j);
      }
      OwnParent(held, key, cid, at, root);
    } else {
      OtherParents(held, key, cid, at, author, root);
    }
  }

  lemma OwnParent(held: map<Key, RootRef>, key: Key, cid: Cid, at: int, root: RootRef)
    requires key in held && !SameRoot(cid, root.cid) && root.seqNo <= held[key].seqNo
    ensures RootObserves(key, NextRoot(held, key, cid, at), key, root) <==>
            root.seqNo > 0 || SeesRoot(ObservationOf(held[key]), root)
  {
    var mine := NextRoot(held, key, cid, at);
    assert mine.parents[0] == Parent(key, ObservationOf(held[key]));
  }

  lemma OtherParents(held: map<Key, RootRef>, key: Key, cid: Cid, at: int, author: Key, root: RootRef)
    requires author != key && !SameRoot(cid, root.cid)
    ensures RootObserves(key, NextRoot(held, key, cid, at), author, root) <==>
            author in held && held[author].seqNo > 0 && SeesRoot(ObservationOf(held[author]), root)
  {
  }

  /** No root observes one that is published after it. */
  lemma OlderDoesNotObserve(net: Network, key: Key, root: RootRef, j: nat)
    requires Inv(net) && Unused(net, root.cid) && j < |net.log|
    requires forall i :: 0 <= i < |net.log| && net.log[i].0 == key && root.seqNo > 0 ==> net.log[i].1.seqNo < root.seqNo
    ensures !RootObserves(net.log[j].0, net.log[j].1, key, root)
  {
    var (author, older) := net.log[j];
    assert NamesPublished(net.log, older);
    forall seen | WasPublished(net.log, key, seen) ensures !SeesRoot(seen, root) {
      var i :| 0 <= i < |net.log| && net.log[i].0 == key && ObservationOf(net.log[i].1) == seen;
    }
  }

  /** The publications so far stay at the front of the log. */
  lemma {:induction false} LogIsKept(nets: seq<Network>, steps: seq<Step>, m: nat, n: nat)
    requires Run(nets, steps) && m <= n < |nets|
    ensures nets[m].log <= nets[n].log
    decreases n
  {
    if m < n {
      LogIsKept(nets, steps, m, n - 1);
      assert nets[n] == Do(nets[n - 1], steps[n - 1]);
    }
  }

  /** The state in which the i-th root was published. */
  lemma {:induction false} PublishedAt(nets: seq<Network>, steps: seq<Step>, n: nat, i: nat) returns (m: nat)
    requires Run(nets, steps) && n < |nets| && i < |nets[n].log|
    ensures m < n && |nets[m].log| == i && !steps[m].Learn?
    ensures nets[m + 1].log == nets[m].log + [nets[n].log[i]]
  {
    assert nets[n] == Do(nets[n - 1], steps[n - 1]);
    if i < |nets[n - 1].log| {
      m := PublishedAt(nets, steps, n - 1, i);
      LogIsKept(nets, steps, n - 1, n);
    } else {
      m := n - 1;
    }
  }

  /**
   Over every run, of two published roots the later one observes the earlier one exactly when it is
   numbered and its AppKey had, when it published it, the earlier root or a later numbered one of the
   same AppKey; and the earlier one never observes the later one.
  */
  lemma ObservesIff(nets: seq<Network>, steps: seq<Step>, n: nat, i: nat, j: nat) returns (m: nat)
    requires Run(nets, steps) && n < |nets| && j < i < |nets[n].log|
    ensures m < n && |nets[m].log| == i && !steps[m].Learn? && nets[n].log[i].0 == steps[m].key
    ensures var ((key, later), (author, earlier)) := (nets[n].log[i], nets[n].log[j]);
            && (RootObserves(key, later, author, earlier) <==> steps[m].Publish? && HasSeen(nets[m], key, author, earlier))
            && !RootObserves(author, earlier, key, later)
  {
    m := PublishedAt(nets, steps, n, i);
    RunKeeps(nets, steps, m);
    LogIsKept(nets, steps, m, n);
    assert nets[m + 1] == Do(nets[m], steps[m]);
    var step := steps[m];
    var root := if step.Publish? then NextRoot(Holds(nets[m], step.key), step.key, step.cid, step.at) else PlainRoot(step.cid, step.at);
    assert nets[m + 1].log[i] == (step.key, root) == nets[n].log[i];
    assert nets[n].log[j] == nets[m].log[j];
    StepObserves(nets[m], step, root, j);
  }

  lemma StepObserves(net: Network, step: Step, root: RootRef, j: nat)
    requires Inv(net) && !step.Learn? && Enabled(net, step) && j < |net.log|
    requires root == if step.Publish? then NextRoot(Holds(net, step.key), step.key, step.cid, step.at) else PlainRoot(step.cid, step.at)
    ensures RootObserves(step.key, root, net.log[j].0, net.log[j].1) <==>
            step.Publish? && HasSeen(net, step.key, net.log[j].0, net.log[j].1)
    ensures !RootObserves(net.log[j].0, net.log[j].1, step.key, root)
  {
    forall k | 0 <= k < |net.log| && net.log[k].0 == step.key && root.seqNo > 0 ensures net.log[k].1.seqNo < root.seqNo {
    }
    OlderDoesNotObserve(net, step.key, root, j);
    if step.Publish? {
      NewRootObserves(net, step.key, step.cid, step.at, j);
    }
  }

  /** So no two different roots descend from each other, and a later one descends exactly from what was seen. */
  lemma DescentIff(nets: seq<Network>, steps: seq<Step>, n: nat, i: nat, j: nat) returns (m: nat)
    requires Run(nets, steps) && n < |nets| && j < i < |nets[n].log|
    ensures m < n && |nets[m].log| == i && !steps[m].Learn? && nets[n].log[i].0 == steps[m].key
    ensures var ((key, later), (author, earlier)) := (nets[n].log[i], nets[n].log[j]);
            RootRelation(key, later, author, earlier)
            == if steps[m].Publish? && HasSeen(nets[m], key, author, earlier) then LeftDescends else Concurrent
  {
    m := ObservesIff(nets, steps, n, i, j);
    RunKeeps(nets, steps, n);
  }

  // ---------------------------------------------------------------------------------------------
  // What an AppKey holds
  // ---------------------------------------------------------------------------------------------

  /** a is as new as b: a later number, or both without number and published no earlier. */
  predicate AsNew(a: RootRef, b: RootRef) {
    a.seqNo > b.seqNo || (a.seqNo == b.seqNo && (a.seqNo > 0 || a.publishedAt >= b.publishedAt))
  }

  /** A step never makes an AppKey hold an older root than before. */
  lemma HeldGrowsNewer(net: Network, step: Step, key: Key, author: Key)
    requires Enabled(net, step) && author in Holds(net, key)
    ensures author in Holds(Do(net, step), key) && AsNew(Holds(Do(net, step), key)[author], Holds(net, key)[author])
  {
    match step
    case Publish(_, _, _) =>
    case PublishPlain(_, _, _) =>
    case Learn(k, n) =>
      if !Stale(Holds(net, k), net.log[n].0, net.log[n].1) {
        PutAt(net, k, net.log[n].0, net.log[n].1, key, author);
      }
  }

  lemma PutAt(net: Network, k: Key, a: Key, root: RootRef, key: Key, author: Key)
    requires author in Holds(net, key)
    ensures var held := Holds(Put(net, k, a, root), key);
            author in held && held[author] == if key == k && author == a then root else Holds(net, key)[author]
  {
  }

  lemma AsNewIsTransitive(a: RootRef, b: RootRef, c: RootRef)
    requires AsNew(a, b) && AsNew(b, c)
    ensures AsNew(a, c)
  {
  }

  lemma LearnedIsHeld(net: Network, key: Key, n: nat)
    requires n < |net.log|
    ensures var (author, root) := net.log[n];
            author in Holds(Do(net, Learn(key, n)), key) && AsNew(Holds(Do(net, Learn(key, n)), key)[author], root)
  {
  }

  /** Whatever has reached an AppKey, from then on it holds a root of that author that is as new. */
  lemma {:induction false} NewestIsHeld(nets: seq<Network>, steps: seq<Step>, m: nat, n: nat)
    requires Run(nets, steps) && m < n < |nets| && steps[m].Learn?
    ensures var (author, root) := nets[m].log[steps[m].n];
            author in Holds(nets[n], steps[m].key) && AsNew(Holds(nets[n], steps[m].key)[author], root)
    decreases n
  {
    var key := steps[m].key;
    var (author, root) := nets[m].log[steps[m].n];
    LastStep(nets, steps, n);
    if n == m + 1 {
      LearnedIsHeld(nets[m], key, steps[m].n);
    } else {
      NewestIsHeld(nets, steps, m, n - 1);
      HeldGrowsNewer(nets[n - 1], steps[n - 1], key, author);
      AsNewIsTransitive(Holds(nets[n], key)[author], Holds(nets[n - 1], key)[author], root);
    }
  }

  lemma LastStep(nets: seq<Network>, steps: seq<Step>, n: nat)
    requires Run(nets, steps) && 0 < n < |nets|
    ensures Enabled(nets[n - 1], steps[n - 1]) && nets[n] == Do(nets[n - 1], steps[n - 1])
  {
  }

  /** How many numbered roots an AppKey has published. */
  function Numbers(steps: seq<Step>, key: Key): nat {
    if steps == [] then 0
    else
      var last := steps[|steps| - 1];
      Numbers(steps[..|steps| - 1], key) + (if last.Publish? && last.key == key then 1 else 0)
  }

  function OwnNumber(net: Network, key: Key): nat {
    if key in Holds(net, key) then Holds(net, key)[key].seqNo else 0
  }

  lemma OwnNumberAfter(net: Network, step: Step, key: Key)
    requires OwnIsNewest(net) && Enabled(net, step)
    ensures OwnNumber(Do(net, step), key) == OwnNumber(net, key) + (if step.Publish? && step.key == key then 1 else 0)
  {
    match step
    case Publish(k, cid, at) => PutNumber(net, k, k, NextRoot(Holds(net, k), k, cid, at), key);
    case PublishPlain(k, cid, at) => PutNumber(net, k, k, PlainRoot(cid, at), key);
    case Learn(k, n) =>
      if !Stale(Holds(net, k), net.log[n].0, net.log[n].1) {
        PutNumber(net, k, net.log[n].0, net.log[n].1, key);
      }
  }

  lemma PutNumber(net: Network, k: Key, author: Key, root: RootRef, key: Key)
    ensures OwnNumber(Put(net, k, author, root), key)
            == if key == k == author then root.seqNo else OwnNumber(net, key)
  {
  }

  /** The numbered roots of an AppKey are numbered one after the other from one. */
  lemma {:induction false} NumbersCount(nets: seq<Network>, steps: seq<Step>, n: nat, key: Key)
    requires Run(nets, steps) && n < |nets|
    ensures OwnNumber(nets[n], key) == Numbers(steps[..n], key)
  {
    if n > 0 {
      NumbersCount(nets, steps, n - 1, key);
      RunKeeps(nets, steps, n - 1);
      OwnNumberAfter(nets[n - 1], steps[n - 1], key);
      assert steps[..n][..n - 1] == steps[..n - 1];
    }
  }

  /** Every published root takes part in the merge as the root of its own step. */
  lemma PublishedAsGiven(net: Network, step: Step)
    requires Enabled(net, step) && !step.Learn?
    ensures var log := Do(net, step).log;
            && log == net.log + [(step.key, log[|net.log|].1)]
            && var root := log[|net.log|].1;
               !root.localOnly && root.cid == step.cid && root.publishedAt == step.at
               && Holds(Do(net, step), step.key)[step.key] == root && (step.PublishPlain? ==> root.seqNo == 0)
  {
  }
}
