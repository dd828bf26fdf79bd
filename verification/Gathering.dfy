/** The gathering loops of the protocol of module DhtProtocol: in every run each
    table is the replay of the inserts made at its node, and each handler's
    bucket reads are the loop of `Table.Gather` with the inserts of the run's own
    steps as the interference.
 */
module Gathering {
  import opened Keys
  import opened XorMetric
  import opened RoutingTable
  import opened Closest
  import opened DhtTable
  import opened DhtProtocol
  import Snapshot

  // ------------------------------------------------- the inserts of a run

  /** What one step inserts at node pk. */
  ghost function InsertsOf(nodeId: Key -> ID, s: State, step: Step, pk: Key): seq<Contact>
    requires Enabled(s, step)
  {
    match step
    case Seed(at, seedKey, seedEndpoint) =>
      if at == pk then [Contact(nodeId(seedKey), seedKey, seedEndpoint, "", "")] else []
    case Register(at, msg, remoteAddr, observed) => if at == pk then [Registration(msg, remoteAddr, observed)] else []
    case Learn(at, msg, k) => if at == pk && msg.contacts[k].id != nodeId(pk) then [msg.contacts[k]] else []
    case _ => []
  }

  /** What a run inserts at node pk, oldest first. */
  ghost function InsertsAt(nodeId: Key -> ID, steps: seq<Step>, pk: Key): seq<Contact>
    requires IsRun(nodeId, steps)
  {
    if steps == [] then []
    else
      var front := steps[..|steps| - 1];
      InsertsAt(nodeId, front, pk) + InsertsOf(nodeId, After(nodeId, front), steps[|steps| - 1], pk)
  }

  lemma TableStep(nodeId: Key -> ID, s: State, step: Step, pk: Key)
    requires Enabled(s, step) && pk in s.nodes
    ensures pk in Apply(nodeId, s, step).nodes
    ensures Apply(nodeId, s, step).nodes[pk].buckets ==
            InsertAll(nodeId(pk), s.nodes[pk].buckets, InsertsOf(nodeId, s, step, pk))
  {
  }

  lemma {:induction false} NoInsertsBefore(nodeId: Key -> ID, steps: seq<Step>, pk: Key)
    requires IsRun(nodeId, steps) && pk !in After(nodeId, steps).nodes
    ensures InsertsAt(nodeId, steps, pk) == []
  {
    if steps != [] {
      var front, last := steps[..|steps| - 1], steps[|steps| - 1];
      NoInsertHere(nodeId, After(nodeId, front), last, pk);
      NoInsertsBefore(nodeId, front, pk);
    }
  }

  lemma NoInsertHere(nodeId: Key -> ID, s: State, step: Step, pk: Key)
    requires Enabled(s, step) && pk !in Apply(nodeId, s, step).nodes
    ensures pk !in s.nodes && InsertsOf(nodeId, s, step, pk) == []
  {
  }

  lemma ReplayMore(self: ID, history: seq<Contact>, cs: seq<Contact>)
    ensures InsertAll(self, Replay(self, history), cs) == Replay(self, history + cs)
  {
    InsertAllAppend(self, Empty(), history, cs);
  }

  /** In every run every table is the replay of the inserts made at its node. */
  lemma {:induction false} TableIsReplay(nodeId: Key -> ID, steps: seq<Step>, pk: Key)
    requires IsRun(nodeId, steps) && pk in After(nodeId, steps).nodes
    ensures After(nodeId, steps).nodes[pk].buckets == Replay(nodeId(pk), InsertsAt(nodeId, steps, pk))
  {
    var front, last := steps[..|steps| - 1], steps[|steps| - 1];
    var s := After(nodeId, front);
    if pk in s.nodes {
      TableIsReplay(nodeId, front, pk);
      TableStep(nodeId, s, last, pk);
      ReplayMore(nodeId(pk), InsertsAt(nodeId, front, pk), InsertsOf(nodeId, s, last, pk));
    } else {
      NoInsertsBefore(nodeId, front, pk);
    }
  }

  // ------------------------------------------ every gathering is a Gather

  /** The interference with a gathering: the inserts before each bucket read so
      far, and those since the last read. */
  datatype Interference = Interference(schedule: seq<seq<Contact>>, later: seq<Contact>)

  /** The inserts at node pk after the first i steps, cut at the reads of handler h. */
  ghost function InterferenceOf(nodeId: Key -> ID, steps: seq<Step>, i: nat, h: nat, pk: Key): Interference
    requires IsRun(nodeId, steps)
  {
    if |steps| <= i then Interference([], [])
    else
      var front, last := steps[..|steps| - 1], steps[|steps| - 1];
      var x := InterferenceOf(nodeId, front, i, h, pk);
      if last == ReadBucket(h) then Interference(x.schedule + [x.later], [])
      else x.(later := x.later + InsertsOf(nodeId, After(nodeId, front), last, pk))
  }

  /** Handler h has read what Table.Gather reads from a table that had seen
      `history`, under this interference. */
  ghost predicate Gathers(nodeId: Key -> ID, hd: Handler, history: seq<Contact>, x: Interference) {
    && hd.next == |x.schedule| <= BUCKETS
    && hd.gathered == Flatten(Pieces(nodeId(hd.node), history, x.schedule))
  }

  lemma InsertsAssociate(a: seq<Contact>, b: seq<Contact>, c: seq<Contact>)
    ensures a + (b + c) == (a + b) + c
  {
  }

  lemma AfterRead(history: seq<Contact>, schedule: seq<seq<Contact>>, later: seq<Contact>)
    ensures (history + Flatten(schedule)) + later == history + Flatten(schedule + [later])
    ensures (history + Flatten(schedule + [later])) + [] == history + Flatten(schedule + [later])
  {
    var more := schedule + [later];
    assert more[..|schedule|] == schedule && more[..|schedule| + 1] == more;
    FlattenTake(more, |schedule|);
  }

  /** The inserts of the run are those before the gathering, those the reads were
      interleaved with, and those since. */
  lemma {:induction false} InterferenceIsInserts(nodeId: Key -> ID, steps: seq<Step>, i: nat, h: nat, pk: Key)
    requires IsRun(nodeId, steps) && i <= |steps| && IsRun(nodeId, steps[..i])
    ensures var x := InterferenceOf(nodeId, steps, i, h, pk);
            InsertsAt(nodeId, steps, pk) == (InsertsAt(nodeId, steps[..i], pk) + Flatten(x.schedule)) + x.later
    decreases |steps|
  {
    var history := InsertsAt(nodeId, steps[..i], pk);
    if i == |steps| {
      assert steps[..i] == steps;
      assert (history + []) + [] == history;
    } else {
      var front, last := steps[..|steps| - 1], steps[|steps| - 1];
      assert front[..i] == steps[..i];
      InterferenceIsInserts(nodeId, front, i, h, pk);
      var x, cs := InterferenceOf(nodeId, front, i, h, pk), InsertsOf(nodeId, After(nodeId, front), last, pk);
      AfterRead(history, x.schedule, x.later);
      InsertsAssociate(history + Flatten(x.schedule), x.later, cs);
    }
  }

  lemma PiecesFront(self: ID, history: seq<Contact>, schedule: seq<seq<Contact>>, later: seq<Contact>)
    requires |schedule| < BUCKETS
    ensures Pieces(self, history, schedule + [later])[..|schedule|] == Pieces(self, history, schedule)
  {
    var more := schedule + [later];
    forall k | 0 <= k < |schedule| ensures Pieces(self, history, more)[k] == Pieces(self, history, schedule)[k] {
      assert more[..k + 1] == schedule[..k + 1];
    }
  }

  lemma PiecesLast(self: ID, history: seq<Contact>, schedule: seq<seq<Contact>>, later: seq<Contact>)
    requires |schedule| < BUCKETS
    ensures Pieces(self, history, schedule + [later])[|schedule|] ==
            Replay(self, (history + Flatten(schedule)) + later)[|schedule|]
  {
    assert (schedule + [later])[..|schedule| + 1] == schedule + [later];
    AfterRead(history, schedule, later);
  }

  lemma PiecesSnoc(self: ID, history: seq<Contact>, schedule: seq<seq<Contact>>, later: seq<Contact>)
    requires |schedule| < BUCKETS
    ensures Flatten(Pieces(self, history, schedule + [later])) ==
            Flatten(Pieces(self, history, schedule)) + Replay(self, (history + Flatten(schedule)) + later)[|schedule|]
  {
    PiecesFront(self, history, schedule, later);
    PiecesLast(self, history, schedule, later);
    FlattenSnoc(Pieces(self, history, schedule + [later]), Pieces(self, history, schedule),
                Replay(self, (history + Flatten(schedule)) + later)[|schedule|]);
  }

  lemma FlattenSnoc(t: seq<seq<Contact>>, front: seq<seq<Contact>>, last: seq<Contact>)
    requires |t| == |front| + 1 && t[..|front|] == front && t[|front|] == last
    ensures Flatten(t) == Flatten(front) + last
  {
  }

  lemma HandlerStep(nodeId: Key -> ID, s: State, step: Step, h: nat)
    requires Enabled(s, step) && step != ReadBucket(h) && h < |s.handlers|
    ensures h < |Apply(nodeId, s, step).handlers| && Apply(nodeId, s, step).handlers[h] == s.handlers[h]
  {
  }

  lemma StartsEmpty(nodeId: Key -> ID, s: State, hd: Handler)
    requires GoodHandler(nodeId, s, hd) && hd.next == 0
    ensures hd.gathered == []
  {
    assert hd.gathered != [] ==> BucketIndex(nodeId(hd.node), hd.gathered[0].id) < 0;
  }

  /** Handler h of the run had read nothing after the first i steps. */
  ghost predicate Started(nodeId: Key -> ID, steps: seq<Step>, i: nat, h: nat) {
    && IsRun(nodeId, steps) && i <= |steps| && IsRun(nodeId, steps[..i])
    && h < |After(nodeId, steps[..i]).handlers| && After(nodeId, steps[..i]).handlers[h].next == 0
  }

  lemma ReadGathers(nodeId: Key -> ID, s: State, h: nat, history: seq<Contact>, x: Interference)
    requires Enabled(s, ReadBucket(h)) && Gathers(nodeId, s.handlers[h], history, x)
    requires var pk := s.handlers[h].node;
             s.nodes[pk].buckets == Replay(nodeId(pk), (history + Flatten(x.schedule)) + x.later)
    ensures Gathers(nodeId, Apply(nodeId, s, ReadBucket(h)).handlers[h], history,
                    Interference(x.schedule + [x.later], []))
  {
    PiecesSnoc(nodeId(s.handlers[h].node), history, x.schedule, x.later);
  }

  /** In every run, a handler that had read nothing after i steps has by now run
      the loop of Table.Gather as far as it has come: from the table as it stood
      then, with the inserts of the run's steps between its reads. */
  lemma {:induction false} HandlerIsGather(nodeId: Key -> ID, steps: seq<Step>, i: nat, h: nat)
    requires Started(nodeId, steps, i, h)
    ensures h < |After(nodeId, steps).handlers|
    ensures var hd, hd0 := After(nodeId, steps).handlers[h], After(nodeId, steps[..i]).handlers[h];
            && hd.node == hd0.node && hd.target == hd0.target && hd.node in After(nodeId, steps[..i]).nodes
            && Gathers(nodeId, hd, InsertsAt(nodeId, steps[..i], hd.node), InterferenceOf(nodeId, steps, i, h, hd.node))
    decreases |steps|
  {
    if i == |steps| {
      assert steps[..i] == steps;
      RunKeepsInv(nodeId, steps);
      assert GoodHandler(nodeId, After(nodeId, steps), After(nodeId, steps).handlers[h]);
      StartsEmpty(nodeId, After(nodeId, steps), After(nodeId, steps).handlers[h]);
    } else {
      var front, last := steps[..|steps| - 1], steps[|steps| - 1];
      assert front[..i] == steps[..i];
      HandlerIsGather(nodeId, front, i, h);
      GatherStepIs(nodeId, front, last, i, h);
    }
  }

  lemma GatherStepIs(nodeId: Key -> ID, front: seq<Step>, last: Step, i: nat, h: nat)
    requires Started(nodeId, front, i, h) && Enabled(After(nodeId, front), last)
    requires h < |After(nodeId, front).handlers|
    requires var hd := After(nodeId, front).handlers[h];
             Gathers(nodeId, hd, InsertsAt(nodeId, front[..i], hd.node), InterferenceOf(nodeId, front, i, h, hd.node))
    ensures var s, s' := After(nodeId, front), Apply(nodeId, After(nodeId, front), last);
            var hd, x := s.handlers[h], InterferenceOf(nodeId, front, i, h, s.handlers[h].node);
            && h < |s'.handlers| && s'.handlers[h].node == hd.node && s'.handlers[h].target == hd.target
            && Gathers(nodeId, s'.handlers[h], InsertsAt(nodeId, front[..i], hd.node),
                       if last == ReadBucket(h) then Interference(x.schedule + [x.later], [])
                       else x.(later := x.later + InsertsOf(nodeId, s, last, hd.node)))
  {
    var s := After(nodeId, front);
    var pk := s.handlers[h].node;
    if last == ReadBucket(h) {
      TableIsReplay(nodeId, front, pk);
      InterferenceIsInserts(nodeId, front, i, h, pk);
      ReadGathers(nodeId, s, h, InsertsAt(nodeId, front[..i], pk), InterferenceOf(nodeId, front, i, h, pk));
    } else {
      HandlerStep(nodeId, s, last, h);
    }
  }

  // -------------------------------------------------- what a handler has seen

  /** In every run, a finished handler has gathered no ID twice, every ID its
      node held when it started, and only IDs the node still holds. */
  lemma FinishedHandler(nodeId: Key -> ID, steps: seq<Step>, i: nat, h: nat)
    requires Started(nodeId, steps, i, h)
    requires h < |After(nodeId, steps).handlers| && After(nodeId, steps).handlers[h].next == BUCKETS
    ensures var hd := After(nodeId, steps).handlers[h];
            && hd.node in After(nodeId, steps[..i]).nodes && hd.node in After(nodeId, steps).nodes
            && SnapshotOf(After(nodeId, steps[..i]).nodes[hd.node].buckets, hd.gathered,
                          After(nodeId, steps).nodes[hd.node].buckets)
  {
    HandlerIsGather(nodeId, steps, i, h);
    var hd := After(nodeId, steps).handlers[h];
    var history, x := InsertsAt(nodeId, steps[..i], hd.node), InterferenceOf(nodeId, steps, i, h, hd.node);
    RunKeepsInv(nodeId, steps);
    assert GoodHandler(nodeId, After(nodeId, steps), hd);
    TableIsReplay(nodeId, steps[..i], hd.node);
    TableIsReplay(nodeId, steps, hd.node);
    InterferenceIsInserts(nodeId, steps, i, h, hd.node);
    SnapshotBounds(nodeId(hd.node), history, x.schedule);
    StillHeld(nodeId(hd.node), history + Flatten(x.schedule), x.later, hd.gathered);
  }

  lemma StillHeld(self: ID, history: seq<Contact>, later: seq<Contact>, all: seq<Contact>)
    requires forall id :: HasId(all, id) ==> Holds(Replay(self, history), id)
    ensures forall id :: HasId(all, id) ==> Holds(Replay(self, history + later), id)
  {
    forall id | HasId(all, id) ensures Holds(Replay(self, history + later), id) {
      ReplayKeepsIds(self, history, later, id);
    }
  }

  /** The last step inserts at most one contact. */
  lemma LastInsert(nodeId: Key -> ID, steps: seq<Step>, pk: Key, target: seq<Contact>)
    requires steps != [] && IsRun(nodeId, steps) && target < InsertsAt(nodeId, steps, pk)
    ensures target <= InsertsAt(nodeId, steps[..|steps| - 1], pk)
  {
    var front := steps[..|steps| - 1];
    AtMostOne(nodeId, After(nodeId, front), steps[|steps| - 1], pk);
    ProperPrefix(target, InsertsAt(nodeId, front, pk), InsertsOf(nodeId, After(nodeId, front), steps[|steps| - 1], pk));
  }

  lemma ProperPrefix(target: seq<Contact>, all: seq<Contact>, last: seq<Contact>)
    requires target < all + last && |last| <= 1
    ensures target <= all
  {
    assert target == (all + last)[..|target|];
  }

  lemma AtMostOne(nodeId: Key -> ID, s: State, step: Step, pk: Key)
    requires Enabled(s, step)
    ensures |InsertsOf(nodeId, s, step, pk)| <= 1
  {
  }

  /** The moment of the run at which node pk had seen these inserts. */
  lemma {:induction false} MomentOf(nodeId: Key -> ID, steps: seq<Step>, i: nat, pk: Key, target: seq<Contact>)
      returns (p: nat)
    requires IsRun(nodeId, steps) && i <= |steps| && IsRun(nodeId, steps[..i])
    requires InsertsAt(nodeId, steps[..i], pk) <= target <= InsertsAt(nodeId, steps, pk)
    ensures i <= p <= |steps| && IsRun(nodeId, steps[..p])
    ensures InsertsAt(nodeId, steps[..p], pk) == target
    decreases |steps|
  {
    if i == |steps| || target == InsertsAt(nodeId, steps, pk) {
      p := |steps|;
      assert steps[..p] == steps;
    } else {
      var front := steps[..|steps| - 1];
      assert front[..i] == steps[..i];
      LastInsert(nodeId, steps, pk, target);
      p := MomentOf(nodeId, front, i, pk, target);
      assert front[..p] == steps[..p];
    }
  }

  /** Every table between the inserts of a gathering is a table of the run. */
  lemma TableOfRun(nodeId: Key -> ID, steps: seq<Step>, i: nat, pk: Key, ev: seq<Contact>, later: seq<Contact>, m: nat)
      returns (p: nat)
    requires IsRun(nodeId, steps) && i <= |steps| && IsRun(nodeId, steps[..i]) && pk in After(nodeId, steps[..i]).nodes
    requires InsertsAt(nodeId, steps, pk) == (InsertsAt(nodeId, steps[..i], pk) + ev) + later && m <= |ev|
    ensures i <= p <= |steps| && IsRun(nodeId, steps[..p]) && pk in After(nodeId, steps[..p]).nodes
    ensures After(nodeId, steps[..p]).nodes[pk].buckets ==
            TableAt(nodeId(pk), InsertsAt(nodeId, steps[..i], pk), ev, m)
  {
    PrefixOfInserts(InsertsAt(nodeId, steps[..i], pk), ev, later, m);
    p := MomentOf(nodeId, steps, i, pk, InsertsAt(nodeId, steps[..i], pk) + ev[..m]);
    TableThen(nodeId, steps, i, p, pk);
  }

  lemma TableThen(nodeId: Key -> ID, steps: seq<Step>, i: nat, p: nat, pk: Key)
    requires i <= p <= |steps| && IsRun(nodeId, steps[..i]) && IsRun(nodeId, steps[..p])
    requires pk in After(nodeId, steps[..i]).nodes
    ensures pk in After(nodeId, steps[..p]).nodes
    ensures After(nodeId, steps[..p]).nodes[pk].buckets == Replay(nodeId(pk), InsertsAt(nodeId, steps[..p], pk))
  {
    assert steps[..p][..i] == steps[..i];
    NodesStay(nodeId, steps[..p], i, pk);
    TableIsReplay(nodeId, steps[..p], pk);
  }

  /** In every run, a finished handler for which no missed change preceded a seen
      one has gathered exactly the table of its node, endpoints included, as it
      stood at one moment of the run since it started. */
  lemma HandlerSawTable(nodeId: Key -> ID, steps: seq<Step>, i: nat, h: nat) returns (p: nat)
    requires Started(nodeId, steps, i, h)
    requires h < |After(nodeId, steps).handlers| && After(nodeId, steps).handlers[h].next == BUCKETS
    requires var pk := After(nodeId, steps).handlers[h].node;
             var x := InterferenceOf(nodeId, steps, i, h, pk);
             |x.schedule| == BUCKETS
             && Snapshot.SeenChangesFirst(nodeId(pk), InsertsAt(nodeId, steps[..i], pk), x.schedule)
    ensures i <= p <= |steps| && IsRun(nodeId, steps[..p])
    ensures var hd := After(nodeId, steps).handlers[h];
            && hd.node in After(nodeId, steps[..p]).nodes
            && hd.gathered == Flatten(After(nodeId, steps[..p]).nodes[hd.node].buckets)
  {
    HandlerIsGather(nodeId, steps, i, h);
    var pk := After(nodeId, steps).handlers[h].node;
    var history, x := InsertsAt(nodeId, steps[..i], pk), InterferenceOf(nodeId, steps, i, h, pk);
    var m := WholeMoment(nodeId(pk), history, x.schedule);
    InterferenceIsInserts(nodeId, steps, i, h, pk);
    p := TableOfRun(nodeId, steps, i, pk, Flatten(x.schedule), x.later, m);
  }

  lemma WholeMoment(self: ID, history: seq<Contact>, schedule: seq<seq<Contact>>) returns (m: nat)
    requires |schedule| == BUCKETS && Snapshot.SeenChangesFirst(self, history, schedule)
    ensures m <= |Flatten(schedule)|
    ensures Flatten(Pieces(self, history, schedule)) == Flatten(TableAt(self, history, Flatten(schedule), m))
  {
    Snapshot.WholeIfSeenFirst(self, history, schedule);
    m :| 0 <= m <= |Flatten(schedule)| && Snapshot.WholeAt(self, history, schedule, m);
  }

  lemma PrefixOfInserts(history: seq<Contact>, ev: seq<Contact>, later: seq<Contact>, m: nat)
    requires m <= |ev|
    ensures history <= history + ev[..m] <= (history + ev) + later
  {
    assert (history + ev) + later == (history + ev[..m]) + (ev[m..] + later);
  }

  lemma {:induction false} NodesStay(nodeId: Key -> ID, steps: seq<Step>, i: nat, pk: Key)
    requires IsRun(nodeId, steps) && i <= |steps| && IsRun(nodeId, steps[..i]) && pk in After(nodeId, steps[..i]).nodes
    ensures pk in After(nodeId, steps).nodes
    decreases |steps|
  {
    if i == |steps| {
      assert steps[..i] == steps;
    } else {
      var front := steps[..|steps| - 1];
      assert front[..i] == steps[..i];
      NodesStay(nodeId, front, i, pk);
    }
  }

  // ------------------------------------------------- every query can be answered

  lemma RunSnoc(nodeId: Key -> ID, steps: seq<Step>, step: Step)
    requires IsRun(nodeId, steps) && Enabled(After(nodeId, steps), step)
    ensures IsRun(nodeId, steps + [step]) && After(nodeId, steps + [step]) == Apply(nodeId, After(nodeId, steps), step)
  {
    assert (steps + [step])[..|steps|] == steps;
  }

  /** Every gathered list has an answer. */
  lemma AnswerExists(target: ID, all: seq<Contact>) returns (answer: seq<Contact>)
    requires DistinctIds(all)
    ensures IsClosest(target, all, BUCKET_SIZE, answer)
  {
    var sorted := Sorted(target, all);
    SortedContents(target, all);
    SortedOrdered(target, all);
    SortIsAscending(target, all, sorted);
    CutIsClosest(target, all, sorted, BUCKET_SIZE);
    answer := if |sorted| > BUCKET_SIZE then sorted[..BUCKET_SIZE] else sorted;
  }

  /** From every run an unanswered query can be answered, by reading the buckets
      that are still unread. */
  lemma {:induction false} CanAnswer(nodeId: Key -> ID, steps: seq<Step>, h: nat)
      returns (more: seq<Step>, answer: seq<Contact>)
    requires IsRun(nodeId, steps) && h < |After(nodeId, steps).handlers| && After(nodeId, steps).handlers[h].answers
    ensures IsRun(nodeId, steps + more) && Enabled(After(nodeId, steps + more), Respond(h, answer))
    ensures forall k :: 0 <= k < |more| ==> more[k] == ReadBucket(h)
    decreases BUCKETS - After(nodeId, steps).handlers[h].next
  {
    var s := After(nodeId, steps);
    RunKeepsInv(nodeId, steps);
    assert GoodHandler(nodeId, s, s.handlers[h]);
    if s.handlers[h].next == BUCKETS {
      more := [];
      assert steps + more == steps;
      answer := AnswerExists(s.handlers[h].target, s.handlers[h].gathered);
    } else {
      RunSnoc(nodeId, steps, ReadBucket(h));
      more, answer := CanAnswer(nodeId, steps + [ReadBucket(h)], h);
      assert (steps + [ReadBucket(h)]) + more == steps + ([ReadBucket(h)] + more);
      more := [ReadBucket(h)] + more;
    }
  }

  /** Whatever a query or an answer in flight says, every node of every run can
      register the one and learn the other. */
  lemma AnyoneMayReceive(nodeId: Key -> ID, steps: seq<Step>, pk: Key, m: Message, remoteAddr: string, observed: string)
    requires IsRun(nodeId, steps) && pk in After(nodeId, steps).nodes && m in After(nodeId, steps).sent
    ensures m.FindNode? ==> Enabled(After(nodeId, steps), Register(pk, m, remoteAddr, observed))
    ensures m.FindNodeResp? ==> forall k: nat :: k < |m.contacts| ==> Enabled(After(nodeId, steps), Learn(pk, m, k))
  {
  }
}
