/** `runHandshakeMonitor` of cmd/wg-meshd/main.go as it runs: the savedPeers map
    is updated in place, the registry is a shared object, and every call of
    `check` is tied to the steps of module MonitorCore.
 */
module Monitor {
  import opened Keys
  import opened Options
  import opened WireGuard
  import opened Registry
  import opened MonitorCore

  /** What the device, the clock and the scans answer during one check; phase 1
      is indexed by position in the listing, phase 2 by turn. */
  datatype Answers = Answers(
    clearOk: nat -> bool,
    recordedAt: nat -> int,
    checkedAt: nat -> int,
    scan: nat -> Option<string>,
    restoreOk: nat -> bool,
    writtenAt: nat -> int,
    doneAt: nat -> int)

  function ExamineStep(peers: seq<PeerInfo>, now: int, a: Answers, i: nat): Step
    requires i < |peers|
  {
    Examine(peers[i], now, a.clearOk(i), a.recordedAt(i))
  }

  function RetryStep(order: seq<Key>, a: Answers, j: nat): Step
    requires j < |order|
  {
    Retry(order[j], a.checkedAt(j), a.scan(j), a.restoreOk(j), a.writtenAt(j), a.doneAt(j))
  }

  function ExamineSteps(peers: seq<PeerInfo>, now: int, a: Answers): seq<Step> {
    seq(|peers|, i requires 0 <= i < |peers| => ExamineStep(peers, now, a, i))
  }

  function RetrySteps(order: seq<Key>, a: Answers): seq<Step> {
    seq(|order|, j requires 0 <= j < |order| => RetryStep(order, a, j))
  }

  /** `order` lists every key of the set exactly once. */
  ghost predicate Enumerates(order: seq<Key>, keys: set<Key>) {
    && (forall pk :: pk in order <==> pk in keys)
    && (forall i, j :: 0 <= i < j < |order| ==> order[i] != order[j])
  }

  class HandshakeMonitor {
    const cfg: Config
    const state: State
    var savedPeers: map<Key, SavedPeer>
    /** Everything written to the device so far, besides the commands of scans. */
    ghost var sent: seq<Command>
    ghost var steps: seq<Step>

    ghost predicate Valid()
      reads this, state
    {
      Core(savedPeers, state.peers) == After(cfg, steps) && sent == Sent(cfg, steps)
    }

    constructor (cfg: Config, state: State)
      requires state.peers == map[]
      ensures Valid() && steps == []
      ensures this.cfg == cfg && this.state == state
    {
      this.cfg := cfg;
      this.state := state;
      savedPeers := map[];
      sent := [];
      steps := [];
    }

    /** One turn of phase 1. */
    method ExaminePeer(p: PeerInfo, now: int, clearOk: bool, at: int)
      requires Valid()
      modifies this, state
      ensures Valid()
      ensures steps == old(steps) + [Examine(p, now, clearOk, at)]
    {
      AfterSnoc(cfg, steps, Examine(p, now, clearOk, at));
      steps := steps + [Examine(p, now, clearOk, at)];
      if p.publicKey == cfg.hub {
        return;
      }
      if p.endpoint == "" || p.endpoint == "(none)" {
        return;
      }
      if Contains(p.allowedIPs, "/24") {
        return;
      }
      var age := now - p.latestHandshake;
      if p.publicKey in savedPeers {
        return;
      }
      if age > cfg.timeoutSeconds {
        var normalized := NormalizedAllowedIPs(p.allowedIPs);
        if normalized != "" {
          sent := sent + [SetPeer(p.publicKey, p.endpoint, "", p.persistentKeepalive)];
        }
        savedPeers := savedPeers[p.publicKey :=
                                 SavedPeer(p.endpoint, normalized, p.persistentKeepalive, p.transferRx, at)];
        state.UpsertPeer(p.publicKey, (ps: PeerState) => ps.(isConnected := false), at);
      }
    }

    /** One turn of phase 2. */
    method RetryPeer(pk: Key, checkedAt: int, scan: Option<string>, restoreOk: bool, writtenAt: int, at: int)
      requires Valid() && pk in savedPeers
      modifies this, state
      ensures Valid()
      ensures steps == old(steps) + [Retry(pk, checkedAt, scan, restoreOk, writtenAt, at)]
      ensures old(savedPeers.Keys) - {pk} <= savedPeers.Keys
    {
      AfterSnoc(cfg, steps, Retry(pk, checkedAt, scan, restoreOk, writtenAt, at));
      steps := steps + [Retry(pk, checkedAt, scan, restoreOk, writtenAt, at)];
      var sp := savedPeers[pk];
      if checkedAt - sp.removedAt < Half(cfg.restoreInterval) {
        return;
      }
      if cfg.blindScan {
        if scan.Some? {
          savedPeers := savedPeers - {pk};
          state.UpsertPeer(pk, (ps: PeerState) => ps.(isConnected := true), at);
          return;
        }
      }
      sent := sent + [SetPeer(pk, sp.endpoint, sp.allowedIPs, sp.keepAlive)];
      if !restoreOk {
        return;
      }
      savedPeers := savedPeers[pk := sp.(removedAt := at)];
    }

    /** One call of `check`; `listing` is None when ListPeers fails.  The saved
        peers are visited in the unspecified order of a Go map, `order`. */
    method Check(listing: Option<seq<PeerInfo>>, now: int, a: Answers) returns (ghost order: seq<Key>)
      requires Valid()
      modifies this, state
      ensures Valid()
      ensures listing.None? ==> steps == old(steps)
      ensures listing.Some? ==>
                var examined := old(steps) + ExamineSteps(listing.value, now, a);
                && steps == examined + RetrySteps(order, a)
                && Enumerates(order, After(cfg, examined).saved.Keys)
    {
      order := [];
      if listing.None? {
        return;
      }
      ExamineAll(listing.value, now, a);
      order := RetryAll(a);
    }

    /** What PeerCount reports between checks. */
    method PeerTotals() returns (total: nat, connected: nat)
      requires Valid()
      ensures total == connected + |savedPeers|
    {
      PartitionCounts(cfg, steps);
      total, connected := state.PeerCount();
    }

    /** Phase 1. */
    method ExamineAll(peers: seq<PeerInfo>, now: int, a: Answers)
      requires Valid()
      modifies this, state
      ensures Valid()
      ensures steps == old(steps) + ExamineSteps(peers, now, a)
    {
      ghost var plan := ExamineSteps(peers, now, a);
      assert plan[..|peers|] == plan;
      for i := 0 to |peers|
        invariant Valid() && steps == old(steps) + plan[..i]
      {
        NextStep(old(steps), plan, i);
        ExaminePeer(peers[i], now, a.clearOk(i), a.recordedAt(i));
      }
    }

    /** Phase 2. */
    method RetryAll(a: Answers) returns (ghost order: seq<Key>)
      requires Valid()
      modifies this, state
      ensures Valid()
      ensures steps == old(steps) + RetrySteps(order, a)
      ensures Enumerates(order, old(savedPeers.Keys))
    {
      order := [];
      var turn := 0;
      var todo := savedPeers.Keys;
      ghost var keys := savedPeers.Keys;
      assert old(steps) + RetrySteps([], a) == old(steps);
      while todo != {}
        invariant Valid() && turn == |order| && todo <= savedPeers.Keys
        invariant InPhaseTwo(old(steps), steps, order, keys, todo, a)
        decreases todo
      {
        var pk :| pk in todo;
        NextTurn(old(steps), steps, order, keys, todo, pk, a);
        RetryPeer(pk, a.checkedAt(turn), a.scan(turn), a.restoreOk(turn), a.writtenAt(turn), a.doneAt(turn));
        order, todo, turn := order + [pk], todo - {pk}, turn + 1;
      }
    }
  }

  /** Phase 2 has retried `order`, which is all keys but `todo`. */
  ghost predicate InPhaseTwo(done: seq<Step>, steps: seq<Step>, order: seq<Key>, keys: set<Key>, todo: set<Key>,
                             a: Answers) {
    steps == done + RetrySteps(order, a) && todo <= keys && Enumerates(order, keys - todo)
  }

  lemma NextStep(done: seq<Step>, plan: seq<Step>, i: nat)
    requires i < |plan|
    ensures done + plan[..i] + [plan[i]] == done + plan[..i + 1]
  {
  }

  lemma NextTurn(done: seq<Step>, steps: seq<Step>, order: seq<Key>, keys: set<Key>, todo: set<Key>, pk: Key,
                 a: Answers)
    requires InPhaseTwo(done, steps, order, keys, todo, a) && pk in todo
    ensures InPhaseTwo(done, steps + [RetryStep(order + [pk], a, |order|)], order + [pk], keys, todo - {pk}, a)
  {
    var step := RetryStep(order + [pk], a, |order|);
    assert RetrySteps(order + [pk], a) == RetrySteps(order, a) + [step];
    assert steps + [step] == done + RetrySteps(order + [pk], a);
    assert keys - (todo - {pk}) == (keys - todo) + {pk};
    assert forall i :: 0 <= i < |order| ==> order[i] in order;
  }
}
