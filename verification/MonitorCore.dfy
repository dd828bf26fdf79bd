/** The handshake monitor of cmd/wg-meshd/main.go as a state machine over the
    saved peers and the registry.

    One Examine step is one turn of phase 1 of `check`, one Retry step is one
    turn of phase 2.  Whatever the device, the clock and the blind scan answer
    is part of the step, so a run is any sequence of steps.
 */
module MonitorCore {
  import opened Keys
  import opened Options
  import opened WireGuard
  import opened Registry

  datatype Config = Config(
    hub: Key,               // vpsHubPubKey
    timeoutSeconds: int,    // int64(timeout.Seconds())
    restoreInterval: int,   // nanoseconds
    blindScan: bool)

  datatype SavedPeer = SavedPeer(
    endpoint: string,
    allowedIPs: string,
    keepAlive: int,
    baselineRx: int,
    removedAt: int)

  datatype Core = Core(saved: map<Key, SavedPeer>, registry: Peers)

  const INIT: Core := Core(map[], map[])

  datatype Step =
    | Examine(p: PeerInfo, now: int, clearOk: bool, at: int)
    | Retry(pk: Key, checkedAt: int, scan: Option<string>, restoreOk: bool, writtenAt: int, at: int)

  // ----------------------------------------------------------------- code

  function NormalizedAllowedIPs(allowed: string): string {
    if allowed == "" || allowed == "(none)" then "" else allowed
  }

  /** `strings.Contains` */
  predicate Contains(s: string, sub: string) {
    |sub| <= |s| && (s[..|sub|] == sub || (s != [] && Contains(s[1..], sub)))
  }

  /** Go's `/` truncates toward zero. */
  function Half(d: int): int {
    if d >= 0 then d / 2 else -((-d) / 2)
  }

  /** Phase 1 acts on this peer: it is not the hub, has a usable endpoint, is
      not a relay, is not tracked yet, and its last handshake is too old. */
  predicate GoesStale(cfg: Config, saved: map<Key, SavedPeer>, p: PeerInfo, now: int) {
    && p.publicKey != cfg.hub
    && p.endpoint != "" && p.endpoint != "(none)"
    && !Contains(p.allowedIPs, "/24")
    && p.publicKey !in saved
    && now - p.latestHandshake > cfg.timeoutSeconds
  }

  function SetConnected(registry: Peers, pk: Key, connected: bool, now: int): Peers {
    Upserted(registry, pk, (ps: PeerState) => ps.(isConnected := connected), now)
  }

  predicate Due(cfg: Config, sp: SavedPeer, checkedAt: int) {
    checkedAt - sp.removedAt >= Half(cfg.restoreInterval)
  }

  function Record(p: PeerInfo, at: int): SavedPeer {
    SavedPeer(p.endpoint, NormalizedAllowedIPs(p.allowedIPs), p.persistentKeepalive, p.transferRx, at)
  }

  function Apply(cfg: Config, c: Core, step: Step): Core {
    match step
    case Examine(p, now, _, at) =>
      if !GoesStale(cfg, c.saved, p, now) then c
      else Core(c.saved[p.publicKey := Record(p, at)], SetConnected(c.registry, p.publicKey, false, at))
    case Retry(pk, checkedAt, scan, restoreOk, _, at) =>
      if pk !in c.saved || !Due(cfg, c.saved[pk], checkedAt) then c
      else if cfg.blindScan && scan.Some? then Core(c.saved - {pk}, SetConnected(c.registry, pk, true, at))
      else if !restoreOk then c
      else c.(saved := c.saved[pk := c.saved[pk].(removedAt := at)])
  }

  /** What the step itself sends to the device, besides the commands of a scan. */
  function Commands(cfg: Config, c: Core, step: Step): seq<Command> {
    match step
    case Examine(p, now, _, _) =>
      if GoesStale(cfg, c.saved, p, now) && NormalizedAllowedIPs(p.allowedIPs) != ""
      then [SetPeer(p.publicKey, p.endpoint, "", p.persistentKeepalive)] else []
    case Retry(pk, checkedAt, scan, _, _, _) =>
      if pk !in c.saved || !Due(cfg, c.saved[pk], checkedAt) || (cfg.blindScan && scan.Some?) then []
      else [SetPeer(pk, c.saved[pk].endpoint, c.saved[pk].allowedIPs, c.saved[pk].keepAlive)]
  }

  predicate Accepted(step: Step) {
    match step
    case Examine(_, _, clearOk, _) => clearOk
    case Retry(_, _, _, restoreOk, _, _) => restoreOk
  }

  /** The peer the step scans for, if any. */
  function Scanned(cfg: Config, c: Core, step: Step): Option<Key> {
    if step.Retry? && cfg.blindScan && step.pk in c.saved && Due(cfg, c.saved[step.pk], step.checkedAt)
    then Some(step.pk) else None
  }

  function After(cfg: Config, steps: seq<Step>): Core {
    if steps == [] then INIT else Apply(cfg, After(cfg, steps[..|steps| - 1]), steps[|steps| - 1])
  }

  /** Everything the monitor itself has sent to the device. */
  function Sent(cfg: Config, steps: seq<Step>): seq<Command> {
    if steps == [] then []
    else Sent(cfg, steps[..|steps| - 1]) + Commands(cfg, After(cfg, steps[..|steps| - 1]), steps[|steps| - 1])
  }

  lemma AfterSnoc(cfg: Config, steps: seq<Step>, step: Step)
    ensures After(cfg, steps + [step]) == Apply(cfg, After(cfg, steps), step)
    ensures Sent(cfg, steps + [step]) == Sent(cfg, steps) + Commands(cfg, After(cfg, steps), step)
  {
    assert (steps + [step])[..|steps|] == steps;
  }

  // ------------------------------------------- saved and connected partition

  /** A registered peer is connected exactly when it is not saved, and every
      saved peer is registered. */
  ghost predicate Partition(c: Core) {
    && (forall pk :: pk in c.saved ==> pk in c.registry)
    && (forall pk :: pk in c.registry ==>
          c.registry[pk].publicKey == pk && (c.registry[pk].isConnected <==> pk !in c.saved))
  }

  lemma {:induction false} RunKeepsPartition(cfg: Config, steps: seq<Step>)
    ensures Partition(After(cfg, steps))
  {
    if steps != [] {
      RunKeepsPartition(cfg, steps[..|steps| - 1]);
      StepKeepsPartition(cfg, After(cfg, steps[..|steps| - 1]), steps[|steps| - 1]);
    }
  }

  lemma StepKeepsPartition(cfg: Config, c: Core, step: Step)
    requires Partition(c)
    ensures Partition(Apply(cfg, c, step))
  {
  }

  /** PeerCount's total is its connected count plus the number of saved peers. */
  lemma PartitionCounts(cfg: Config, steps: seq<Step>)
    ensures var c := After(cfg, steps);
            |c.registry| == |ConnectedKeys(c.registry)| + |c.saved|
  {
    var c := After(cfg, steps);
    RunKeepsPartition(cfg, steps);
    assert c.registry.Keys == ConnectedKeys(c.registry) + c.saved.Keys;
    assert ConnectedKeys(c.registry) !! c.saved.Keys;
    assert |c.registry| == |c.registry.Keys| && |c.saved| == |c.saved.Keys|;
  }

  // ------------------------------------------------------ the hub is spared

  lemma {:induction false} HubNeverSaved(cfg: Config, steps: seq<Step>)
    ensures cfg.hub !in After(cfg, steps).saved && cfg.hub !in After(cfg, steps).registry
  {
    if steps != [] {
      HubNeverSaved(cfg, steps[..|steps| - 1]);
    }
  }

  /** At no step of any run is the hub written to or scanned. */
  lemma HubNeverTouched(cfg: Config, steps: seq<Step>, step: Step)
    ensures forall k :: 0 <= k < |Commands(cfg, After(cfg, steps), step)| ==>
              Commands(cfg, After(cfg, steps), step)[k].publicKey != cfg.hub
    ensures Scanned(cfg, After(cfg, steps), step) != Some(cfg.hub)
  {
    HubNeverSaved(cfg, steps);
  }

  // ---------------------------------------------- how a saved record changes

  predicate SameRecord(a: SavedPeer, b: SavedPeer) {
    && a.endpoint == b.endpoint && a.allowedIPs == b.allowedIPs
    && a.keepAlive == b.keepAlive && a.baselineRx == b.baselineRx
  }

  /** The step is a scan that found an endpoint for pk. */
  predicate IsHit(cfg: Config, step: Step, pk: Key) {
    cfg.blindScan && step.Retry? && step.pk == pk && step.scan.Some?
  }

  /** One step: a saved peer leaves only by a successful scan, and one that
      stays keeps its record; a scan success makes it leave exactly when due. */
  lemma SavedStep(cfg: Config, c: Core, step: Step, pk: Key)
    requires pk in c.saved
    ensures pk !in Apply(cfg, c, step).saved <==> IsHit(cfg, step, pk) && Due(cfg, c.saved[pk], step.checkedAt)
    ensures pk in Apply(cfg, c, step).saved ==> SameRecord(c.saved[pk], Apply(cfg, c, step).saved[pk])
  {
  }

  /** Over any stretch of a run without a successful scan for pk, a saved peer
      stays saved and its endpoint, routes, keepalive and baseline do not change. */
  lemma {:induction false} SavedUntilHit(cfg: Config, steps: seq<Step>, i: nat, pk: Key)
    requires i <= |steps| && pk in After(cfg, steps[..i]).saved
    requires forall j :: i <= j < |steps| ==> !IsHit(cfg, steps[j], pk)
    ensures pk in After(cfg, steps).saved
    ensures SameRecord(After(cfg, steps[..i]).saved[pk], After(cfg, steps).saved[pk])
    decreases |steps|
  {
    if i == |steps| {
      assert steps[..i] == steps;
    } else {
      var front, last := steps[..|steps| - 1], steps[|steps| - 1];
      assert front[..i] == steps[..i];
      SavedUntilHit(cfg, front, i, pk);
      SavedStep(cfg, After(cfg, front), last, pk);
    }
  }

  /** Without the blind scan no saved peer ever leaves: a restore only renews
      its saved time, and phase 1 skips it, whatever handshakes it makes. */
  lemma SavedForeverWithoutScan(cfg: Config, steps: seq<Step>, i: nat, pk: Key)
    requires !cfg.blindScan && i <= |steps| && pk in After(cfg, steps[..i]).saved
    ensures pk in After(cfg, steps).saved && pk in After(cfg, steps).registry
    ensures !After(cfg, steps).registry[pk].isConnected
  {
    SavedUntilHit(cfg, steps, i, pk);
    RunKeepsPartition(cfg, steps);
  }

  /** A peer is recorded as stale, its old endpoint is restored when that is due,
      and it is then listed with a handshake made in that very second. */
  function RestoredRun(p: PeerInfo, now: int, at: int, due: int, later: int): seq<Step> {
    [Examine(p, now, true, at),
     Retry(p.publicKey, due, None, true, due, due),
     Examine(p.(latestHandshake := later), later, true, due)]
  }

  /** So without the blind scan every stale peer gets stuck: it is restored, it
      makes a handshake and is listed with it, and it stays saved and disconnected. */
  lemma FreshButSaved(cfg: Config, p: PeerInfo, now: int, at: int, due: int, later: int)
    requires !cfg.blindScan && GoesStale(cfg, map[], p, now) && due - at >= Half(cfg.restoreInterval)
    ensures var run, pk := RestoredRun(p, now, at, due, later), p.publicKey;
            && Marks(cfg, After(cfg, run[..1]), run[1]) == [Restored(pk, due)]
            && pk in After(cfg, run).saved && pk in After(cfg, run).registry
            && !After(cfg, run).registry[pk].isConnected
  {
    var run := RestoredRun(p, now, at, due, later);
    assert run[..1] == [] + [run[0]];
    AfterSnoc(cfg, [], run[0]);
    SavedForeverWithoutScan(cfg, run, 1, p.publicKey);
  }

  /** Concretely: last handshake at second 1000, recorded at 1121, restored half
      an interval later, next handshake at 1300. */
  lemma FreshButSavedExample(cfg: Config, p: PeerInfo)
    requires cfg == Config("hub", 120, 300_000_000_000, false)
    requires p == PeerInfo("lisa", "192.0.2.7:51820", "(none)", 1000, 0, 25)
    ensures var c := After(cfg, RestoredRun(p, 1121, 0, 150_000_000_000, 1300));
            "lisa" in c.saved && "lisa" in c.registry && !c.registry["lisa"].isConnected
  {
    NoRelay(p.allowedIPs);
    FreshButSaved(cfg, p, 1121, 0, 150_000_000_000, 1300);
  }

  lemma {:induction false} NoRelay(s: string)
    requires forall i :: 0 <= i < |s| ==> s[i] != '/'
    ensures !Contains(s, "/24")
  {
    if |s| >= 3 {
      assert s[..3][0] == s[0];
      NoRelay(s[1..]);
    }
  }

  // ------------------------------------------ where records and writes come from

  /** The record was taken from peer p as the device reported it, at a moment
      when p was neither hub nor relay, had an endpoint, and was too old. */
  predicate RecordedFrom(cfg: Config, sp: SavedPeer, p: PeerInfo, now: int) {
    && p.publicKey != cfg.hub && p.endpoint != "" && p.endpoint != "(none)" && !Contains(p.allowedIPs, "/24")
    && now - p.latestHandshake > cfg.timeoutSeconds
    && sp.endpoint == p.endpoint
    && (sp.allowedIPs == p.allowedIPs || (sp.allowedIPs == "" && p.allowedIPs == NO_ROUTES))
    && sp.keepAlive == p.persistentKeepalive
    && sp.baselineRx == p.transferRx
  }

  /** Every saved record goes back to one examined peer of the run. */
  lemma {:induction false} SavedProvenance(cfg: Config, steps: seq<Step>, pk: Key) returns (i: nat)
    requires pk in After(cfg, steps).saved
    ensures i < |steps| && steps[i].Examine? && steps[i].p.publicKey == pk
    ensures RecordedFrom(cfg, After(cfg, steps).saved[pk], steps[i].p, steps[i].now)
  {
    var front, last := steps[..|steps| - 1], steps[|steps| - 1];
    if pk in After(cfg, front).saved {
      SavedStep(cfg, After(cfg, front), last, pk);
      i := SavedProvenance(cfg, front, pk);
    } else {
      i := |front|;
    }
  }

  /** The command sets a peer to an endpoint it was once listed with, and to
      the routes it was then listed with or to none. */
  predicate WrittenFrom(cmd: Command, p: PeerInfo) {
    && cmd.SetPeer? && cmd.publicKey == p.publicKey && cmd.endpoint == p.endpoint
    && cmd.keepAlive == p.persistentKeepalive
    && (cmd.allowedIPs == "" || cmd.allowedIPs == p.allowedIPs)
  }

  /** So does every command the monitor ever sends. */
  lemma {:induction false} SentProvenance(cfg: Config, steps: seq<Step>, k: nat) returns (i: nat)
    requires k < |Sent(cfg, steps)|
    ensures i < |steps| && steps[i].Examine? && WrittenFrom(Sent(cfg, steps)[k], steps[i].p)
  {
    var front, last := steps[..|steps| - 1], steps[|steps| - 1];
    if k < |Sent(cfg, front)| {
      i := SentProvenance(cfg, front, k);
    } else if last.Examine? {
      i := |front|;
    } else {
      i := SavedProvenance(cfg, front, last.pk);
    }
  }

  // --------------------------------------------------------------- timing

  datatype Mark =
    | Recorded(pk: Key, at: int)    // recorded as stale
    | Restored(pk: Key, at: int)    // old endpoint successfully written back
    | Recovered(pk: Key, at: int)   // scan succeeded, the saved period ends

  function Marks(cfg: Config, c: Core, step: Step): seq<Mark> {
    match step
    case Examine(p, now, _, at) => if GoesStale(cfg, c.saved, p, now) then [Recorded(p.publicKey, at)] else []
    case Retry(pk, checkedAt, scan, restoreOk, writtenAt, at) =>
      if pk !in c.saved || !Due(cfg, c.saved[pk], checkedAt) then []
      else if cfg.blindScan && scan.Some? then [Recovered(pk, at)]
      else if restoreOk then [Restored(pk, writtenAt)]
      else []
  }

  function Trace(cfg: Config, steps: seq<Step>): seq<Mark> {
    if steps == [] then []
    else Trace(cfg, steps[..|steps| - 1]) + Marks(cfg, After(cfg, steps[..|steps| - 1]), steps[|steps| - 1])
  }

  /** The clock does not go back: within a step and from step to step. */
  predicate Chronological(steps: seq<Step>) {
    steps == [] ||
    var last := steps[|steps| - 1];
    && Chronological(steps[..|steps| - 1])
    && (last.Retry? ==> last.checkedAt <= last.writtenAt <= last.at)
    && (|steps| > 1 ==> steps[|steps| - 2].at <= if last.Retry? then last.checkedAt else last.at)
  }

  /** Marks i < j belong to one saved period of their peer. */
  ghost predicate SamePeriod(trace: seq<Mark>, i: nat, j: nat)
    requires i < j <= |trace|
  {
    forall k :: i <= k < j && trace[k].pk == trace[i].pk ==> !trace[k].Recovered?
  }

  /** Every restore comes at least `gap` after every earlier mark of its period. */
  ghost predicate Spaced(trace: seq<Mark>, gap: int) {
    forall i, j :: 0 <= i < j < |trace| && trace[j].Restored? && trace[i].pk == trace[j].pk
                   && SamePeriod(trace, i, j) ==>
      trace[j].at - trace[i].at >= gap
  }

  /** The marks of the period that is still open lie before the saved time. */
  ghost predicate OpenMarks(trace: seq<Mark>, c: Core) {
    forall i :: 0 <= i < |trace| && SamePeriod(trace, i, |trace|) ==>
      trace[i].pk in c.saved && trace[i].at <= c.saved[trace[i].pk].removedAt
  }

  lemma SamePeriodFront(trace: seq<Mark>, more: seq<Mark>, i: nat, j: nat)
    requires i < j <= |trace|
    ensures SamePeriod(trace + more, i, j) <==> SamePeriod(trace, i, j)
  {
    assert forall k :: 0 <= k < |trace| ==> (trace + more)[k] == trace[k];
  }

  /** A mark that stays open across one more mark was open before it. */
  lemma OpenBefore(trace: seq<Mark>, m: Mark, i: nat)
    requires i < |trace| && SamePeriod(trace + [m], i, |trace| + 1)
    ensures SamePeriod(trace, i, |trace|)
    ensures !(m.Recovered? && m.pk == trace[i].pk)
  {
    assert forall k :: 0 <= k < |trace| ==> (trace + [m])[k] == trace[k];
    assert (trace + [m])[|trace|] == m;
  }

  lemma SpacedSnoc(trace: seq<Mark>, m: Mark, gap: int)
    requires Spaced(trace, gap)
    requires m.Restored? ==> forall i :: 0 <= i < |trace| && trace[i].pk == m.pk && SamePeriod(trace, i, |trace|) ==>
               m.at - trace[i].at >= gap
    ensures Spaced(trace + [m], gap)
  {
    var more := trace + [m];
    forall i, j | 0 <= i < j < |more| && more[j].Restored? && more[i].pk == more[j].pk && SamePeriod(more, i, j)
      ensures more[j].at - more[i].at >= gap
    {
      SamePeriodFront(trace, [m], i, j);
    }
  }

  lemma MarkStep(cfg: Config, trace: seq<Mark>, c: Core, step: Step, m: Mark)
    requires OpenMarks(trace, c) && Spaced(trace, Half(cfg.restoreInterval))
    requires Marks(cfg, c, step) == [m]
    requires step.Retry? ==> step.checkedAt <= step.writtenAt <= step.at
    requires forall pk :: pk in c.saved ==> c.saved[pk].removedAt <= step.at
    ensures OpenMarks(trace + [m], Apply(cfg, c, step)) && Spaced(trace + [m], Half(cfg.restoreInterval))
  {
    SpacedSnoc(trace, m, Half(cfg.restoreInterval));
    var more, c' := trace + [m], Apply(cfg, c, step);
    forall i | 0 <= i < |more| && SamePeriod(more, i, |more|)
      ensures more[i].pk in c'.saved && more[i].at <= c'.saved[more[i].pk].removedAt
    {
      if i < |trace| {
        OpenBefore(trace, m, i);
      } else {
        assert !more[i].Recovered?;
      }
    }
  }

  lemma {:induction false} RunKeepsTiming(cfg: Config, steps: seq<Step>)
    requires Chronological(steps)
    ensures OpenMarks(Trace(cfg, steps), After(cfg, steps)) && Spaced(Trace(cfg, steps), Half(cfg.restoreInterval))
    ensures steps != [] ==> forall pk :: pk in After(cfg, steps).saved ==>
              After(cfg, steps).saved[pk].removedAt <= steps[|steps| - 1].at
    ensures steps == [] ==> After(cfg, steps).saved == map[]
  {
    if steps != [] {
      var front, last := steps[..|steps| - 1], steps[|steps| - 1];
      RunKeepsTiming(cfg, front);
      var c, trace := After(cfg, front), Trace(cfg, front);
      assert front != [] ==> front[|front| - 1] == steps[|steps| - 2];
      assert forall pk :: pk in c.saved ==> c.saved[pk].removedAt <= last.at;
      if Marks(cfg, c, last) == [] {
        assert trace + [] == trace;
      } else {
        MarkStep(cfg, trace, c, last, Marks(cfg, c, last)[0]);
      }
    }
  }

  /** With a clock that does not go back, at least half the restore interval
      passes between recording a peer as stale and the first restore, and
      between any two restores of one saved period. */
  lemma RestoresAreSpaced(cfg: Config, steps: seq<Step>, i: nat, j: nat)
    requires Chronological(steps)
    requires i < j < |Trace(cfg, steps)| && Trace(cfg, steps)[j].Restored?
    requires Trace(cfg, steps)[i].pk == Trace(cfg, steps)[j].pk
    requires forall k :: i <= k < j && Trace(cfg, steps)[k].pk == Trace(cfg, steps)[j].pk ==>
               !Trace(cfg, steps)[k].Recovered?
    ensures Trace(cfg, steps)[j].at - Trace(cfg, steps)[i].at >= Half(cfg.restoreInterval)
  {
    RunKeepsTiming(cfg, steps);
    assert SamePeriod(Trace(cfg, steps), i, j);
  }
}
