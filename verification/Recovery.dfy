/** The handshake monitor of cmd/wg-meshd/main.go together with the blind scanner
    it calls: what it takes for a tracked peer to be shown as connected again.
 */
module Recovery {
  import opened Keys
  import opened Options
  import opened WireGuard
  import opened MonitorCore
  import opened MonitorLaws
  import BlindScan

  /** One call of blindScanEndpoint; `parsed` is None when it refuses at once. */
  datatype ScanLog = ScanLog(
    parsed: Option<(string, int)>,
    attempts: seq<BlindScan.Attempt>,
    end: BlindScan.End,
    ports: seq<int>,
    goal: nat -> nat,
    budget: nat,
    join: (string, int) -> string,
    env: BlindScan.Env)

  /** What the monitor asks the scanner to look for. */
  function TargetFor(pk: Key, sp: SavedPeer, host: string, port: int): BlindScan.Target {
    BlindScan.Target(pk, host, port, sp.allowedIPs, sp.keepAlive, sp.baselineRx)
  }

  ghost predicate IsScanOf(log: ScanLog, pk: Key, sp: SavedPeer, found: Option<string>) {
    if log.parsed.None? then found.None?
    else BlindScan.IsScan(found, log.attempts, log.end, TargetFor(pk, sp, log.parsed.value.0, log.parsed.value.1),
                          log.ports, log.goal, log.budget, log.join, log.env)
  }

  /** Wherever the step scans, its scan result is that of a scan for the saved record. */
  ghost predicate ScannedAs(cfg: Config, c: Core, step: Step, log: ScanLog) {
    step.Retry? && step.pk in c.saved && Scanned(cfg, c, step) == Some(step.pk) ==>
      IsScanOf(log, step.pk, c.saved[step.pk], step.scan)
  }

  /** A run of the monitor with its scans. */
  ghost predicate IsRun(cfg: Config, steps: seq<Step>, logs: seq<ScanLog>) {
    |logs| == |steps| && forall i :: 0 <= i < |steps| ==> ScannedAs(cfg, After(cfg, steps[..i]), steps[i], logs[i])
  }

  /** Peer pk stops being saved at step i. */
  ghost predicate LeavesAt(cfg: Config, steps: seq<Step>, pk: Key, i: int) {
    0 <= i < |steps| && pk in After(cfg, steps[..i]).saved && pk !in After(cfg, steps[..i + 1]).saved
  }

  /** In candidate k of the scan the device accepted the endpoint and then listed
      the peer there, with a handshake made since the scan began and with more
      than `baseline` bytes received. */
  ghost predicate Heard(log: ScanLog, k: int, peer: PeerInfo, pk: Key, endpoint: string, baseline: int) {
    && 0 <= k < |log.attempts| && log.attempts[k].ok
    && log.attempts[k].command.publicKey == pk && log.attempts[k].command.endpoint == endpoint
    && log.env.listing(k).Some? && peer in log.env.listing(k).value
    && peer.publicKey == pk && peer.endpoint == endpoint
    && peer.latestHandshake >= log.env.startedAt && peer.transferRx > baseline
  }

  /** A scan returns an endpoint only after hearing the peer there. */
  lemma ScanHeard(log: ScanLog, pk: Key, sp: SavedPeer, found: Option<string>) returns (k: nat, peer: PeerInfo)
    requires IsScanOf(log, pk, sp, found) && found.Some?
    ensures Heard(log, k, peer, pk, found.value, sp.baselineRx)
  {
    var target := TargetFor(pk, sp, log.parsed.value.0, log.parsed.value.1);
    k := |log.attempts| - 1;
    assert BlindScan.IsAttempt(log.attempts[k], k, log.ports, target, log.join, log.env);
    var listing := log.env.listing(k);
    var n :| 0 <= n < |listing.value| && BlindScan.Accepts(listing.value[n], target, found.value, log.env.startedAt);
    peer := listing.value[n];
  }

  /** In every run of monitor and scanner, a peer stops being saved only by a scan
      that heard it: beyond the bytes it was listed with at the earlier step at
      which it was recorded as stale. */
  lemma LeavesByHandshake(cfg: Config, steps: seq<Step>, logs: seq<ScanLog>, i: nat, pk: Key)
      returns (k: nat, peer: PeerInfo, j: nat)
    requires IsRun(cfg, steps, logs) && LeavesAt(cfg, steps, pk, i)
    ensures steps[i].Retry? && steps[i].pk == pk && steps[i].scan.Some?
    ensures j < i && steps[j].Examine? && steps[j].p.publicKey == pk
    ensures steps[j].now - steps[j].p.latestHandshake > cfg.timeoutSeconds
    ensures Heard(logs[i], k, peer, pk, steps[i].scan.value, steps[j].p.transferRx)
  {
    var c := After(cfg, steps[..i]);
    assert steps[..i + 1] == steps[..i] + [steps[i]];
    AfterSnoc(cfg, steps[..i], steps[i]);
    SavedStep(cfg, c, steps[i], pk);
    assert ScannedAs(cfg, c, steps[i], logs[i]);
    k, peer := ScanHeard(logs[i], pk, c.saved[pk], steps[i].scan);
    j := SavedProvenance(cfg, steps[..i], pk);
  }

  /** In every run, a scan begins by writing the peer back with the routes and the
      keepalive it was listed with when it was recorded. */
  lemma ScanStartsAsListed(cfg: Config, steps: seq<Step>, logs: seq<ScanLog>, i: nat) returns (j: nat)
    requires IsRun(cfg, steps, logs) && i < |steps| && steps[i].Retry?
    requires Scanned(cfg, After(cfg, steps[..i]), steps[i]) == Some(steps[i].pk)
    requires logs[i].parsed.Some? && logs[i].attempts != []
    ensures RecordedAt(cfg, steps[..i], steps[i].pk, j) && j < i
    ensures var p, first := steps[j].p, logs[i].attempts[0];
            first.command == SetPeer(steps[i].pk, logs[i].join(logs[i].parsed.value.0, first.port),
                                     if p.allowedIPs == "(none)" then "" else p.allowedIPs, p.persistentKeepalive)
  {
    var pk, log := steps[i].pk, logs[i];
    j := RecordedOnce(cfg, steps[..i], pk);
    assert ScannedAs(cfg, After(cfg, steps[..i]), steps[i], log);
    var target := TargetFor(pk, After(cfg, steps[..i]).saved[pk], log.parsed.value.0, log.parsed.value.1);
    assert BlindScan.IsAttempt(log.attempts[0], 0, log.ports, target, log.join, log.env);
  }

  /** A registered peer that is not saved has left, and has not been saved since. */
  lemma {:induction false} LastLeft(cfg: Config, steps: seq<Step>, pk: Key) returns (i: nat)
    requires pk in After(cfg, steps).registry && pk !in After(cfg, steps).saved
    ensures LeavesAt(cfg, steps, pk, i)
    ensures forall j :: i < j <= |steps| ==> pk !in After(cfg, steps[..j]).saved
  {
    var n := |steps| - 1;
    var front := steps[..n];
    assert steps[..n + 1] == steps;
    if pk in After(cfg, front).saved {
      i := n;
    } else {
      i := LastLeft(cfg, front, pk);
      assert forall j :: 0 <= j <= n ==> front[..j] == steps[..j];
    }
  }

  /** In every run, a peer is shown as connected only if a scan heard it since it
      was last recorded as stale. */
  lemma ConnectedByHandshake(cfg: Config, steps: seq<Step>, logs: seq<ScanLog>, pk: Key)
      returns (i: nat, k: nat, peer: PeerInfo, j: nat)
    requires IsRun(cfg, steps, logs)
    requires pk in After(cfg, steps).registry && After(cfg, steps).registry[pk].isConnected
    ensures j < i < |steps| && steps[j].Examine? && steps[j].p.publicKey == pk
    ensures steps[i].Retry? && steps[i].scan.Some?
    ensures Heard(logs[i], k, peer, pk, steps[i].scan.value, steps[j].p.transferRx)
    ensures forall n :: i < n <= |steps| ==> pk !in After(cfg, steps[..n]).saved
  {
    RunKeepsPartition(cfg, steps);
    i := LastLeft(cfg, steps, pk);
    k, peer, j := LeavesByHandshake(cfg, steps, logs, i, pk);
  }
}
