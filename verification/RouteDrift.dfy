/** The handshake monitor of cmd/wg-meshd/main.go together with the device it
    writes to, and with the other writers of the daemon: peers discovered by the
    DHT and PEX are installed with an empty AllowedIPs, a punch plan moves the
    endpoint of any peer, and the kernel lets endpoints roam.  Every action may happen between any two others.
 */
module RouteDrift {
  import opened Keys
  import opened WireGuard
  import opened MonitorCore
  import opened MonitorLaws
  import BlindScan

  datatype System = System(core: Core, device: Device, listing: seq<PeerInfo>)

  datatype Action =
    | List(infos: seq<PeerInfo>)                       // ListPeers
    | Monitor(step: Step)                              // a turn of check
    | Scan(pk: Key, cmd: Command, ok: bool)            // a candidate of a blind scan
    | Discover(pk: Key, endpoint: string, ok: bool)    // the DHT or PEX callback
    | Punch(pk: Key, endpoint: string, ok: bool)       // a candidate of runPunchPlan
    | Roam(pk: Key, endpoint: string)                  // the kernel learns a new endpoint

  ghost predicate Reports(d: Device, p: PeerInfo) {
    && p.publicKey in d
    && p.endpoint == d[p.publicKey].endpoint
    && p.allowedIPs == d[p.publicKey].allowedIPs
    && p.persistentKeepalive == d[p.publicKey].keepAlive
  }

  /** A command of the scan for a saved peer: the first candidate carries the
      recorded routes, the others only an endpoint. */
  predicate IsScanCommand(pk: Key, sp: SavedPeer, cmd: Command) {
    cmd.publicKey == pk && (cmd.SetPeer? ==> cmd.allowedIPs == sp.allowedIPs && cmd.keepAlive == sp.keepAlive)
  }

  /** The blind scanner, started with a saved record, sends nothing else. */
  lemma BlindScanSendsScanCommands(pk: Key, sp: SavedPeer, host: string, center: int, attempts: seq<BlindScan.Attempt>,
                                   ports: seq<int>, join: (string, int) -> string, env: BlindScan.Env, k: nat)
    requires var target := BlindScan.Target(pk, host, center, sp.allowedIPs, sp.keepAlive, sp.baselineRx);
             BlindScan.Follows(attempts, ports, target, join, env)
    requires k < |attempts|
    ensures IsScanCommand(pk, sp, attempts[k].command)
  {
    var target := BlindScan.Target(pk, host, center, sp.allowedIPs, sp.keepAlive, sp.baselineRx);
    assert BlindScan.IsAttempt(attempts[k], k, ports, target, join, env);
  }

  ghost predicate Enabled(s: System, a: Action) {
    match a
    case List(infos) => forall k :: 0 <= k < |infos| ==> Reports(s.device, infos[k])
    case Monitor(step) => step.Examine? ==> step.p in s.listing
    case Scan(pk, cmd, _) => pk in s.core.saved && IsScanCommand(pk, s.core.saved[pk], cmd)
    case Discover(_, _, _) => true
    case Punch(_, _, _) => true
    case Roam(pk, _) => pk in s.device
  }

  function ExecuteAll(d: Device, cmds: seq<Command>): Device {
    if cmds == [] then d else Execute(ExecuteAll(d, cmds[..|cmds| - 1]), cmds[|cmds| - 1])
  }

  /** A command that fails leaves the device as it was. */
  ghost function Act(cfg: Config, s: System, a: Action): System
    requires Enabled(s, a)
  {
    match a
    case List(infos) => s.(listing := infos)
    case Monitor(step) =>
      System(Apply(cfg, s.core, step),
             if Accepted(step) then ExecuteAll(s.device, Commands(cfg, s.core, step)) else s.device,
             s.listing)
    case Scan(_, cmd, ok) => if ok then s.(device := Execute(s.device, cmd)) else s
    case Discover(pk, endpoint, ok) => if ok then s.(device := Execute(s.device, SetPeer(pk, endpoint, "", 25))) else s
    case Punch(pk, endpoint, ok) => if ok then s.(device := Execute(s.device, SetEndpoint(pk, endpoint))) else s
    case Roam(pk, endpoint) => s.(device := s.device[pk := s.device[pk].(endpoint := endpoint)])
  }

  ghost predicate IsRun(cfg: Config, device: Device, actions: seq<Action>)
    decreases |actions|, 0
  {
    actions == [] ||
    (IsRun(cfg, device, actions[..|actions| - 1])
     && Enabled(Reached(cfg, device, actions[..|actions| - 1]), actions[|actions| - 1]))
  }

  ghost function Reached(cfg: Config, device: Device, actions: seq<Action>): System
    requires IsRun(cfg, device, actions)
    decreases |actions|, 1
  {
    if actions == [] then System(INIT, device, [])
    else Act(cfg, Reached(cfg, device, actions[..|actions| - 1]), actions[|actions| - 1])
  }

  // ------------------------------------------------------------ invariant

  /** d' has every peer of d with its routes, and new peers without routes. */
  ghost predicate SameRoutes(d: Device, d': Device) {
    && (forall pk :: pk in d ==> pk in d' && d'[pk].allowedIPs == d[pk].allowedIPs)
    && (forall pk :: pk in d' && pk !in d ==> d'[pk].allowedIPs == NO_ROUTES)
  }

  /** What was listed or recorded is still what the device holds. */
  ghost predicate InStep(s: System) {
    && (forall k :: 0 <= k < |s.listing| ==>
          s.listing[k].publicKey in s.device && s.listing[k].allowedIPs == s.device[s.listing[k].publicKey].allowedIPs)
    && (forall pk :: pk in s.core.saved ==>
          pk in s.device && s.core.saved[pk].allowedIPs == NormalizedAllowedIPs(s.device[pk].allowedIPs))
  }

  /** Commands that respect the routes: none, or exactly those the device has. */
  ghost predicate KeepsRoutes(d: Device, cmd: Command) {
    cmd.SetPeer? && cmd.allowedIPs != "" ==>
      cmd.publicKey in d && cmd.allowedIPs == d[cmd.publicKey].allowedIPs
  }

  lemma ExecuteKeepsRoutes(d: Device, cmd: Command)
    requires KeepsRoutes(d, cmd)
    ensures SameRoutes(d, Execute(d, cmd))
  {
  }

  lemma SameRoutesTransitive(a: Device, b: Device, c: Device)
    requires SameRoutes(a, b) && SameRoutes(b, c)
    ensures SameRoutes(a, c)
  {
  }

  /** Every command of a monitor step keeps the routes: a non-empty AllowedIPs
      written is the very set recorded from the device. */
  lemma MonitorKeepsRoutes(cfg: Config, s: System, step: Step)
    requires InStep(s) && Enabled(s, Monitor(step))
    ensures |Commands(cfg, s.core, step)| <= 1
    ensures forall k :: 0 <= k < |Commands(cfg, s.core, step)| ==> KeepsRoutes(s.device, Commands(cfg, s.core, step)[k])
  {
  }

  lemma ScanKeepsRoutes(s: System, pk: Key, cmd: Command)
    requires InStep(s) && pk in s.core.saved && IsScanCommand(pk, s.core.saved[pk], cmd)
    ensures KeepsRoutes(s.device, cmd)
  {
  }

  lemma DeviceStep(cfg: Config, s: System, a: Action)
    requires InStep(s) && Enabled(s, a)
    ensures SameRoutes(s.device, Act(cfg, s, a).device)
  {
    match a
    case List(_) =>
    case Monitor(step) =>
      MonitorKeepsRoutes(cfg, s, step);
      var cmds := Commands(cfg, s.core, step);
      if |cmds| == 1 {
        OneCommand(s.device, cmds);
        ExecuteKeepsRoutes(s.device, cmds[0]);
      }
    case Scan(pk, cmd, _) =>
      ScanKeepsRoutes(s, pk, cmd);
      ExecuteKeepsRoutes(s.device, cmd);
    case Discover(pk, endpoint, _) => ExecuteKeepsRoutes(s.device, SetPeer(pk, endpoint, "", 25));
    case Punch(pk, endpoint, _) => ExecuteKeepsRoutes(s.device, SetEndpoint(pk, endpoint));
    case Roam(_, _) =>
  }

  lemma InStepKept(cfg: Config, s: System, a: Action)
    requires InStep(s) && Enabled(s, a)
    ensures InStep(Act(cfg, s, a))
  {
    var s' := Act(cfg, s, a);
    DeviceStep(cfg, s, a);
    if a.List? {
      forall k | 0 <= k < |a.infos| ensures a.infos[k].publicKey in s.device
        && a.infos[k].allowedIPs == s.device[a.infos[k].publicKey].allowedIPs
      {
        assert Reports(s.device, a.infos[k]);
      }
    }
    if a.Monitor? {
      forall pk | pk in s'.core.saved
        ensures pk in s.device && s'.core.saved[pk].allowedIPs == NormalizedAllowedIPs(s.device[pk].allowedIPs)
      {
        if pk in s.core.saved {
          SavedStep(cfg, s.core, a.step, pk);
        } else {
          assert a.step.Examine? && pk == a.step.p.publicKey;
        }
      }
    }
  }

  /** Over any number of stale, scan and restore cycles, with discoveries,
      punches and roaming in between, the routes of a peer on the device never drift. */
  lemma {:induction false} RoutesNeverDrift(cfg: Config, device: Device, actions: seq<Action>)
    requires IsRun(cfg, device, actions)
    ensures SameRoutes(device, Reached(cfg, device, actions).device)
    ensures InStep(Reached(cfg, device, actions))
  {
    if actions != [] {
      var front, last := actions[..|actions| - 1], actions[|actions| - 1];
      RoutesNeverDrift(cfg, device, front);
      var s := Reached(cfg, device, front);
      DeviceStep(cfg, s, last);
      InStepKept(cfg, s, last);
      SameRoutesTransitive(device, s.device, Act(cfg, s, last).device);
    }
  }

  /** What the other writers do to the device: a discovery installs the endpoint
      with a keepalive of 25, a punch or a roaming peer changes the endpoint, and
      nothing else changes; a peer the device did not have gets no routes. */
  lemma OtherWriters(cfg: Config, s: System, pk: Key, endpoint: string)
    ensures var known := pk in s.device;
            var routes := if known then s.device[pk].allowedIPs else "(none)";
            var keep := if known then s.device[pk].keepAlive else 0;
            && Act(cfg, s, Discover(pk, endpoint, true)).device == s.device[pk := Peer(endpoint, routes, 25)]
            && Act(cfg, s, Punch(pk, endpoint, true)).device == s.device[pk := Peer(endpoint, routes, keep)]
            && (known ==> Act(cfg, s, Roam(pk, endpoint)).device == s.device[pk := Peer(endpoint, routes, keep)])
            && Act(cfg, s, Discover(pk, endpoint, false)) == s == Act(cfg, s, Punch(pk, endpoint, false))
  {
  }

  /** A candidate of a scan that the device accepts is executed on it. */
  lemma ScanWrites(cfg: Config, s: System, pk: Key, cmd: Command, ok: bool)
    requires Enabled(s, Scan(pk, cmd, ok))
    ensures Act(cfg, s, Scan(pk, cmd, ok)) == s.(device := if ok then Execute(s.device, cmd) else s.device)
  {
  }

  /** What a turn of phase 2 without a scan success does to the device: if it is
      due and the write succeeds, the peer is there with its recorded endpoint,
      routes and keepalive; otherwise nothing changes. */
  lemma RestoreOnDevice(cfg: Config, s: System, step: Step)
    requires step.Retry? && !(cfg.blindScan && step.scan.Some?)
    ensures var d, d' := s.device, Act(cfg, s, Monitor(step)).device;
            if MustBeRetried(cfg, s.core.saved, step.pk, step.checkedAt) && step.restoreOk then
              var sp := s.core.saved[step.pk];
              && d'.Keys == d.Keys + {step.pk} && (forall k :: k in d && k != step.pk ==> d'[k] == d[k])
              && d'[step.pk].endpoint == sp.endpoint
              && (sp.allowedIPs != "" ==> d'[step.pk].allowedIPs == sp.allowedIPs)
              && (sp.keepAlive > 0 ==> d'[step.pk].keepAlive == sp.keepAlive)
            else d' == d
  {
    DueIff(cfg, s.core.saved, step.pk, step.checkedAt);
    var cmds := Commands(cfg, s.core, step);
    if |cmds| == 1 {
      OneCommand(s.device, cmds);
    }
  }

  lemma OneCommand(d: Device, cmds: seq<Command>)
    requires |cmds| == 1
    ensures ExecuteAll(d, cmds) == Execute(d, cmds[0])
  {
    assert cmds[..0] == [];
  }

  // ------------------------------------- the /32 route is not cleared at all

  predicate HasRoutes(d: Device, pk: Key) {
    pk in d && NormalizedAllowedIPs(d[pk].allowedIPs) != ""
  }

  /** The monitor means to clear the /32 route of a stale peer so that traffic
      falls back to the hub's relay route.  It writes an empty AllowedIPs, which
      is left out of the command: in every run, whatever the device answers,
      the peer is without routes after being recorded exactly when it was
      without routes before. */
  lemma StaleRouteClearedIff(cfg: Config, device: Device, actions: seq<Action>, step: Step)
    requires IsRun(cfg, device, actions) && Enabled(Reached(cfg, device, actions), Monitor(step))
    requires step.Examine? && GoesStale(cfg, Reached(cfg, device, actions).core.saved, step.p, step.now)
    ensures var s := Reached(cfg, device, actions);
            var s' := Act(cfg, s, Monitor(step));
            && step.p.publicKey in s'.core.saved
            && (!HasRoutes(s'.device, step.p.publicKey) <==> NormalizedAllowedIPs(step.p.allowedIPs) == "")
  {
    var s := Reached(cfg, device, actions);
    RoutesNeverDrift(cfg, device, actions);
    DeviceStep(cfg, s, Monitor(step));
  }

  /** A concrete stale peer that keeps its route although the write succeeds. */
  lemma StaleRouteSurvives()
    ensures var cfg := Config("hub", 120, 300_000_000_000, true);
            var device := map["lisa" := Peer("192.0.2.7:51820", "10.0.0.2/32", 25)];
            var p := PeerInfo("lisa", "192.0.2.7:51820", "10.0.0.2/32", 1000, 0, 25);
            var run := [List([p])];
            && IsRun(cfg, device, run)
            && GoesStale(cfg, INIT.saved, p, 2000)
            && Enabled(Reached(cfg, device, run), Monitor(Examine(p, 2000, true, 5)))
            && HasRoutes(Act(cfg, Reached(cfg, device, run), Monitor(Examine(p, 2000, true, 5))).device, "lisa")
  {
    var cfg := Config("hub", 120, 300_000_000_000, true);
    var device := map["lisa" := Peer("192.0.2.7:51820", "10.0.0.2/32", 25)];
    var p := PeerInfo("lisa", "192.0.2.7:51820", "10.0.0.2/32", 1000, 0, 25);
    var run := [List([p])];
    assert run[..0] == [];
    assert Reports(device, p);
    assert IsRun(cfg, device, run);
    NoSlash24("10.0.0.2/32");
    RoutesNeverDrift(cfg, device, run);
    DeviceStep(cfg, Reached(cfg, device, run), Monitor(Examine(p, 2000, true, 5)));
  }

  lemma NoSlash24(s: string)
    requires s == "10.0.0.2/32"
    ensures !Contains(s, "/24")
  {
    assert |s| == 11 && s[8] == '/' && s[9] == '3';
    assert forall i :: 0 <= i < 10 && s[i] == '/' ==> s[i + 1] == '3';
    NeverSlashTwo(s);
  }

  lemma {:induction false} NeverSlashTwo(s: string)
    requires forall i :: 0 <= i < |s| - 1 && s[i] == '/' ==> s[i + 1] == '3'
    ensures !Contains(s, "/24")
  {
    if |s| >= 3 {
      assert s[..3][0] == s[0] && s[..3][1] == s[1];
      NeverSlashTwo(s[1..]);
    }
  }
}
