/** What each turn of the handshake monitor's check does, stated on what was
    listed, recorded and timed, for every step of every run.
 */
module MonitorLaws {
  import opened Keys
  import opened WireGuard
  import opened Registry
  import opened MonitorCore

  // ------------------------------------------------------------- text and time

  ghost predicate OccursAt(sub: string, s: string, k: int) {
    0 <= k && k + |sub| <= |s| && s[k..k + |sub|] == sub
  }

  ghost predicate Occurs(sub: string, s: string) {
    exists k :: OccursAt(sub, s, k)
  }

  lemma {:induction false} ContainsIff(s: string, sub: string)
    ensures Contains(s, sub) <==> Occurs(sub, s)
  {
    if |sub| <= |s| {
      if s[..|sub|] == sub {
        assert OccursAt(sub, s, 0);
      } else {
        ContainsIff(s[1..], sub);
        OccursInTail(sub, s);
      }
    }
  }

  lemma OccursInTail(sub: string, s: string)
    requires s != [] && !OccursAt(sub, s, 0)
    ensures Occurs(sub, s) <==> Occurs(sub, s[1..])
  {
    if k :| OccursAt(sub, s, k) {
      assert s[1..][k - 1..k - 1 + |sub|] == s[k..k + |sub|];
      assert OccursAt(sub, s[1..], k - 1);
    }
    if k :| OccursAt(sub, s[1..], k) {
      assert s[k + 1..k + 1 + |sub|] == s[1..][k..k + |sub|];
      assert OccursAt(sub, s, k + 1);
    }
  }

  /** At least half the interval, in whole nanoseconds as Go halves it. */
  predicate HalfPassed(passed: int, interval: int) {
    if interval >= 0 then 2 * passed + 1 >= interval else 2 * passed >= interval
  }

  lemma HalfIff(passed: int, interval: int)
    ensures passed >= Half(interval) <==> HalfPassed(passed, interval)
  {
  }

  /** Only the record of pk differs: it is stamped, says whether pk is connected,
      and keeps everything else it had. */
  ghost predicate Marked(before: Peers, after: Peers, pk: Key, connected: bool, at: int) {
    && after.Keys == before.Keys + {pk}
    && (forall k :: k in before && k != pk ==> after[k] == before[k])
    && after[pk].publicKey == pk && after[pk].isConnected == connected && after[pk].lastSeen == at
    && (pk in before ==> after[pk].endpoints == before[pk].endpoints && after[pk].virtualIP == before[pk].virtualIP)
    && (pk !in before ==> after[pk].endpoints == [] && after[pk].virtualIP == "")
  }

  lemma SetConnectedMarks(registry: Peers, pk: Key, connected: bool, at: int)
    requires pk in registry ==> registry[pk].publicKey == pk
    ensures Marked(registry, SetConnected(registry, pk, connected, at), pk, connected, at)
  {
  }

  // ------------------------------------------------------------------ phase 1

  /** The listed peer is neither the hub nor a relay, has an endpoint, is not
      tracked, and its last handshake, which may be never, is too old. */
  ghost predicate MustBeRecorded(cfg: Config, saved: map<Key, SavedPeer>, p: PeerInfo, now: int) {
    && p.publicKey != cfg.hub
    && p.endpoint != "" && p.endpoint != "(none)"
    && !Occurs("/24", p.allowedIPs)
    && p.publicKey !in saved
    && now - p.latestHandshake > cfg.timeoutSeconds
  }

  lemma RecordedIff(cfg: Config, saved: map<Key, SavedPeer>, p: PeerInfo, now: int)
    ensures MustBeRecorded(cfg, saved, p, now) <==> GoesStale(cfg, saved, p, now)
  {
    ContainsIff(p.allowedIPs, "/24");
  }

  /** In every run, exactly such a peer is recorded: with its listed endpoint,
      routes, keepalive and byte count, as of now, and as not connected.  A peer
      with routes, and no other, is sent one command.  Otherwise nothing happens. */
  lemma StaleIsRecorded(cfg: Config, steps: seq<Step>, p: PeerInfo, now: int, clearOk: bool, at: int)
    ensures var c, run := After(cfg, steps), steps + [Examine(p, now, clearOk, at)];
            var c', routes := After(cfg, run), if p.allowedIPs == "(none)" then "" else p.allowedIPs;
            if MustBeRecorded(cfg, c.saved, p, now) then
              && c'.saved == c.saved[p.publicKey :=
                   SavedPeer(p.endpoint, routes, p.persistentKeepalive, p.transferRx, at)]
              && Marked(c.registry, c'.registry, p.publicKey, false, at)
              && Sent(cfg, run) == Sent(cfg, steps) +
                   (if routes == "" then [] else [SetPeer(p.publicKey, p.endpoint, "", p.persistentKeepalive)])
              && Trace(cfg, run) == Trace(cfg, steps) + [Recorded(p.publicKey, at)]
            else
              c' == c && Sent(cfg, run) == Sent(cfg, steps) && Trace(cfg, run) == Trace(cfg, steps)
  {
    var step := Examine(p, now, clearOk, at);
    AfterSnoc(cfg, steps, step);
    TraceSnoc(cfg, steps, step);
    RecordedIff(cfg, After(cfg, steps).saved, p, now);
    RunKeepsPartition(cfg, steps);
    SetConnectedMarks(After(cfg, steps).registry, p.publicKey, false, at);
  }

  lemma TraceSnoc(cfg: Config, steps: seq<Step>, step: Step)
    ensures Trace(cfg, steps + [step]) == Trace(cfg, steps) + Marks(cfg, After(cfg, steps), step)
  {
    assert (steps + [step])[..|steps|] == steps;
  }

  // ------------------------------------------------------------------ phase 2

  /** The peer is tracked, and half the interval has passed since its saved time. */
  ghost predicate MustBeRetried(cfg: Config, saved: map<Key, SavedPeer>, pk: Key, checkedAt: int) {
    pk in saved && HalfPassed(checkedAt - saved[pk].removedAt, cfg.restoreInterval)
  }

  lemma DueIff(cfg: Config, saved: map<Key, SavedPeer>, pk: Key, checkedAt: int)
    ensures MustBeRetried(cfg, saved, pk, checkedAt) <==> pk in saved && Due(cfg, saved[pk], checkedAt)
  {
    if pk in saved {
      HalfIff(checkedAt - saved[pk].removedAt, cfg.restoreInterval);
    }
  }

  /** In every run, a turn that is not due does nothing. */
  lemma NotDueDoesNothing(cfg: Config, steps: seq<Step>, step: Step)
    requires step.Retry? && !MustBeRetried(cfg, After(cfg, steps).saved, step.pk, step.checkedAt)
    ensures After(cfg, steps + [step]) == After(cfg, steps)
    ensures Sent(cfg, steps + [step]) == Sent(cfg, steps) && Trace(cfg, steps + [step]) == Trace(cfg, steps)
  {
    AfterSnoc(cfg, steps, step);
    TraceSnoc(cfg, steps, step);
    DueIff(cfg, After(cfg, steps).saved, step.pk, step.checkedAt);
  }

  /** In every run, a due turn whose scan succeeds forgets the peer and marks it
      as connected, and sends nothing more. */
  lemma ScanSuccessReconnects(cfg: Config, steps: seq<Step>, step: Step)
    requires step.Retry? && MustBeRetried(cfg, After(cfg, steps).saved, step.pk, step.checkedAt)
    requires cfg.blindScan && step.scan.Some?
    ensures var c, run := After(cfg, steps), steps + [step];
            && After(cfg, run).saved == c.saved - {step.pk}
            && Marked(c.registry, After(cfg, run).registry, step.pk, true, step.at)
            && Sent(cfg, run) == Sent(cfg, steps)
            && Trace(cfg, run) == Trace(cfg, steps) + [Recovered(step.pk, step.at)]
  {
    AfterSnoc(cfg, steps, step);
    TraceSnoc(cfg, steps, step);
    DueIff(cfg, After(cfg, steps).saved, step.pk, step.checkedAt);
    RunKeepsPartition(cfg, steps);
    SetConnectedMarks(After(cfg, steps).registry, step.pk, true, step.at);
  }

  /** What a command that sets all of a peer makes of a device, whether or not the
      device knew the peer. */
  ghost predicate Rewritten(d: Device, d': Device, p: PeerInfo) {
    && d'.Keys == d.Keys + {p.publicKey}
    && (forall k :: k in d && k != p.publicKey ==> d'[k] == d[k])
    && var now := d'[p.publicKey];
       && now.endpoint == p.endpoint
       && (p.allowedIPs != "" && p.allowedIPs != "(none)" ==> now.allowedIPs == p.allowedIPs)
       && (p.allowedIPs == "" || p.allowedIPs == "(none)" ==>
             now.allowedIPs == if p.publicKey in d then d[p.publicKey].allowedIPs else "(none)")
       && (p.persistentKeepalive > 0 ==> now.keepAlive == p.persistentKeepalive)
       && (p.persistentKeepalive <= 0 ==> now.keepAlive == if p.publicKey in d then d[p.publicKey].keepAlive else 0)
  }

  /** The step that recorded a saved peer: the peer was not saved before it, and
      has been saved ever since, as it was listed then. */
  ghost predicate RecordedAt(cfg: Config, steps: seq<Step>, pk: Key, i: int) {
    && 0 <= i < |steps| && steps[i].Examine? && steps[i].p.publicKey == pk
    && pk !in After(cfg, steps[..i]).saved
    && (forall j :: i < j <= |steps| ==> pk in After(cfg, steps[..j]).saved)
  }

  lemma {:induction false} RecordedOnce(cfg: Config, steps: seq<Step>, pk: Key) returns (i: nat)
    requires pk in After(cfg, steps).saved
    ensures RecordedAt(cfg, steps, pk, i)
    ensures var sp, p := After(cfg, steps).saved[pk], steps[i].p;
            && sp.endpoint == p.endpoint && sp.allowedIPs == (if p.allowedIPs == "(none)" then "" else p.allowedIPs)
            && sp.keepAlive == p.persistentKeepalive && sp.baselineRx == p.transferRx
  {
    var n := |steps| - 1;
    var front, last := steps[..n], steps[n];
    assert steps[..n + 1] == steps;
    assert forall j :: 0 <= j <= n ==> front[..j] == steps[..j];
    if pk in After(cfg, front).saved {
      SavedStep(cfg, After(cfg, front), last, pk);
      i := RecordedOnce(cfg, front, pk);
    } else {
      i := n;
    }
  }

  /** In every run, a due turn without a scan success writes the peer back as it
      was listed when it was recorded, endpoint, routes and keepalive, in exactly
      one command; the saved time is renewed if and only if that succeeds. */
  lemma RestoreWritesListed(cfg: Config, steps: seq<Step>, step: Step) returns (i: nat)
    requires step.Retry? && MustBeRetried(cfg, After(cfg, steps).saved, step.pk, step.checkedAt)
    requires !(cfg.blindScan && step.scan.Some?)
    ensures RecordedAt(cfg, steps, step.pk, i)
    ensures var p, sent, run := steps[i].p, Sent(cfg, steps), steps + [step];
            var routes := if p.allowedIPs == "(none)" then "" else p.allowedIPs;
            && Sent(cfg, run) == sent + [SetPeer(step.pk, p.endpoint, routes, p.persistentKeepalive)]
            && forall d: Device :: Rewritten(d, Execute(d, Sent(cfg, run)[|sent|]), p)
    ensures var c, c' := After(cfg, steps), After(cfg, steps + [step]);
            && c'.registry == c.registry
            && (!step.restoreOk ==> c'.saved == c.saved && Trace(cfg, steps + [step]) == Trace(cfg, steps))
            && (step.restoreOk ==>
                  && c'.saved == c.saved[step.pk := c.saved[step.pk].(removedAt := step.at)]
                  && Trace(cfg, steps + [step]) == Trace(cfg, steps) + [Restored(step.pk, step.writtenAt)])
  {
    AfterSnoc(cfg, steps, step);
    TraceSnoc(cfg, steps, step);
    DueIff(cfg, After(cfg, steps).saved, step.pk, step.checkedAt);
    i := RecordedOnce(cfg, steps, step.pk);
    forall d: Device ensures Rewritten(d, Execute(d, Sent(cfg, steps + [step])[|Sent(cfg, steps)|]), steps[i].p) {
      WriteBack(d, steps[i].p);
    }
  }

  lemma WriteBack(d: Device, p: PeerInfo)
    ensures var routes := if p.allowedIPs == "(none)" then "" else p.allowedIPs;
            Rewritten(d, Execute(d, SetPeer(p.publicKey, p.endpoint, routes, p.persistentKeepalive)), p)
  {
  }
}
