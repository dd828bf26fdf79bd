/** `blindScanEndpoint` of cmd/wg-meshd/main.go: try candidate ports one by one,
    paced and bounded, and accept only a real WireGuard handshake.

    Time is the number of nanoseconds since the scan started.  The environment
    decides how long each call takes, whether it succeeds, what the device
    reports, and when the context is cancelled.
 */
module BlindScan {
  import opened Keys
  import opened Options
  import opened WireGuard
  import opened PortOrder

  const SECOND: nat := 1_000_000_000

  datatype Env = Env(
    startedAt: int,                          // the scan's starting second
    beforeCheck: nat -> nat,                 // time that passes before candidate i's deadline check
    cancelled: nat -> bool,                  // context done when candidate i is started
    setOk: nat -> bool,                      // the device accepted candidate i
    listing: nat -> Option<seq<PeerInfo>>,   // ListPeers after candidate i
    callTime: nat -> nat,                    // time taken by the calls of candidate i
    cancelledInWait: nat -> bool,            // context done while pacing after candidate i
    overshoot: nat -> nat)                   // how late the pacing timer fires

  /** One candidate handed to the device; `at` is the time of its deadline check. */
  datatype Attempt = Attempt(port: int, command: Command, at: nat, ok: bool)

  datatype Target = Target(
    publicKey: Key, host: string, center: int, allowedIPs: string, keepAlive: int, baselineRx: int)

  datatype End = Exhausted | PastDeadline | Cancelled | Accepted

  /** The acceptance signal: the same peer, at the very endpoint just tried, with
      a handshake of this scan and bytes received beyond the baseline. */
  predicate Accepts(peer: PeerInfo, target: Target, endpoint: string, startedAt: int) {
    && peer.publicKey == target.publicKey
    && peer.endpoint == endpoint
    && peer.latestHandshake >= startedAt
    && peer.transferRx > target.baselineRx
  }

  ghost predicate SomeAccepted(listing: Option<seq<PeerInfo>>, target: Target, endpoint: string, startedAt: int) {
    listing.Some? && exists k :: 0 <= k < |listing.value| && Accepts(listing.value[k], target, endpoint, startedAt)
  }

  function EffectiveCount(count: int): nat requires count > 0 { if count > MAX_PORT then MAX_PORT else count }
  function EffectiveRate(rate: int): (r: nat) ensures r > 0 { if rate <= 0 then 200 else rate }
  function EffectiveBudget(budget: int): nat { if budget <= 0 then 330 * SECOND else budget }

  function CommandFor(target: Target, join: (string, int) -> string, index: nat, port: int): Command {
    var endpoint := join(target.host, port);
    if index == 0 then SetPeer(target.publicKey, endpoint, target.allowedIPs, target.keepAlive)
    else SetEndpoint(target.publicKey, endpoint)
  }

  // --------------------------------------------------------------- pacing

  function Successes(attempts: seq<Attempt>): nat {
    if attempts == [] then 0
    else Successes(attempts[..|attempts| - 1]) + (if attempts[|attempts| - 1].ok then 1 else 0)
  }

  /** How many updates have succeeded by time t. */
  function SucceededBy(attempts: seq<Attempt>, t: int): nat {
    if attempts == [] then 0
    else SucceededBy(attempts[..|attempts| - 1], t)
         + (if attempts[|attempts| - 1].ok && attempts[|attempts| - 1].at <= t then 1 else 0)
  }

  /** K successes by time t, counted from the first: (K-1) seconds < (t+1)·rate. */
  predicate WithinRate(k: nat, t: int, rate: nat) {
    (k - 1) * SECOND < (t + 1) * rate
  }

  ghost predicate Ordered(attempts: seq<Attempt>) {
    forall i, j :: 0 <= i < j < |attempts| ==> attempts[i].at <= attempts[j].at
  }

  /** Every success came within the rate. */
  predicate Paced(attempts: seq<Attempt>, rate: nat) {
    attempts == [] ||
    var front, last := attempts[..|attempts| - 1], attempts[|attempts| - 1];
    Paced(front, rate) && (last.ok ==> WithinRate(Successes(front) + 1, last.at, rate))
  }

  /** The moment the scan waits for after candidate i. */
  function PacingTarget(i: nat, rate: nat): (goal: nat)
    requires rate > 0
    ensures goal * rate <= (i + 1) * 1_000_000_000 < (goal + 1) * rate
  {
    DivBound((i + 1) * SECOND, rate);
    DivNatural((i + 1) * SECOND, rate);
    (i + 1) * SECOND / rate
  }

  function Goals(rate: nat): nat -> nat
    requires rate > 0
  {
    (i: nat) => PacingTarget(i, rate)
  }

  lemma DivBound(x: nat, r: nat)
    requires r > 0
    ensures (x / r) * r <= x < (x / r + 1) * r
  {
    assert x == (x / r) * r + x % r;
  }

  lemma DivNatural(x: nat, r: nat)
    requires r > 0
    ensures 0 <= x / r
  {
  }

  lemma RateLater(k: nat, t: int, t': int, rate: nat)
    requires WithinRate(k, t, rate) && t <= t'
    ensures WithinRate(k, t', rate)
  {
    assert (t + 1) * rate <= (t' + 1) * rate;
  }

  /** After the wait for candidate i there is room for one more success. */
  lemma TargetCovers(successes: nat, i: nat, rate: nat, now: nat)
    requires rate > 0 && successes <= i + 1 && PacingTarget(i, rate) <= now
    ensures WithinRate(successes + 1, now, rate)
  {
    var goal := PacingTarget(i, rate);
    assert (goal + 1) * rate <= (now + 1) * rate;
  }

  lemma SuccessesSnoc(attempts: seq<Attempt>, a: Attempt)
    ensures Successes(attempts + [a]) == Successes(attempts) + (if a.ok then 1 else 0)
  {
    assert (attempts + [a])[..|attempts|] == attempts;
  }

  lemma {:induction false} SuccessesBound(attempts: seq<Attempt>)
    ensures Successes(attempts) <= |attempts|
  {
    if attempts != [] { SuccessesBound(attempts[..|attempts| - 1]); }
  }

  /** The rate holds at every moment, failed updates included. */
  lemma {:induction false} RateAtEveryMoment(attempts: seq<Attempt>, rate: nat, t: nat)
    requires rate > 0 && Paced(attempts, rate) && Ordered(attempts)
    ensures WithinRate(SucceededBy(attempts, t), t, rate)
  {
    if attempts == [] {
      assert 0 <= (t + 1) * rate;
    } else {
      var last := attempts[|attempts| - 1];
      RateAtEveryMoment(attempts[..|attempts| - 1], rate, t);
      if last.ok && last.at <= t {
        AllByThen(attempts, t);
        RateLater(Successes(attempts), last.at, t, rate);
      }
    }
  }

  lemma {:induction false} AllByThen(attempts: seq<Attempt>, t: nat)
    requires forall k :: 0 <= k < |attempts| ==> attempts[k].at <= t
    ensures SucceededBy(attempts, t) == Successes(attempts)
  {
    if attempts != [] { AllByThen(attempts[..|attempts| - 1], t); }
  }

  /** Hence a bound on the whole scan: it stops being extended at its budget. */
  lemma ScanIsBounded(attempts: seq<Attempt>, rate: nat, budget: nat)
    requires rate > 0 && Timed(attempts, rate, budget)
    ensures WithinRate(Successes(attempts), budget, rate)
  {
    RateAtEveryMoment(attempts, rate, budget);
    AllByThen(attempts, budget);
  }

  // ----------------------------------------------------------------- code

  /** The inner loop over `ListPeers`. */
  method FindAccepted(peers: seq<PeerInfo>, target: Target, endpoint: string, startedAt: int) returns (ok: bool)
    ensures ok <==> SomeAccepted(Some(peers), target, endpoint, startedAt)
    ensures ok <==> exists k :: 0 <= k < |peers|
                                && peers[k].publicKey == target.publicKey && peers[k].endpoint == endpoint
                                && peers[k].latestHandshake >= startedAt && peers[k].transferRx > target.baselineRx
  {
    for k := 0 to |peers|
      invariant forall j :: 0 <= j < k ==> !Accepts(peers[j], target, endpoint, startedAt)
    {
      var peer := peers[k];
      if peer.publicKey == target.publicKey && peer.endpoint == endpoint
         && peer.latestHandshake >= startedAt && peer.transferRx > target.baselineRx {
        assert Accepts(peers[k], target, endpoint, startedAt);
        return true;
      }
    }
    return false;
  }

  /** Attempt k is the k-th candidate, with the right command. */
  predicate IsAttempt(a: Attempt, k: nat, ports: seq<int>, target: Target, join: (string, int) -> string, env: Env)
    requires k < |ports|
  {
    a.port == ports[k] && a.command == CommandFor(target, join, k, ports[k]) && a.ok == env.setOk(k)
  }

  ghost predicate Follows(attempts: seq<Attempt>, ports: seq<int>, target: Target, join: (string, int) -> string,
                          env: Env) {
    && |attempts| <= |ports|
    && forall k :: 0 <= k < |attempts| ==> IsAttempt(attempts[k], k, ports, target, join, env)
  }

  /** Whether candidate k was checked and met the acceptance signal. */
  ghost predicate Hit(a: Attempt, k: nat, target: Target, join: (string, int) -> string, env: Env) {
    a.ok && k % 16 == 0 && SomeAccepted(env.listing(k), target, join(target.host, a.port), env.startedAt)
  }

  /** None of the first n attempts met it. */
  ghost predicate NoHit(attempts: seq<Attempt>, n: nat, target: Target, join: (string, int) -> string, env: Env) {
    n <= |attempts| && forall k :: 0 <= k < n ==> !Hit(attempts[k], k, target, join, env)
  }

  /** When candidate i may start: a failed update skips the wait. */
  function ReadyTime(goal: nat -> nat, env: Env, i: nat): nat
    decreases i, 0
  {
    if i == 0 then 0
    else PaceAfter(i - 1, env.setOk(i - 1), CheckTime(goal, env, i - 1) + env.callTime(i - 1), goal, env)
  }

  /** When candidate i's deadline check happens. */
  function CheckTime(goal: nat -> nat, env: Env, i: nat): nat
    decreases i, 1
  {
    ReadyTime(goal, env, i) + env.beforeCheck(i)
  }

  /** The attempts are made at these times, none after a cancellation. */
  ghost predicate OnSchedule(attempts: seq<Attempt>, goal: nat -> nat, env: Env)
  {
    forall k :: 0 <= k < |attempts| ==>
      && attempts[k].at == CheckTime(goal, env, k) && attempts[k].ok == env.setOk(k)
      && !env.cancelled(k)
      && (k < |attempts| - 1 && attempts[k].ok ==> !env.cancelledInWait(k))
  }

  /** Why the scan ended after n attempts. */
  predicate EndsWith(end: End, n: nat, total: nat, lastOk: bool, goal: nat -> nat, budget: nat, env: Env)
  {
    match end
    case Exhausted => n == total
    case PastDeadline => n < total && CheckTime(goal, env, n) > budget
    case Cancelled => (n < total && env.cancelled(n)) || (n > 0 && lastOk && env.cancelledInWait(n - 1))
    case Accepted => n > 0
  }

  function LastOk(attempts: seq<Attempt>): bool {
    attempts != [] && attempts[|attempts| - 1].ok
  }

  ghost predicate Timed(attempts: seq<Attempt>, rate: nat, limit: nat) {
    && Ordered(attempts) && Paced(attempts, rate)
    && forall k :: 0 <= k < |attempts| ==> attempts[k].at <= limit
  }

  lemma TimedSnoc(attempts: seq<Attempt>, a: Attempt, rate: nat, limit: nat)
    requires Timed(attempts, rate, a.at) && a.at <= limit
    requires WithinRate(Successes(attempts) + 1, a.at, rate)
    ensures Timed(attempts + [a], rate, limit)
  {
    assert (attempts + [a])[..|attempts|] == attempts;
  }

  lemma TimedLater(attempts: seq<Attempt>, rate: nat, limit: nat, limit': nat)
    requires Timed(attempts, rate, limit) && limit <= limit'
    ensures Timed(attempts, rate, limit')
  {
  }

  /** One candidate: set it, and check it when its index is due. */
  method TryCandidate(target: Target, ports: seq<int>, i: nat, now: nat, join: (string, int) -> string, env: Env)
    returns (attempt: Attempt, accepted: bool)
    requires i < |ports|
    ensures attempt.at == now && IsAttempt(attempt, i, ports, target, join, env)
    ensures accepted <==> Hit(attempt, i, target, join, env)
    ensures attempt.command ==
            if i == 0 then SetPeer(target.publicKey, join(target.host, ports[0]), target.allowedIPs, target.keepAlive)
            else SetEndpoint(target.publicKey, join(target.host, ports[i]))
    ensures accepted <==>
              && env.setOk(i) && i % 16 == 0 && env.listing(i).Some?
              && exists k :: 0 <= k < |env.listing(i).value|
                             && Accepts(env.listing(i).value[k], target, join(target.host, ports[i]), env.startedAt)
  {
    accepted := false;
    var p := ports[i];
    var endpoint := join(target.host, p);
    var command := SetEndpoint(target.publicKey, endpoint);
    if i == 0 {
      command := SetPeer(target.publicKey, endpoint, target.allowedIPs, target.keepAlive);
    }
    attempt := Attempt(p, command, now, env.setOk(i));
    if attempt.ok && (i == 0 || i % 16 == 0) {
      var listing := env.listing(i);
      if listing.Some? {
        accepted := FindAccepted(listing.value, target, endpoint, env.startedAt);
      }
    }
  }

  /** A scan under way, with these attempts behind it. */
  ghost predicate Scanning(attempts: seq<Attempt>, target: Target, ports: seq<int>, goal: nat -> nat, budget: nat,
                           join: (string, int) -> string, env: Env)
  {
    && Follows(attempts, ports, target, join, env)
    && (forall k :: 0 <= k < |attempts| ==> attempts[k].at <= budget)
    && OnSchedule(attempts, goal, env)
    && NoHit(attempts, |attempts|, target, join, env)
    && (LastOk(attempts) ==> !env.cancelledInWait(|attempts| - 1))
  }

  /** A whole scan: candidates in order, on schedule and before the deadline;
      the first acceptance signal, and only that, is the result. */
  ghost predicate IsScan(found: Option<string>, attempts: seq<Attempt>, end: End, target: Target, ports: seq<int>,
                         goal: nat -> nat, budget: nat, join: (string, int) -> string, env: Env)
  {
    && Follows(attempts, ports, target, join, env)
    && (forall k :: 0 <= k < |attempts| ==> attempts[k].at <= budget)
    && OnSchedule(attempts, goal, env)
    && EndsWith(end, |attempts|, |ports|, LastOk(attempts), goal, budget, env)
    && (found.Some? <==> end == Accepted)
    && (found.None? ==> NoHit(attempts, |attempts|, target, join, env))
    && (found.Some? ==>
          var last := |attempts| - 1;
          && 0 <= last && NoHit(attempts, last, target, join, env) && Hit(attempts[last], last, target, join, env)
          && found.value == join(target.host, attempts[last].port))
  }

  lemma ScanStops(attempts: seq<Attempt>, end: End, target: Target, ports: seq<int>, goal: nat -> nat, budget: nat,
                  join: (string, int) -> string, env: Env)
    requires Scanning(attempts, target, ports, goal, budget, join, env)
    requires end != Accepted && EndsWith(end, |attempts|, |ports|, LastOk(attempts), goal, budget, env)
    ensures IsScan(None, attempts, end, target, ports, goal, budget, join, env)
  {
  }

  /** What one more attempt makes of a scan under way. */
  lemma ScanAdds(attempts: seq<Attempt>, a: Attempt, target: Target, ports: seq<int>, goal: nat -> nat, budget: nat,
                 join: (string, int) -> string, env: Env)
    requires Scanning(attempts, target, ports, goal, budget, join, env) && |attempts| < |ports|
    requires IsAttempt(a, |attempts|, ports, target, join, env)
    requires a.at == CheckTime(goal, env, |attempts|) <= budget && !env.cancelled(|attempts|)
    ensures var hit, stopped := Hit(a, |attempts|, target, join, env), a.ok && env.cancelledInWait(|attempts|);
            && (hit ==> IsScan(Some(join(target.host, a.port)), attempts + [a], Accepted,
                               target, ports, goal, budget, join, env))
            && (!hit && stopped ==> IsScan(None, attempts + [a], Cancelled, target, ports, goal, budget, join, env))
            && (!hit && !stopped ==> Scanning(attempts + [a], target, ports, goal, budget, join, env))
  {
    ScheduleSnoc(attempts, a, goal, env);
    AttemptSnoc(attempts, a, ports, target, join, env);
  }

  method ScanCandidates(target: Target, ports: seq<int>, goal: nat -> nat, budget: nat, join: (string, int) -> string,
                        env: Env)
    returns (found: Option<string>, attempts: seq<Attempt>, end: End)
    ensures IsScan(found, attempts, end, target, ports, goal, budget, join, env)
  {
    attempts := [];
    var now: nat := 0;
    for i := 0 to |ports|
      invariant |attempts| == i && now == ReadyTime(goal, env, i)
      invariant Scanning(attempts, target, ports, goal, budget, join, env)
    {
      var attempt, stop, next := ScanOne(target, ports, i, now, goal, budget, join, env);
      if attempt.None? {
        ScanStops(attempts, stop.value, target, ports, goal, budget, join, env);
        return None, attempts, stop.value;
      }
      ScanAdds(attempts, attempt.value, target, ports, goal, budget, join, env);
      attempts := attempts + [attempt.value];
      if stop.Some? {
        found := if stop.value == Accepted then Some(join(target.host, ports[i])) else None;
        return found, attempts, stop.value;
      }
      now := next;
    }
    ScanStops(attempts, Exhausted, target, ports, goal, budget, join, env);
    return None, attempts, Exhausted;
  }

  /** The loop body: deadline, cancellation, the candidate itself, pacing. */
  method ScanOne(target: Target, ports: seq<int>, i: nat, now: nat, goal: nat -> nat, budget: nat,
                 join: (string, int) -> string, env: Env)
    returns (attempt: Option<Attempt>, stop: Option<End>, next: nat)
    requires i < |ports| && now == ReadyTime(goal, env, i)
    ensures attempt.None? ==>
              (stop == Some(PastDeadline) && CheckTime(goal, env, i) > budget) ||
              (stop == Some(Cancelled) && env.cancelled(i))
    ensures attempt.Some? ==>
              && IsAttempt(attempt.value, i, ports, target, join, env)
              && attempt.value.at == CheckTime(goal, env, i) <= budget && !env.cancelled(i)
              && (stop == Some(Accepted) <==> Hit(attempt.value, i, target, join, env))
              && (stop.Some? && stop.value != Accepted ==>
                    stop.value == Cancelled && attempt.value.ok && env.cancelledInWait(i))
              && (stop.None? && attempt.value.ok ==> !env.cancelledInWait(i))
    ensures stop.None? ==> attempt.Some? && next == ReadyTime(goal, env, i + 1)
  {
    attempt, next := None, now;
    var start := now + env.beforeCheck(i);
    if start > budget {
      stop := Some(PastDeadline);
      return;
    }
    if env.cancelled(i) {
      stop := Some(Cancelled);
      return;
    }
    var tried, accepted := TryCandidate(target, ports, i, start, join, env);
    attempt := Some(tried);
    if accepted {
      stop := Some(Accepted);
      return;
    }
    if tried.ok && env.cancelledInWait(i) {
      stop := Some(Cancelled);
      return;
    }
    stop := None;
    next := PaceAfter(i, tried.ok, start + env.callTime(i), goal, env);
  }

  lemma AttemptSnoc(attempts: seq<Attempt>, a: Attempt, ports: seq<int>, target: Target, join: (string, int) -> string,
                    env: Env)
    requires |attempts| < |ports| && Follows(attempts, ports, target, join, env)
    requires NoHit(attempts, |attempts|, target, join, env) && IsAttempt(a, |attempts|, ports, target, join, env)
    ensures Follows(attempts + [a], ports, target, join, env)
    ensures NoHit(attempts + [a], |attempts|, target, join, env)
    ensures !Hit(a, |attempts|, target, join, env) ==> NoHit(attempts + [a], |attempts| + 1, target, join, env)
  {
    var more := attempts + [a];
    forall k | 0 <= k < |attempts| ensures more[k] == attempts[k] && !Hit(more[k], k, target, join, env) {}
  }

  lemma ScheduleSnoc(attempts: seq<Attempt>, a: Attempt, goal: nat -> nat, env: Env)
    requires OnSchedule(attempts, goal, env)
    requires LastOk(attempts) ==> !env.cancelledInWait(|attempts| - 1)
    requires a.at == CheckTime(goal, env, |attempts|) && a.ok == env.setOk(|attempts|) && !env.cancelled(|attempts|)
    ensures OnSchedule(attempts + [a], goal, env)
  {
  }

  /** The schedule alone keeps the attempts in order and within the rate. */
  lemma {:induction false} ScheduleIsTimed(attempts: seq<Attempt>, rate: nat, goal: nat -> nat, env: Env)
    requires rate > 0 && goal == Goals(rate) && OnSchedule(attempts, goal, env)
    ensures Timed(attempts, rate, ReadyTime(goal, env, |attempts|))
    ensures WithinRate(Successes(attempts) + 1, ReadyTime(goal, env, |attempts|), rate)
  {
    if attempts != [] {
      var n := |attempts| - 1;
      var front, a := attempts[..n], attempts[n];
      assert attempts == front + [a];
      ScheduleIsTimed(front, rate, goal, env);
      AttemptStep(front, a, rate, ReadyTime(goal, env, n));
      WaitStep(attempts, a, rate, a.at, ReadyTime(goal, env, n + 1));
    }
  }

  /** The time at which the next candidate may start. */
  function PaceAfter(i: nat, ok: bool, now: nat, goal: nat -> nat, env: Env): (next: nat)
    ensures now <= next
    ensures !ok ==> next == now
    ensures ok && now >= goal(i) ==> next == now + env.overshoot(i)
    ensures ok && now < goal(i) ==> next == goal(i) + env.overshoot(i)
  {
    if !ok then now
    else (if now < goal(i) then goal(i) else now) + env.overshoot(i)
  }

  lemma AttemptStep(attempts: seq<Attempt>, a: Attempt, rate: nat, now: nat)
    requires Timed(attempts, rate, now) && now <= a.at
    requires WithinRate(Successes(attempts) + 1, now, rate)
    ensures Timed(attempts + [a], rate, a.at)
    ensures !a.ok ==> WithinRate(Successes(attempts + [a]) + 1, a.at, rate)
  {
    RateLater(Successes(attempts) + 1, now, a.at, rate);
    TimedLater(attempts, rate, now, a.at);
    TimedSnoc(attempts, a, rate, a.at);
    SuccessesSnoc(attempts, a);
  }

  lemma WaitStep(attempts: seq<Attempt>, a: Attempt, rate: nat, start: nat, now: nat)
    requires rate > 0 && attempts != [] && Timed(attempts, rate, start) && start <= now
    requires if a.ok then PacingTarget(|attempts| - 1, rate) <= now
             else WithinRate(Successes(attempts) + 1, start, rate)
    ensures Timed(attempts, rate, now) && WithinRate(Successes(attempts) + 1, now, rate)
  {
    TimedLater(attempts, rate, start, now);
    if a.ok {
      SuccessesBound(attempts);
      TargetCovers(Successes(attempts), |attempts| - 1, rate, now);
    } else {
      RateLater(Successes(attempts) + 1, start, now, rate);
    }
  }

  /** `parsed` is the old endpoint split into host and port; None when it does
      not parse. */
  method BlindScanEndpoint(publicKey: Key, parsed: Option<(string, int)>, allowedIPs: string, keepAlive: int,
                           baselineRx: int, count: int, rate: int, budget: int, join: (string, int) -> string, env: Env)
    returns (found: Option<string>, attempts: seq<Attempt>, ghost ports: seq<int>, ghost end: End)
    ensures parsed.None? || !ValidPort(parsed.value.1) || count <= 0 ==> found.None? && attempts == []
    ensures parsed.Some? && ValidPort(parsed.value.1) && count > 0 ==>
              var target := Target(publicKey, parsed.value.0, parsed.value.1, allowedIPs, keepAlive, baselineRx);
              && IsPriorityOrder(target.center, EffectiveCount(count), ports)
              && IsScan(found, attempts, end, target, ports, Goals(EffectiveRate(rate)), EffectiveBudget(budget), join,
                        env)
              && Timed(attempts, EffectiveRate(rate), EffectiveBudget(budget))
              && Promises(found, attempts, target, count, rate, budget, join)
  {
    found, attempts, ports, end := None, [], [], Exhausted;
    if parsed.None? {
      return;
    }
    var (host, center) := parsed.value;
    if center < 1 || center > 65535 || count <= 0 {
      return;
    }
    var n, r, b := count, rate, budget;
    if n > 65535 {
      n := 65535;
    }
    if r <= 0 {
      r := 200;
    }
    if b <= 0 {
      b := 330 * SECOND;
    }
    var target := Target(publicKey, host, center, allowedIPs, keepAlive, baselineRx);
    var candidates, _, _ := PrioritizedPorts(center, n);
    ports := candidates;
    found, attempts, end := ScanCandidates(target, candidates, Goals(r), b, join, env);
    ScheduleIsTimed(attempts, r, Goals(r), env);
    KeepsPromises(found, attempts, end, target, candidates, count, rate, budget, join, env);
  }

  /** What a scan does, in its own terms: it tries at most `count` valid ports
      within the budget, or 330 seconds, at no more than `rate` updates a second,
      or 200; the first candidate is the old port, written with the routes and the
      keepalive, every later one is an endpoint only; and what it finds is the last
      endpoint tried, at an index divisible by 16. */
  ghost predicate Promises(found: Option<string>, attempts: seq<Attempt>, target: Target, count: int, rate: int,
                           budget: int, join: (string, int) -> string)
  {
    var limit := if budget <= 0 then 330_000_000_000 else budget;
    && |attempts| <= 65535 && |attempts| <= count
    && (Successes(attempts) - 1) * 1_000_000_000 < (limit + 1) * (if rate <= 0 then 200 else rate)
    && (forall k :: 0 <= k < |attempts| ==>
          1 <= attempts[k].port <= 65535 && attempts[k].at <= limit && Writes(attempts[k], k, target, join))
    && (found.Some? ==> attempts != [] && (|attempts| - 1) % 16 == 0
                        && found.value == join(target.host, attempts[|attempts| - 1].port))
  }

  ghost predicate Writes(a: Attempt, k: nat, target: Target, join: (string, int) -> string) {
    a.command ==
      if k == 0
      then SetPeer(target.publicKey, join(target.host, target.center), target.allowedIPs, target.keepAlive)
      else SetEndpoint(target.publicKey, join(target.host, a.port))
  }

  lemma KeepsPromises(found: Option<string>, attempts: seq<Attempt>, end: End, target: Target, ports: seq<int>,
                      count: int, rate: int, budget: int, join: (string, int) -> string, env: Env)
    requires ValidPort(target.center) && count > 0 && IsPriorityOrder(target.center, EffectiveCount(count), ports)
    requires IsScan(found, attempts, end, target, ports, Goals(EffectiveRate(rate)), EffectiveBudget(budget), join, env)
    requires Timed(attempts, EffectiveRate(rate), EffectiveBudget(budget))
    ensures Promises(found, attempts, target, count, rate, budget, join)
  {
    ScanIsBounded(attempts, EffectiveRate(rate), EffectiveBudget(budget));
    ScanCommands(found, attempts, end, target, ports, Goals(EffectiveRate(rate)), EffectiveBudget(budget), join, env);
  }

  /** The ports are tried around the centre, beginning with the centre itself. */
  lemma CenterFirst(center: int, ports: seq<int>)
    requires ValidPort(center) && ports != [] && IsPriorityOrder(center, |ports|, ports)
    ensures ports[0] == center
  {
    NothingBeforeCenter(center, ports[0]);
    assert center in ports;
    var k :| 0 <= k < |ports| && ports[k] == center;
    FirstComesFirst(center, ports, k);
  }

  lemma FirstComesFirst(center: int, ports: seq<int>, k: nat)
    requires k < |ports| && IsPriorityOrder(center, |ports|, ports)
    ensures k == 0 || Before(center, ports[0], ports[k])
  {
  }

  lemma NothingBeforeCenter(center: int, p: int)
    ensures !Before(center, p, center)
  {
  }

  /** What a scan writes: the first candidate is the old port, with the routes and
      the keepalive; every later one is an endpoint only. */
  lemma ScanCommands(found: Option<string>, attempts: seq<Attempt>, end: End, target: Target, ports: seq<int>,
                     goal: nat -> nat, budget: nat, join: (string, int) -> string, env: Env)
    requires IsScan(found, attempts, end, target, ports, goal, budget, join, env)
    requires ValidPort(target.center) && IsPriorityOrder(target.center, |ports|, ports)
    ensures forall k :: 0 <= k < |attempts| ==>
              ValidPort(attempts[k].port) && Writes(attempts[k], k, target, join)
  {
    if attempts != [] {
      CenterFirst(target.center, ports);
    }
    forall k | 0 <= k < |attempts| ensures IsAttempt(attempts[k], k, ports, target, join, env) {}
  }

  /** So once the first candidate is accepted the device has the peer, at its old
      port and with its routes, whether it had the peer before or not; the later
      candidates only move its endpoint. */
  lemma ScanOnDevice(d: Device, target: Target, join: (string, int) -> string, port: int)
    ensures var first := Execute(d, CommandFor(target, join, 0, target.center));
            && first.Keys == d.Keys + {target.publicKey}
            && first[target.publicKey].endpoint == join(target.host, target.center)
            && (target.allowedIPs != "" ==> first[target.publicKey].allowedIPs == target.allowedIPs)
            && (target.keepAlive > 0 ==> first[target.publicKey].keepAlive == target.keepAlive)
            && (forall k: nat :: k > 0 ==>
                  Execute(first, CommandFor(target, join, k, port)) ==
                  first[target.publicKey := first[target.publicKey].(endpoint := join(target.host, port))])
  {
  }

  /** No candidate port is tried twice. */
  lemma CandidatesTriedOnce(attempts: seq<Attempt>, ports: seq<int>, target: Target, join: (string, int) -> string,
                            env: Env)
    requires IsPriorityOrder(target.center, |ports|, ports) && Follows(attempts, ports, target, join, env)
    ensures forall i, j :: 0 <= i < j < |attempts| ==> attempts[i].port != attempts[j].port
  {
    RanksDiffer(target.center, ports);
    assert forall k :: 0 <= k < |attempts| ==> IsAttempt(attempts[k], k, ports, target, join, env);
  }
}
