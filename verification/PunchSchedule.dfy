/** `scheduleHubPunch` of cmd/wg-meshd/main.go: one tick of the hub's
    synchronized punch scheduler over the peers it knows.
 */
module PunchSchedule {
  import opened Keys
  import XorMetric
  import opened RoutingTable
  import opened DhtProtocol

  const MILLISECOND: int := 1_000_000

  /** The parts of "<start ms>-<a's key, 8 chars>-<b's key, 8 chars>". */
  datatype PunchId = PunchId(startMs: int, a: string, b: string)

  datatype Plan = Plan(
    recipient: Key,
    targetKey: Key,
    targetEndpoint: string,
    id: PunchId,
    start: int,
    window: int,
    ports: seq<string>)

  predicate Eligible(hub: Key, c: Contact) {
    c.publicKey != "" && c.publicKey != hub && c.publicEndpoint != ""
  }

  /** The receiver's guard (SetPunchPlanCallback). */
  predicate Guard(me: Key, plan: Plan) {
    plan.targetKey != "" && plan.targetKey != me && |plan.ports| != 0
  }

  /** The plan telling `to` to punch toward `other`. */
  function PlanFor(to: Contact, other: Contact, id: PunchId, start: int, window: int): Plan {
    Plan(to.publicKey, other.publicKey, other.publicEndpoint, id, start, window, [other.publicEndpoint])
  }

  predicate IsPair(hub: Key, peers: seq<Contact>, i: int, j: int) {
    0 <= i < j < |peers| && Eligible(hub, peers[i]) && Eligible(hub, peers[j])
  }

  /** When pairs start, and for how long; clock(m) is the time pair m is scheduled. */
  datatype Timing = Timing(window: int, lead: int, clock: nat -> int) {
    function Start(m: nat): int {
      clock(m) + lead
    }
  }

  function EffectiveTiming(window: int, lead: int, clock: nat -> int): Timing {
    Timing(if window <= 0 then 500 * MILLISECOND else window, if lead <= 0 then 750 * MILLISECOND else lead, clock)
  }

  function Cut(key: Key): string {
    if |key| < 8 then key else key[..8]
  }

  function IdFor(a: Contact, b: Contact, start: int): PunchId {
    PunchId(start / MILLISECOND, Cut(a.publicKey), Cut(b.publicKey))
  }

  /** Plans 2m and 2m+1 are the two halves for pair m: same identifier, start
      and window, each naming the other's key and public endpoint. */
  ghost predicate Halves(peers: seq<Contact>, pairs: seq<(int, int)>, plans: seq<Plan>, t: Timing, m: nat)
    requires m < |pairs| && 2 * m + 1 < |plans|
  {
    var (i, j) := pairs[m];
    && 0 <= i < |peers| && 0 <= j < |peers|
    && var start := t.Start(m);
       var id := IdFor(peers[i], peers[j], start);
       && plans[2 * m] == PlanFor(peers[i], peers[j], id, start, t.window)
       && plans[2 * m + 1] == PlanFor(peers[j], peers[i], id, start, t.window)
  }

  ghost predicate IsSchedule(hub: Key, peers: seq<Contact>, pairs: seq<(int, int)>, plans: seq<Plan>, t: Timing) {
    && |plans| == 2 * |pairs|
    && (forall m :: 0 <= m < |pairs| ==> IsPair(hub, peers, pairs[m].0, pairs[m].1))
    && (forall m, n :: 0 <= m < n < |pairs| ==> pairs[m] != pairs[n])
    && (forall m :: 0 <= m < |pairs| ==> Halves(peers, pairs, plans, t, m))
  }

  /** A whole tick: a schedule for exactly the pairs of eligible peers. */
  ghost predicate IsTick(hub: Key, peers: seq<Contact>, pairs: seq<(int, int)>, plans: seq<Plan>, t: Timing) {
    && IsSchedule(hub, peers, pairs, plans, t)
    && forall i: int, j: int :: (i, j) in pairs <==> IsPair(hub, peers, i, j)
  }

  /** The pairs visited before the inner loop reaches (i, j). */
  ghost predicate VisitedBefore(hub: Key, peers: seq<Contact>, pairs: seq<(int, int)>, i: int, j: int) {
    forall x: int, y: int :: (x, y) in pairs <==> IsPair(hub, peers, x, y) && (x < i || (x == i && y < j))
  }

  /** SendPunchPlan gets past its log line: over a control connection it logs
      nothing; otherwise it cuts 32 characters of the recipient's key and 16 of
      every connected key, which panics on shorter ones. */
  predicate Reaches(c: Contact, control: set<Key>) {
    c.publicKey in control || (|c.publicKey| >= 32 && forall k :: k in control ==> |k| >= 16)
  }

  /** The pair is handled without a panic.  The scheduler itself cuts 8 and 16
      characters of both keys. */
  predicate Survives(a: Contact, b: Contact, controlA: set<Key>, controlB: set<Key>) {
    |a.publicKey| >= 16 && |b.publicKey| >= 16 && Reaches(a, controlA) && Reaches(b, controlB)
  }

  /** In other words, what makes the pair panic. */
  lemma PanicsIff(a: Contact, b: Contact, controlA: set<Key>, controlB: set<Key>)
    ensures !Survives(a, b, controlA, controlB) <==>
              || |a.publicKey| < 16 || |b.publicKey| < 16
              || (a.publicKey !in controlA && (|a.publicKey| < 32 || exists k :: k in controlA && |k| < 16))
              || (b.publicKey !in controlB && (|b.publicKey| < 32 || exists k :: k in controlB && |k| < 16))
  {
  }

  function Both(a: Contact, b: Contact, start: int, window: int): seq<Plan> {
    [PlanFor(a, b, IdFor(a, b, start), start, window), PlanFor(b, a, IdFor(a, b, start), start, window)]
  }

  /** The two SendPunchPlan calls for one pair, with the keys that have a control
      connection at each call. */
  method SendPair(a: Contact, b: Contact, start: int, window: int, controlA: set<Key>, controlB: set<Key>)
    returns (sent: seq<Plan>, panicked: bool)
    ensures panicked <==> !Survives(a, b, controlA, controlB)
    ensures if panicked then sent <= Both(a, b, start, window) else sent == Both(a, b, start, window)
  {
    sent, panicked := [], true;
    if |a.publicKey| < 8 || |b.publicKey| < 8 {
      return;
    }
    var id := PunchId(start / MILLISECOND, a.publicKey[..8], b.publicKey[..8]);
    var portsA := [b.publicEndpoint];
    var portsB := [a.publicEndpoint];
    if !Reaches(a, controlA) {
      return;
    }
    sent := sent + [Plan(a.publicKey, b.publicKey, b.publicEndpoint, id, start, window, portsA)];
    if !Reaches(b, controlB) {
      return;
    }
    sent := sent + [Plan(b.publicKey, a.publicKey, a.publicEndpoint, id, start, window, portsB)];
    panicked := |a.publicKey| < 16 || |b.publicKey| < 16;
  }

  /** Pair m is handled without a panic; control(n) are the control connections
      at the n-th call of SendPunchPlan. */
  predicate SurvivesAs(peers: seq<Contact>, pair: (int, int), control: nat -> set<Key>, m: nat) {
    && 0 <= pair.0 < |peers| && 0 <= pair.1 < |peers|
    && Survives(peers[pair.0], peers[pair.1], control(2 * m), control(2 * m + 1))
  }

  ghost predicate AllSurvive(peers: seq<Contact>, pairs: seq<(int, int)>, control: nat -> set<Key>) {
    forall m :: 0 <= m < |pairs| ==> SurvivesAs(peers, pairs[m], control, m)
  }

  /** The tick is under way: the inner loop is about to visit (i, j). */
  ghost predicate Ticking(hub: Key, peers: seq<Contact>, pairs: seq<(int, int)>, plans: seq<Plan>, t: Timing,
                          control: nat -> set<Key>, i: int, j: int)
  {
    && IsSchedule(hub, peers, pairs, plans, t) && VisitedBefore(hub, peers, pairs, i, j)
    && AllSurvive(peers, pairs, control)
  }

  /** The tick panicked at the pair (i, j), having sent at most its own two plans
      after those of the pairs before it. */
  ghost predicate Crashed(hub: Key, peers: seq<Contact>, pairs: seq<(int, int)>, plans: seq<Plan>, rest: seq<Plan>,
                          t: Timing, control: nat -> set<Key>, i: int, j: int)
  {
    && Ticking(hub, peers, pairs, plans, t, control, i, j)
    && IsPair(hub, peers, i, j) && !SurvivesAs(peers, (i, j), control, |pairs|)
    && rest <= Both(peers[i], peers[j], t.Start(|pairs|), t.window)
  }

  /** The inner loop: peer i with every later peer. */
  method PairLater(hub: Key, peers: seq<Contact>, i: nat, t: Timing, control: nat -> set<Key>, plans: seq<Plan>,
                   ghost pairs: seq<(int, int)>)
    returns (plans': seq<Plan>, rest: seq<Plan>, panicked: bool, ghost pairs': seq<(int, int)>, ghost at: int)
    requires i < |peers| && Eligible(hub, peers[i]) && Ticking(hub, peers, pairs, plans, t, control, i, i + 1)
    ensures if panicked then Crashed(hub, peers, pairs', plans', rest, t, control, i, at)
            else Ticking(hub, peers, pairs', plans', t, control, i, |peers|)
  {
    plans', rest, panicked, pairs', at := plans, [], false, pairs, 0;
    for j := i + 1 to |peers|
      invariant Ticking(hub, peers, pairs', plans', t, control, i, j) && !panicked
    {
      var b := peers[j];
      if b.publicKey == "" || b.publicKey == hub || b.publicEndpoint == "" {
        TickSkips(hub, peers, pairs', plans', t, control, i, j);
        continue;
      }
      var sent, failed := SendNext(hub, peers, i, j, t, control, plans', pairs');
      if failed {
        rest, panicked, at := sent, true, j;
        return;
      }
      plans', pairs' := plans' + sent, pairs' + [(i, j)];
    }
  }

  /** The body of the inner loop for an eligible pair. */
  method SendNext(hub: Key, peers: seq<Contact>, i: nat, j: nat, t: Timing, control: nat -> set<Key>, plans: seq<Plan>,
                  ghost pairs: seq<(int, int)>)
    returns (sent: seq<Plan>, panicked: bool)
    requires IsPair(hub, peers, i, j) && Ticking(hub, peers, pairs, plans, t, control, i, j)
    ensures if panicked then Crashed(hub, peers, pairs, plans, sent, t, control, i, j)
            else Ticking(hub, peers, pairs + [(i, j)], plans + sent, t, control, i, j + 1)
  {
    var m := |plans| / 2;
    TickStep(hub, peers, pairs, plans, t, control, i, j);
    sent, panicked := SendPair(peers[i], peers[j], t.Start(m), t.window, control(2 * m), control(2 * m + 1));
  }

  lemma TickSkips(hub: Key, peers: seq<Contact>, pairs: seq<(int, int)>, plans: seq<Plan>, t: Timing,
                  control: nat -> set<Key>, i: int, j: int)
    requires Ticking(hub, peers, pairs, plans, t, control, i, j) && !IsPair(hub, peers, i, j)
    ensures Ticking(hub, peers, pairs, plans, t, control, i, j + 1)
  {
  }

  /** One tick of the scheduler: it sends the two halves for exactly the pairs
      of eligible peers, or panics at the first pair that does not survive. */
  method ScheduleTick(hub: Key, peers: seq<Contact>, window: int, lead: int, clock: nat -> int,
                      control: nat -> set<Key>)
    returns (plans: seq<Plan>, rest: seq<Plan>, panicked: bool)
    ensures var t := EffectiveTiming(window, lead, clock);
            if panicked then exists pairs, i, j :: Crashed(hub, peers, pairs, plans, rest, t, control, i, j)
            else exists pairs :: IsTick(hub, peers, pairs, plans, t) && AllSurvive(peers, pairs, control)
    ensures !panicked ==> exists pairs ::
              EachPairOnce(hub, peers, pairs) && Sends(peers, pairs, plans, window, lead, clock)
  {
    var w, l := window, lead;
    if w <= 0 {
      w := 500 * MILLISECOND;
    }
    if l <= 0 {
      l := 750 * MILLISECOND;
    }
    var t := Timing(w, l, clock);
    assert t == EffectiveTiming(window, lead, clock);
    plans, rest, panicked := [], [], false;
    ghost var pairs := [];
    for i := 0 to |peers|
      invariant Ticking(hub, peers, pairs, plans, t, control, i, i) && !panicked
    {
      var a := peers[i];
      if a.publicKey == "" || a.publicKey == hub || a.publicEndpoint == "" {
        continue;
      }
      ghost var at;
      plans, rest, panicked, pairs, at := PairLater(hub, peers, i, t, control, plans, pairs);
      if panicked {
        assert Crashed(hub, peers, pairs, plans, rest, EffectiveTiming(window, lead, clock), control, i, at);
        return;
      }
    }
    assert IsTick(hub, peers, pairs, plans, EffectiveTiming(window, lead, clock));
    TickSends(hub, peers, pairs, plans, window, lead, clock, control);
  }

  /** The list of pairs has every two listed peers that have a key other than the
      hub's and a public endpoint, the earlier listed first, once each. */
  ghost predicate EachPairOnce(hub: Key, peers: seq<Contact>, pairs: seq<(int, int)>) {
    && (forall m, n :: 0 <= m < n < |pairs| ==> pairs[m] != pairs[n])
    && (forall i, j :: (i, j) in pairs <==>
          && 0 <= i < j < |peers|
          && peers[i].publicKey != "" && peers[i].publicKey != hub && peers[i].publicEndpoint != ""
          && peers[j].publicKey != "" && peers[j].publicKey != hub && peers[j].publicEndpoint != "")
  }

  /** The plan tells `to` about `other`: to start after the lead, or 750 ms, from
      the moment it was scheduled, for the window, or 500 ms, toward the other's
      public endpoint; it is named after the start's millisecond and the first 8
      characters of both keys. */
  ghost predicate SendsPlan(p: Plan, to: Contact, other: Contact, a: Key, b: Key, now: int, window: int, lead: int) {
    && p.recipient == to.publicKey && p.targetKey == other.publicKey
    && p.targetEndpoint == other.publicEndpoint && p.ports == [other.publicEndpoint]
    && p.start == now + (if lead > 0 then lead else 750_000_000) && p.start > now
    && p.window == (if window > 0 then window else 500_000_000)
    && p.id.startMs * 1_000_000 <= p.start < (p.id.startMs + 1) * 1_000_000
    && |a| >= 8 && p.id.a == a[..8] && |b| >= 8 && p.id.b == b[..8]
  }

  /** Each pair is sent its two plans, in turn. */
  ghost predicate Sends(peers: seq<Contact>, pairs: seq<(int, int)>, plans: seq<Plan>,
                        window: int, lead: int, clock: nat -> int)
  {
    && |plans| == 2 * |pairs|
    && forall m :: 0 <= m < |pairs| ==> SendsBoth(peers, pairs[m], plans, m, clock(m), window, lead)
  }

  ghost predicate SendsBoth(peers: seq<Contact>, pair: (int, int), plans: seq<Plan>, m: nat, now: int,
                            window: int, lead: int)
  {
    && 0 <= pair.0 < |peers| && 0 <= pair.1 < |peers| && 2 * m + 1 < |plans|
    && var a, b := peers[pair.0], peers[pair.1];
       && SendsPlan(plans[2 * m], a, b, a.publicKey, b.publicKey, now, window, lead)
       && SendsPlan(plans[2 * m + 1], b, a, a.publicKey, b.publicKey, now, window, lead)
  }

  lemma PairSends(peers: seq<Contact>, pairs: seq<(int, int)>, plans: seq<Plan>, window: int, lead: int,
                  clock: nat -> int, control: nat -> set<Key>, m: nat)
    requires m < |pairs| && 2 * m + 1 < |plans| && SurvivesAs(peers, pairs[m], control, m)
    requires Halves(peers, pairs, plans, EffectiveTiming(window, lead, clock), m)
    ensures SendsBoth(peers, pairs[m], plans, m, clock(m), window, lead)
  {
  }

  lemma TickSends(hub: Key, peers: seq<Contact>, pairs: seq<(int, int)>, plans: seq<Plan>, window: int, lead: int,
                  clock: nat -> int, control: nat -> set<Key>)
    requires IsTick(hub, peers, pairs, plans, EffectiveTiming(window, lead, clock)) && AllSurvive(peers, pairs, control)
    ensures EachPairOnce(hub, peers, pairs) && Sends(peers, pairs, plans, window, lead, clock)
  {
    forall i, j ensures (i, j) in pairs <==> IsPair(hub, peers, i, j) {}
    forall m | 0 <= m < |pairs| ensures SendsBoth(peers, pairs[m], plans, m, clock(m), window, lead) {
      assert Halves(peers, pairs, plans, EffectiveTiming(window, lead, clock), m);
      assert SurvivesAs(peers, pairs[m], control, m);
      PairSends(peers, pairs, plans, window, lead, clock, control, m);
    }
  }

  lemma TickStep(hub: Key, peers: seq<Contact>, pairs: seq<(int, int)>, plans: seq<Plan>, t: Timing,
                 control: nat -> set<Key>, i: int, j: int)
    requires Ticking(hub, peers, pairs, plans, t, control, i, j) && IsPair(hub, peers, i, j)
    ensures |plans| / 2 == |pairs|
    ensures SurvivesAs(peers, (i, j), control, |pairs|) ==>
              Ticking(hub, peers, pairs + [(i, j)], plans + Both(peers[i], peers[j], t.Start(|pairs|), t.window), t,
                      control, i, j + 1)
  {
    var start := t.Start(|pairs|);
    var id := IdFor(peers[i], peers[j], start);
    ScheduleStep(hub, peers, pairs, plans, t, i, j);
    assert plans + Both(peers[i], peers[j], start, t.window) ==
           plans + [PlanFor(peers[i], peers[j], id, start, t.window)] +
           [PlanFor(peers[j], peers[i], id, start, t.window)];
  }

  lemma ScheduleStep(hub: Key, peers: seq<Contact>, pairs: seq<(int, int)>, plans: seq<Plan>, t: Timing, i: int, j: int)
    requires IsSchedule(hub, peers, pairs, plans, t) && VisitedBefore(hub, peers, pairs, i, j)
             && IsPair(hub, peers, i, j)
    ensures var start := t.Start(|pairs|);
            var id := IdFor(peers[i], peers[j], start);
            IsSchedule(hub, peers, pairs + [(i, j)],
                       plans + [PlanFor(peers[i], peers[j], id, start, t.window)] +
                       [PlanFor(peers[j], peers[i], id, start, t.window)], t)
    ensures VisitedBefore(hub, peers, pairs + [(i, j)], i, j + 1)
  {
    var start := t.Start(|pairs|);
    var id := IdFor(peers[i], peers[j], start);
    var pairs' := pairs + [(i, j)];
    var plans' := plans + [PlanFor(peers[i], peers[j], id, start, t.window)] +
                  [PlanFor(peers[j], peers[i], id, start, t.window)];
    assert (i, j) !in pairs;
    assert forall m :: 0 <= m < |pairs| ==> pairs[m] in pairs;
    forall m | 0 <= m < |pairs'| ensures Halves(peers, pairs', plans', t, m) {
      if m < |pairs| {
        assert Halves(peers, pairs, plans, t, m);
        assert plans'[2 * m] == plans[2 * m] && plans'[2 * m + 1] == plans[2 * m + 1];
      }
    }
  }

  // ------------------------------------------------------ what a tick means

  /** Plan k speaks about two distinct eligible peers. */
  lemma PlanParties(hub: Key, peers: seq<Contact>, pairs: seq<(int, int)>, plans: seq<Plan>, t: Timing, k: nat)
      returns (x: nat, y: nat)
    requires IsSchedule(hub, peers, pairs, plans, t) && k < |plans|
    ensures x < |peers| && y < |peers| && x != y && Eligible(hub, peers[x]) && Eligible(hub, peers[y])
    ensures plans[k].recipient == peers[x].publicKey && plans[k].targetKey == peers[y].publicKey
    ensures plans[k].targetEndpoint == peers[y].publicEndpoint && plans[k].ports == [peers[y].publicEndpoint]
    ensures pairs[k / 2] == if k % 2 == 0 then (x, y) else (y, x)
  {
    var m := k / 2;
    assert Halves(peers, pairs, plans, t, m);
    assert IsPair(hub, peers, pairs[m].0, pairs[m].1);
    x, y := pairs[m].0, pairs[m].1;
    if k % 2 == 1 {
      x, y := y, x;
      assert k == 2 * m + 1;
    } else {
      assert k == 2 * m;
    }
  }

  /** When no key is listed twice, no plan targets its recipient or the hub, and
      the receiver's guard accepts every plan. */
  lemma PlansAreAccepted(hub: Key, peers: seq<Contact>, pairs: seq<(int, int)>, plans: seq<Plan>, t: Timing, k: nat)
    requires DistinctKeys(peers) && IsSchedule(hub, peers, pairs, plans, t) && k < |plans|
    ensures plans[k].recipient != plans[k].targetKey
    ensures plans[k].recipient != hub && plans[k].targetKey != hub
    ensures Guard(plans[k].recipient, plans[k])
    ensures plans[k].targetKey != "" && plans[k].ports != []
  {
    var x, y := PlanParties(hub, peers, pairs, plans, t, k);
    KeysDiffer(peers, x, y);
  }

  lemma KeysDiffer(peers: seq<Contact>, x: nat, y: nat)
    requires DistinctKeys(peers) && x < |peers| && y < |peers|
    ensures peers[x].publicKey == peers[y].publicKey <==> x == y
  {
  }

  /** The position of the plan for the ordered pair (x, y). */
  lemma PlanExists(hub: Key, peers: seq<Contact>, pairs: seq<(int, int)>, plans: seq<Plan>, t: Timing, x: nat, y: nat)
      returns (k: nat)
    requires IsTick(hub, peers, pairs, plans, t)
    requires x < |peers| && y < |peers| && x != y && Eligible(hub, peers[x]) && Eligible(hub, peers[y])
    ensures k < |plans| && plans[k].recipient == peers[x].publicKey && plans[k].targetKey == peers[y].publicKey
  {
    var i, j := if x < y then x else y, if x < y then y else x;
    assert IsPair(hub, peers, i, j);
    assert (i, j) in pairs;
    var m :| 0 <= m < |pairs| && pairs[m] == (i, j);
    assert Halves(peers, pairs, plans, t, m);
    k := if x < y then 2 * m else 2 * m + 1;
  }

  predicate IsPlanFor(p: Plan, recipient: Key, target: Key) {
    p.recipient == recipient && p.targetKey == target
  }

  predicate SameParties(p: Plan, q: Plan) {
    p.recipient == q.recipient && p.targetKey == q.targetKey
  }

  /** When no key is listed twice, every ordered pair of distinct eligible peers
      gets exactly one plan. */
  lemma ExactlyOnePlanPerPair(hub: Key, peers: seq<Contact>, pairs: seq<(int, int)>, plans: seq<Plan>, t: Timing,
                              x: nat, y: nat)
    requires DistinctKeys(peers) && IsTick(hub, peers, pairs, plans, t)
    requires x < |peers| && y < |peers| && x != y && Eligible(hub, peers[x]) && Eligible(hub, peers[y])
    ensures exists k :: 0 <= k < |plans| && IsPlanFor(plans[k], peers[x].publicKey, peers[y].publicKey)
    ensures forall k, l :: 0 <= k < |plans| && 0 <= l < |plans| && SameParties(plans[k], plans[l]) ==> k == l
  {
    var k0 := PlanExists(hub, peers, pairs, plans, t, x, y);
    forall k, l | 0 <= k < |plans| && 0 <= l < |plans| && SameParties(plans[k], plans[l]) ensures k == l {
      SamePlan(hub, peers, pairs, plans, t, k, l);
    }
  }

  lemma SamePlan(hub: Key, peers: seq<Contact>, pairs: seq<(int, int)>, plans: seq<Plan>, t: Timing, k: nat, l: nat)
    requires DistinctKeys(peers) && IsSchedule(hub, peers, pairs, plans, t)
    requires k < |plans| && l < |plans| && SameParties(plans[k], plans[l])
    ensures k == l
  {
    var x, y := PlanParties(hub, peers, pairs, plans, t, k);
    var x', y' := PlanParties(hub, peers, pairs, plans, t, l);
    KeysDiffer(peers, x, x');
    KeysDiffer(peers, y, y');
    assert IsPair(hub, peers, pairs[k / 2].0, pairs[k / 2].1);
    assert IsPair(hub, peers, pairs[l / 2].0, pairs[l / 2].1);
    assert k % 2 == l % 2;
    assert k / 2 == l / 2;
  }

  /** Plans k and l are the two halves of an exchange between peers x and y. */
  predicate IsExchange(peers: seq<Contact>, plans: seq<Plan>, k: int, l: int, x: int, y: int)
    requires 0 <= x < |peers| && 0 <= y < |peers|
  {
    && 0 <= k < |plans| && 0 <= l < |plans|
    && plans[k].recipient == peers[x].publicKey && plans[k].targetKey == peers[y].publicKey
    && plans[l].recipient == peers[y].publicKey && plans[l].targetKey == peers[x].publicKey
    && plans[k].targetEndpoint == peers[y].publicEndpoint && plans[l].targetEndpoint == peers[x].publicEndpoint
    && plans[k].id == plans[l].id && plans[k].start == plans[l].start && plans[k].window == plans[l].window
  }

  lemma ExchangeExists(hub: Key, peers: seq<Contact>, pairs: seq<(int, int)>, plans: seq<Plan>, t: Timing,
                       x: nat, y: nat)
    requires IsTick(hub, peers, pairs, plans, t)
    requires x < |peers| && y < |peers| && x != y && Eligible(hub, peers[x]) && Eligible(hub, peers[y])
    ensures exists k, l :: IsExchange(peers, plans, k, l, x, y)
  {
    var i, j := if x < y then x else y, if x < y then y else x;
    assert IsPair(hub, peers, i, j);
    assert (i, j) in pairs;
    var m :| 0 <= m < |pairs| && pairs[m] == (i, j);
    assert Halves(peers, pairs, plans, t, m);
    assert IsExchange(peers, plans, 2 * m, 2 * m + 1, i, j);
    assert IsExchange(peers, plans, 2 * m + 1, 2 * m, j, i);
  }

  /** End to end: whatever happened in the DHT, and whatever is inserted while
      KnownPeers gathers, a tick sends every two distinct eligible peers it
      gathered one plan each, sharing identifier, start and window; it sends no
      second plan for an ordered pair; and every plan names two different peers
      other than the hub and is accepted by its receiver. */
  lemma HonestTick(nodeId: Key -> XorMetric.ID, steps: seq<Step>, h: nat, hub: Key,
                   pairs: seq<(int, int)>, plans: seq<Plan>, t: Timing)
    requires IsRun(nodeId, steps) && h < |After(nodeId, steps).handlers|
    requires IsTick(hub, After(nodeId, steps).handlers[h].gathered, pairs, plans, t)
    ensures var peers := After(nodeId, steps).handlers[h].gathered;
            forall x, y :: 0 <= x < |peers| && 0 <= y < |peers| && x != y
                           && Eligible(hub, peers[x]) && Eligible(hub, peers[y]) ==>
              exists k, l :: IsExchange(peers, plans, k, l, x, y)
    ensures forall k, l :: 0 <= k < |plans| && 0 <= l < |plans| && SameParties(plans[k], plans[l]) ==> k == l
    ensures forall k :: 0 <= k < |plans| ==>
              && plans[k].recipient != plans[k].targetKey && plans[k].recipient != hub && plans[k].targetKey != hub
              && Guard(plans[k].recipient, plans[k])
  {
    GatheredKeysDistinct(nodeId, steps, h);
    var peers := After(nodeId, steps).handlers[h].gathered;
    forall x, y | 0 <= x < |peers| && 0 <= y < |peers| && x != y && Eligible(hub, peers[x]) && Eligible(hub, peers[y])
      ensures exists k, l :: IsExchange(peers, plans, k, l, x, y)
    {
      ExchangeExists(hub, peers, pairs, plans, t, x, y);
    }
    forall k, l | 0 <= k < |plans| && 0 <= l < |plans| && SameParties(plans[k], plans[l]) ensures k == l {
      SamePlan(hub, peers, pairs, plans, t, k, l);
    }
    forall k | 0 <= k < |plans|
      ensures plans[k].recipient != plans[k].targetKey && plans[k].recipient != hub && plans[k].targetKey != hub
      ensures Guard(plans[k].recipient, plans[k])
    {
      PlansAreAccepted(hub, peers, pairs, plans, t, k);
    }
  }
}
