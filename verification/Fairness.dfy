/** How long a ready process waits for the processor. */
module Fairness {
  import opened Scheduler

  /** What can happen: the timer ticks; the running process exits, or goes to sleep and lets
      the next one be picked; it forks; it traps or waits, which hands the processor over
      without a pick; or contexts change in any other way. */
  datatype Event = Ticks | Exits | Yields | Forks(child: nat) | Traps(rip: nat) | Waits
                 | Acts(procs: seq<Context>)

  ghost predicate Allowed(t: Table, e: Event) {
    Sane(t) &&
    match e
    case Forks(child) => child < |t.procs|
    case Exits => t.procs[t.current].ppid < |t.procs|
    case Traps(_) => t.procs[t.current].ppid < |t.procs|
    case Waits => FirstChild(t.procs, t.current) < |t.procs|
    case Acts(procs) => |procs| == |t.procs|
    case _ => true
  }

  ghost function After(t: Table, e: Event): Table
    requires Allowed(t, e)
  {
    match e
    case Ticks => Tick(t)
    case Exits => Exit(t)
    case Yields => Dispatch(t, Pick(t.procs, t.current))
    case Forks(child) => Fork(t, child)
    case Traps(rip) => Trap(t, rip)
    case Waits => WaitAndContinue(t)
    case Acts(procs) => t.(procs := procs)
  }

  predicate IsPick(e: Event) { e.Ticks? || e.Exits? || e.Yields? }

  predicate IsTick(e: Event) { e.Ticks? }

  predicate IsHandoff(e: Event) { e.Traps? || e.Waits? }

  /** How many of the events are of a sort. */
  function Tally(events: seq<Event>, sort: Event -> bool): nat {
    if events == [] then 0
    else Tally(events[..|events| - 1], sort) + if sort(events[|events| - 1]) then 1 else 0
  }

  function Picks(events: seq<Event>): nat { Tally(events, IsPick) }

  function TimerTicks(events: seq<Event>): nat { Tally(events, IsTick) }

  /** These events lead from state to state. */
  ghost predicate Run(states: seq<Table>, events: seq<Event>) {
    && |states| == |events| + 1
    && forall i :: 0 <= i < |events| ==> Allowed(states[i], events[i]) && states[i + 1] == After(states[i], events[i])
  }

  /** One of the first `k` events gives `p` the processor. */
  ghost predicate Dispatched(states: seq<Table>, p: nat, k: nat) {
    exists j :: 0 < j <= k && j < |states| && states[j].current == p
  }

  /** `p` is ready all the time, until it is dispatched. */
  ghost predicate StaysReady(states: seq<Table>, p: nat) {
    forall j :: 0 <= j < |states| ==> IsReady(states[j].procs, p) || Dispatched(states, p, j)
  }

  /** The contexts among which the event picks. */
  ghost function Choice(t: Table, e: Event): seq<Context>
    requires Allowed(t, e) && IsPick(e)
  {
    match e
    case Ticks => SetState(Account(t.procs, t.current), t.current, Ready)
    case Exits => LeftBy(t)
    case _ => t.procs
  }

  lemma ChoiceIs(t: Table, e: Event)
    requires Allowed(t, e) && IsPick(e)
    ensures |Choice(t, e)| == |t.procs| == |After(t, e).procs| && After(t, e).current == Pick(Choice(t, e), t.current)
    ensures After(t, e).current < |t.procs|
    ensures forall q :: 0 <= q < |t.procs| && q != After(t, e).current ==> After(t, e).procs[q] == Choice(t, e)[q]
  {
    PickIsPicked(Choice(t, e), t.current);
  }

  /** The number of contexts never changes, and one of them is current. */
  lemma StaysSane(t: Table, e: Event)
    requires Allowed(t, e)
    ensures Sane(After(t, e)) && |After(t, e).procs| == |t.procs|
    ensures !IsPick(e) && !IsHandoff(e) ==> After(t, e).current == t.current
    ensures e.Acts? ==> After(t, e).procs == e.procs
  {
    if IsPick(e) {
      ChoiceIs(t, e);
    }
  }

  lemma {:induction false} RunSane(states: seq<Table>, events: seq<Event>, k: nat)
    requires Run(states, events) && Sane(states[0]) && k < |states|
    ensures Sane(states[k]) && |states[k].procs| == |states[0].procs|
  {
    hide After, Allowed;
    if k > 0 {
      RunSane(states, events, k - 1);
      StaysSane(states[k - 1], events[k - 1]);
    }
  }

  /** Whatever picks, a process that is ready before and after it, if not picked, gets nearer. */
  lemma PickStep(t: Table, e: Event, p: nat)
    requires Allowed(t, e) && IsPick(e) && 0 < p < |t.procs|
    requires IsReady(After(t, e).procs, p) || After(t, e).current == p
    ensures After(t, e).current < |t.procs|
    ensures After(t, e).current == p
         || Distance(|t.procs|, After(t, e).current, p) < Distance(|t.procs|, t.current, p)
  {
    ChoiceIs(t, e);
    hide After, Choice, Pick;
    if After(t, e).current != p {
      assert IsReady(Choice(t, e), p);
      PickGetsNearer(Choice(t, e), t.current, p);
    }
  }

  /** Until `p` is dispatched, no handoff puts more processes in front of it than there were. */
  ghost predicate HandsForward(states: seq<Table>, events: seq<Event>, p: nat)
    requires Run(states, events) && 0 < p < |states[0].procs|
  {
    var n := |states[0].procs|;
    forall i :: 0 <= i < |events| && IsHandoff(events[i]) && !Dispatched(states, p, i + 1) ==>
      var (c, r) := (states[i].current, states[i + 1].current);
      c < n && r < n && Distance(n, r, p) <= Distance(n, c, p)
  }

  lemma {:induction false} FairBy(states: seq<Table>, events: seq<Event>, p: nat, k: nat)
    requires Run(states, events) && Sane(states[0]) && 0 < p < |states[0].procs| && k < |states|
    requires StaysReady(states, p) && HandsForward(states, events, p)
    ensures Sane(states[k]) && |states[k].procs| == |states[0].procs|
    ensures Dispatched(states, p, k)
         || Distance(|states[0].procs|, states[k].current, p) + Picks(events[..k])
            <= Distance(|states[0].procs|, states[0].current, p)
  {
    hide After, Allowed, Distance;
    RunSane(states, events, k);
    if k > 0 {
      FairBy(states, events, p, k - 1);
      var t, e := states[k - 1], events[k - 1];
      assert events[..k][..k - 1] == events[..k - 1];
      if !Dispatched(states, p, k) {
        assert !Dispatched(states, p, k - 1) && IsReady(states[k].procs, p);
        StaysSane(t, e);
        if IsPick(e) {
          PickStep(t, e, p);
        }
      }
    }
  }

  /** Fairness: in every run in which no handoff puts more processes in front of it until then,
      a process that stays ready is dispatched within as many picks, by the timer, an exit or a
      sleep, as there are processes besides the swapper. */
  lemma Fair(states: seq<Table>, events: seq<Event>, p: nat)
    requires Run(states, events) && Sane(states[0]) && 0 < p < |states[0].procs|
    requires StaysReady(states, p) && HandsForward(states, events, p)
    requires Picks(events) >= |states[0].procs| - 1
    ensures Dispatched(states, p, |events|)
  {
    FairBy(states, events, p, |events|);
    assert events[..|events|] == events;
  }

  // ---- the bound is exact ----

  /** From `c` on, `p` is sure to be dispatched within `m` picks, as long as nobody hands over. */
  ghost predicate Sure(n: nat, c: nat, p: nat, m: nat) {
    forall states: seq<Table>, events: seq<Event> ::
      Run(states, events) && Sane(states[0]) && |states[0].procs| == n && states[0].current == c
      && StaysReady(states, p) && (forall e :: e in events ==> !IsHandoff(e)) && Picks(events) >= m
      ==> Dispatched(states, p, |events|)
  }

  /** All but the running process are ready. */
  ghost predicate OthersReady(t: Table) {
    forall q :: 0 <= q < |t.procs| && q != t.current ==> t.procs[q].state == Ready
  }

  lemma TickInTurn(t: Table)
    requires Sane(t) && OthersReady(t)
    ensures Sane(Tick(t)) && OthersReady(Tick(t)) && |Tick(t).procs| == |t.procs|
    ensures Tick(t).current == Nth(|t.procs|, t.current, 0)
  {
    var n, procs := |t.procs|, SetState(Account(t.procs, t.current), t.current, Ready);
    NthIsACycle(n, t.current, 0, 1);
    assert IsReady(procs, Nth(n, t.current, 0));
    PickIsPicked(procs, t.current);
  }

  function Steps(e: Event, k: nat): seq<Event> { seq(k, _ => e) }

  /** When all others are always ready, each tick goes to the next process in turn. */
  lemma {:induction false} InTurn(t: Table, k: nat) returns (states: seq<Table>)
    requires Sane(t) && OthersReady(t) && k < |t.procs|
    ensures Run(states, Steps(Ticks, k)) && states[0] == t
    ensures forall j :: 0 <= j <= k ==>
              && OthersReady(states[j]) && |states[j].procs| == |t.procs| && Sane(states[j])
              && states[j].current == if j == 0 then t.current else Nth(|t.procs|, t.current, j - 1)
  {
    hide Tick, OthersReady, Run;
    if k == 0 {
      states := [t];
      NoEvents(t);
    } else {
      var before := InTurn(t, k - 1);
      RunLength(before, Steps(Ticks, k - 1));
      TickInTurn(before[k - 1]);
      NextInTurn(|t.procs|, t.current, k);
      RunExtends(before, Steps(Ticks, k - 1), Ticks);
      states := before + [Tick(before[k - 1])];
      assert Steps(Ticks, k) == Steps(Ticks, k - 1) + [Ticks];
    }
  }

  lemma NoEvents(t: Table)
    ensures Run([t], []) && Picks([]) == 0 && TimerTicks([]) == 0 && Steps(Ticks, 0) == []
  {}

  lemma RunLength(states: seq<Table>, events: seq<Event>)
    requires Run(states, events)
    ensures |states| == |events| + 1
  {}

  lemma RunExtends(states: seq<Table>, events: seq<Event>, e: Event)
    requires Run(states, events) && Allowed(states[|events|], e)
    ensures Run(states + [After(states[|events|], e)], events + [e])
  {
    hide After, Allowed;
  }

  lemma NextInTurn(n: nat, c: nat, k: nat)
    requires c < n && 0 < k < n
    ensures k > 1 ==> Nth(n, c, k - 2) < n && Nth(n, Nth(n, c, k - 2), 0) == Nth(n, c, k - 1)
  {}

  lemma {:induction false} PicksOfTicks(k: nat)
    ensures Picks(Steps(Ticks, k)) == k
  {
    if k > 0 {
      PicksOfTicks(k - 1);
      assert Steps(Ticks, k)[..k - 1] == Steps(Ticks, k - 1);
    }
  }

  /** The bound is reached: from any `c`, a process waits its whole turn when all are ready. */
  lemma FairTight(procs: seq<Context>, c: nat, p: nat) returns (states: seq<Table>, events: seq<Event>)
    requires 2 <= |procs| && c < |procs| && 0 < p < |procs|
    requires forall q :: 0 <= q < |procs| ==> procs[q].state == Ready
    ensures Run(states, events) && states[0] == Table(procs, c, 0, 0) && StaysReady(states, p)
    ensures (forall e :: e in events ==> e == Ticks) && Picks(events) == Distance(|procs|, c, p)
    ensures !Dispatched(states, p, |events|)
  {
    var n := |procs|;
    var k := Distance(n, c, p);
    NthIsACycle(n, c, 0, p);
    states := InTurn(Table(procs, c, 0, 0), k);
    events := Steps(Ticks, k);
    PicksOfTicks(k);
    forall j | 0 < j <= k
      ensures states[j].current != p
    {
      NthIsACycle(n, c, j - 1, p);
    }
  }

  /** A process is sure to be dispatched within `m` picks if and only if fewer than `m`
      processes are looked at before it. */
  lemma SureIff(n: nat, c: nat, p: nat, m: nat)
    requires 2 <= n && c < n && 0 < p < n
    ensures Sure(n, c, p, m) <==> m > Distance(n, c, p)
  {
    if m > Distance(n, c, p) {
      forall states: seq<Table>, events: seq<Event> |
        Run(states, events) && Sane(states[0]) && |states[0].procs| == n && states[0].current == c
        && StaysReady(states, p) && (forall e :: e in events ==> !IsHandoff(e)) && Picks(events) >= m
        ensures Dispatched(states, p, |events|)
      {
        FairBy(states, events, p, |events|);
        assert events[..|events|] == events;
      }
    } else {
      var states, events := FairTight(seq(n, _ => Context(0, Ready, 0, 0, 0, 0, false)), c, p);
    }
  }

  /** A trap or a wait that hands the processor from `c` to `r` keeps every such promise to
      `p` if and only if it puts no more processes in front of it. */
  lemma HandoffKeepsIff(n: nat, c: nat, r: nat, p: nat)
    requires 2 <= n && c < n && r < n && 0 < p < n
    ensures (forall m: nat :: Sure(n, c, p, m) ==> Sure(n, r, p, m)) <==> Distance(n, r, p) <= Distance(n, c, p)
  {
    hide Distance;
    forall m: nat
      ensures Sure(n, c, p, m) <==> m > Distance(n, c, p)
      ensures Sure(n, r, p, m) <==> m > Distance(n, r, p)
    {
      SureIff(n, c, p, m);
      SureIff(n, r, p, m);
    }
    hide Sure;
    if forall m: nat :: Sure(n, c, p, m) ==> Sure(n, r, p, m) {
      assert Sure(n, c, p, Distance(n, c, p) + 1);
    }
  }

  // ---- without that, a ready process can wait forever ----

  /** Seven processes: debuggers 1 and 2, ready 3, waiting 4, and 5 and 6, where 1 and 2 fork
      their debuggees. */
  function World(a: Status, b: Status, x: Status, y: Status): seq<Context> {
    [Context(0, Waiting, 0, 0, 0, 0, false), Context(0, a, 0, 0, 0, 0, true), Context(0, b, 0, 0, 0, 0, true),
     Context(0, Ready, 0, 0, 0, 0, false), Context(0, Waiting, 0, 0, 0, 0, false),
     Context(1, x, 0, 0, 0, 0, false), Context(2, y, 0, 0, 0, 0, false)]
  }

  /** One cycle: fork, tick, fork, wait, tick, wait, exit, exit. */
  const CYCLE := [Forks(5), Ticks, Forks(6), Waits, Ticks, Waits, Exits, Exits]

  ghost function CycleStates(ticks: nat, switches: nat): (states: seq<Table>)
    ensures |states| == 9
  {
    [Table(World(Running, Ready, Unused, Unused), 1, ticks, switches),
     Table(World(Running, Ready, Waiting, Unused), 1, ticks, switches),
     Table(World(Ready, Running, Waiting, Unused), 2, ticks + 1, switches + 1),
     Table(World(Ready, Running, Waiting, Waiting), 2, ticks + 1, switches + 1),
     Table(World(Ready, Waiting, Waiting, Running), 6, ticks + 1, switches + 1),
     Table(World(Running, Waiting, Waiting, Ready), 1, ticks + 2, switches + 2),
     Table(World(Waiting, Waiting, Running, Ready), 5, ticks + 2, switches + 2),
     Table(World(Ready, Waiting, Unused, Running), 6, ticks + 2, switches + 2),
     Table(World(Running, Ready, Unused, Unused), 1, ticks + 2, switches + 2)]
  }

  lemma PicksWorld(procs: seq<Context>, c: nat, r: nat)
    requires c < |procs| && Picked(procs, c, r)
    ensures Pick(procs, c) == r
  {
    PickIsPicked(procs, c);
    PickedOnce(procs, c, r, Pick(procs, c));
  }

  lemma WorldAccount(a: Status, b: Status, x: Status, y: Status, c: nat)
    ensures Account(World(a, b, x, y), c) == World(a, b, x, y)
  {}

  lemma CycleTicks(ticks: nat, switches: nat)
    ensures var s := CycleStates(ticks, switches);
            Goes(s[1], Ticks, s[2]) && Goes(s[4], Ticks, s[5])
  {
    FirstTick(ticks, switches);
    SecondTick(ticks, switches);
    hide Goes;
  }

  lemma FirstTick(ticks: nat, switches: nat)
    ensures var s := CycleStates(ticks, switches);
            Goes(s[1], Ticks, s[2])
  {
    WorldAccount(Running, Ready, Waiting, Unused, 1);
    PicksWorld(World(Ready, Ready, Waiting, Unused), 1, 2);
    hide Pick, Account;
  }

  lemma SecondTick(ticks: nat, switches: nat)
    ensures var s := CycleStates(ticks, switches);
            Goes(s[4], Ticks, s[5])
  {
    WorldAccount(Ready, Waiting, Waiting, Running, 6);
    PicksWorld(World(Ready, Waiting, Waiting, Ready), 6, 1);
    hide Pick, Account;
  }

  lemma CycleExits(ticks: nat, switches: nat)
    ensures var s := CycleStates(ticks, switches);
            Goes(s[6], Exits, s[7]) && Goes(s[7], Exits, s[8])
  {
    PicksWorld(World(Ready, Waiting, Unused, Ready), 5, 6);
    PicksWorld(World(Ready, Ready, Unused, Unused), 6, 1);
    hide Pick;
  }

  lemma CycleForks(ticks: nat, switches: nat)
    ensures var s := CycleStates(ticks, switches);
            Goes(s[0], Forks(5), s[1]) && Goes(s[2], Forks(6), s[3])
  {}

  lemma CycleWaits(ticks: nat, switches: nat)
    ensures var s := CycleStates(ticks, switches);
            Goes(s[3], Waits, s[4]) && Goes(s[5], Waits, s[6])
  {
    WorldChildren(Ready, Running, Waiting, Waiting);
    WorldChildren(Running, Waiting, Waiting, Ready);
    hide FirstChild;
  }

  lemma WorldChildren(a: Status, b: Status, x: Status, y: Status)
    ensures FirstChild(World(a, b, x, y), 1) == 5 && FirstChild(World(a, b, x, y), 2) == 6
  {
    var w := World(a, b, x, y);
    assert w[5].ppid == 1 && w[6].ppid == 2;
    hide FirstChild;
    assert FirstChild(w, 1) < |w| ==> w[FirstChild(w, 1)].ppid == 1;
    assert FirstChild(w, 2) < |w| ==> w[FirstChild(w, 2)].ppid == 2;
  }

  lemma CycleRuns(ticks: nat, switches: nat)
    ensures Run(CycleStates(ticks, switches), CYCLE)
  {
    CycleForks(ticks, switches);
    CycleTicks(ticks, switches);
    CycleExits(ticks, switches);
    CycleWaits(ticks, switches);
    hide CycleStates, Goes;
    forall i | 0 <= i < 8
      ensures Goes(CycleStates(ticks, switches)[i], CYCLE[i], CycleStates(ticks, switches)[i + 1])
    {}
    RunGoes(CycleStates(ticks, switches), CYCLE);
  }

  ghost predicate Goes(t: Table, e: Event, u: Table) { Allowed(t, e) && After(t, e) == u }

  lemma RunGoes(states: seq<Table>, events: seq<Event>)
    requires |states| == |events| + 1 && forall i :: 0 <= i < |events| ==> Goes(states[i], events[i], states[i + 1])
    ensures Run(states, events)
  {
    forall i | 0 <= i < |events|
      ensures Allowed(states[i], events[i]) && states[i + 1] == After(states[i], events[i])
    {
      assert Goes(states[i], events[i], states[i + 1]);
    }
    hide Allowed, After;
  }

  lemma RunAppends(p: seq<Table>, d: seq<Event>, q: seq<Table>, e: seq<Event>)
    requires Run(p, d) && Run(q, e) && p[|d|] == q[0]
    ensures Run(p + q[1..], d + e)
  {
    hide Allowed, After;
  }

  lemma {:induction false} TallyAppends(d: seq<Event>, e: seq<Event>, sort: Event -> bool)
    ensures Tally(d + e, sort) == Tally(d, sort) + Tally(e, sort)
  {
    if e == [] {
      assert d + e == d;
    } else {
      assert (d + e)[..|d + e| - 1] == d + e[..|e| - 1];
      TallyAppends(d, e[..|e| - 1], sort);
    }
  }

  lemma CycleTally()
    ensures Picks(CYCLE) == 4 && TimerTicks(CYCLE) == 2
  {
    TallyOfCycle(IsPick);
    TallyOfCycle(IsTick);
  }

  lemma TallyOfCycle(sort: Event -> bool)
    requires sort(Ticks) && !sort(Waits) && !sort(Forks(5)) && !sort(Forks(6))
    ensures Tally(CYCLE, sort) == if sort(Exits) then 4 else 2
  {
    var c := CYCLE;
    assert c[..7][..6] == c[..6] && c[..6][..5] == c[..5] && c[..5][..4] == c[..4] && c[..4][..3] == c[..3];
    assert c[..3][..2] == c[..2] && c[..2][..1] == c[..1] && c[..1][..0] == [];
    assert Tally(c[..1], sort) == 0 && Tally(c[..2], sort) == 1 && Tally(c[..4], sort) == 1;
    assert Tally(c[..6], sort) == 2;
  }

  /** Starvation: for every `k` there is a run of `4 * k` picks, `2 * k` of them by the timer,
      in which process 3 is always ready and never dispatched.  The debuggees' waits put
      processes in front of it. */
  lemma {:induction false} Starves(k: nat, ticks: nat, switches: nat)
      returns (states: seq<Table>, events: seq<Event>)
    ensures Run(states, events) && Picks(events) == 4 * k && TimerTicks(events) == 2 * k
    ensures states[0] == CycleStates(ticks, switches)[0]
    ensures states[|events|] == CycleStates(ticks + 2 * k, switches + 2 * k)[0]
    ensures forall j :: 0 <= j < |states| ==> IsReady(states[j].procs, 3) && states[j].current != 3
  {
    hide CycleStates, Run, Tally, IsReady, IsPick, IsTick, CYCLE;
    if k == 0 {
      states, events := [CycleStates(ticks, switches)[0]], [];
      NoEvents(states[0]);
      PassesBy(ticks, switches);
    } else {
      var p, d := Starves(k - 1, ticks, switches);
      var q := CycleStates(ticks + 2 * (k - 1), switches + 2 * (k - 1));
      CycleRuns(ticks + 2 * (k - 1), switches + 2 * (k - 1));
      CycleTally();
      TallyAppends(d, CYCLE, IsPick);
      TallyAppends(d, CYCLE, IsTick);
      PassesBy(ticks + 2 * (k - 1), switches + 2 * (k - 1));
      RunAppends(p, d, q, CYCLE);
      RunLength(p, d);
      RunLength(q, CYCLE);
      states, events := p + q[1..], d + CYCLE;
    }
  }

  lemma PassesBy(ticks: nat, switches: nat)
    ensures var q := CycleStates(ticks, switches);
            && |q| == 9 && q[8] == CycleStates(ticks + 2, switches + 2)[0]
            && forall j :: 0 <= j < |q| ==> IsReady(q[j].procs, 3) && q[j].current != 3
  {}
}
