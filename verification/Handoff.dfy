/** The handoff between a debugger and its debuggee. */
module Handoff {
  import opened Scheduler

  /** The processes, the debugger `d`, and the context `c` of its debuggee, dead or alive. */
  datatype Pair = Pair(table: Table, d: nat, c: nat)

  /** What can happen: the debugger forks, or waits for the debuggee; the debuggee hits a
      breakpoint or exits; the timer ticks; the other processes change their own contexts;
      one of them exits or sleeps, so that the next one is picked; or one of them traps into
      its own debugger or waits for its own debuggee, which runs without a pick. */
  datatype Event = Forks(child: nat) | Waits | Traps(rip: nat) | Exits | Ticks
                 | OthersAct(procs: seq<Context>) | OtherYields | OtherHands(to: nat)

  predicate IsActive(procs: seq<Context>, p: nat) {
    p < |procs| && (procs[p].state == Ready || procs[p].state == Running)
  }

  /** Exactly one of the two can run. */
  predicate OneActive(s: Pair) { IsActive(s.table.procs, s.d) != IsActive(s.table.procs, s.c) }

  /** The contexts of the two, whoever runs. */
  ghost predicate Settled(procs: seq<Context>, d: nat, c: nat) {
    && |procs| >= 2 && 0 < d < |procs| && 0 < c < |procs| && d != c
    && IsActive(procs, d) != IsActive(procs, c)
    && procs[d].debugger && procs[d].ticksToSleep == 0
    && (procs[c].state == Unused || (procs[c].ppid == d && !procs[c].debugger && procs[c].ticksToSleep == 0))
  }

  ghost predicate Inv(s: Pair) {
    && Sane(s.table) && Settled(s.table.procs, s.d, s.c)
    && (s.table.current == s.d || s.table.current == s.c ==> IsActive(s.table.procs, s.table.current))
  }

  /** When an event can happen.  One debuggee at a time; the debugger waits only for a live
      one, which the search by parent must find first; the others leave the two alone. */
  ghost predicate Allowed(s: Pair, e: Event) {
    var t := s.table;
    Sane(t) && s.d < |t.procs| && s.c < |t.procs| &&
    match e
    case Forks(child) =>
      && t.current == s.d && t.procs[s.c].state == Unused
      && 0 < child < |t.procs| && child != s.d && t.procs[child].state == Unused
    case Waits => t.current == s.d && t.procs[s.c].state == Waiting && FirstChild(t.procs, s.d) == s.c
    case Traps(_) => t.current == s.c && t.procs[s.c].ppid < |t.procs|
    case Exits => t.current == s.c && t.procs[s.c].ppid < |t.procs|
    case Ticks => true
    case OthersAct(procs) => |procs| == |t.procs| && procs[s.d] == t.procs[s.d] && procs[s.c] == t.procs[s.c]
    case OtherYields => t.current != s.d && t.current != s.c
    case OtherHands(to) => t.current != s.d && t.current != s.c && to < |t.procs| && to != s.d && to != s.c
  }

  ghost function Step(s: Pair, e: Event): Pair
    requires Allowed(s, e)
  {
    var t := s.table;
    match e
    case Forks(child) => s.(table := Fork(t, child), c := child)
    case Waits => s.(table := WaitAndContinue(t))
    case Traps(rip) => s.(table := Trap(t, rip))
    case Exits => s.(table := Exit(t))
    case Ticks => s.(table := Tick(t))
    case OthersAct(procs) => s.(table := t.(procs := procs))
    case OtherYields => s.(table := Dispatch(t, Pick(t.procs, t.current)))
    case OtherHands(to) => s.(table := Dispatch(t, to))
  }

  /** A process that is picked is ready, so it is never the one of the two that waits. */
  lemma PickKeeps(s: Pair, procs: seq<Context>, c: nat)
    requires Settled(procs, s.d, s.c) && c < |procs|
    ensures var u := Dispatch(s.table.(procs := procs), Pick(procs, c));
            Inv(s.(table := u)) && u.procs[s.d].rax == procs[s.d].rax
  {
    PickIsPicked(procs, c);
    DispatchKeeps(s, procs, Pick(procs, c));
  }

  lemma DispatchKeeps(s: Pair, procs: seq<Context>, r: nat)
    requires Settled(procs, s.d, s.c) && r < |procs| && (r == 0 || r !in {s.d, s.c} || IsReady(procs, r))
    ensures var u := Dispatch(s.table.(procs := procs), r);
            Inv(s.(table := u)) && u.current == r && u.procs[s.d].rax == procs[s.d].rax
  {}

  /** Neither of the two sleeps, so counting changes nothing but alarms, and of the one that ran
      the state. */
  lemma CountedIs(procs: seq<Context>, c: nat, p: nat)
    requires p < |procs| && c < |procs| && procs[p].ticksToSleep == 0 && (p == c ==> IsActive(procs, p))
    ensures var now := SetState(Account(procs, c), c, Ready);
            && |now| == |procs| && IsActive(now, p) == IsActive(procs, p)
            && (now[p].state == Unused <==> procs[p].state == Unused)
            && now[p].ppid == procs[p].ppid && now[p].debugger == procs[p].debugger && now[p].ticksToSleep == 0
  {}

  lemma CountedUnused(procs: seq<Context>, c: nat, p: nat)
    requires p < |procs| && c < |procs| && procs[p].state == Unused && p != c
    ensures SetState(Account(procs, c), c, Ready)[p].state == Unused
  {}

  lemma CountedSettled(s: Pair)
    requires Inv(s)
    ensures var t := s.table;
            Settled(SetState(Account(t.procs, t.current), t.current, Ready), s.d, s.c)
  {
    var procs, c := s.table.procs, s.table.current;
    CountedIs(procs, c, s.d);
    if procs[s.c].state == Unused {
      CountedUnused(procs, c, s.c);
    } else {
      CountedIs(procs, c, s.c);
    }
    hide Account, SetState;
  }

  lemma TickKeeps(s: Pair)
    requires Inv(s)
    ensures Inv(s.(table := Tick(s.table)))
  {
    var t := s.table;
    var procs := SetState(Account(t.procs, t.current), t.current, Ready);
    CountedSettled(s);
    PickKeeps(s, procs, t.current);
    assert IsActive(procs, t.current);
    hide Pick, Account, SetState, Settled, IsActive;
  }

  lemma ForkKeeps(s: Pair, child: nat)
    requires Inv(s) && Allowed(s, Forks(child))
    ensures Inv(Step(s, Forks(child)))
    ensures var p := Step(s, Forks(child)).table.procs[child];
            p.state == Waiting && p.ppid == s.d
  {}

  /** The one that runs hands the processor to the other one. */
  lemma HandKeeps(s: Pair, procs: seq<Context>, from: nat, to: nat)
    requires Inv(s) && s.table.current == from && {from, to} == {s.d, s.c} && s.table.procs[s.c].state != Unused
    requires |procs| == |s.table.procs|
    requires forall p :: p in {s.d, s.c} ==> exists x :: procs[p] == s.table.procs[p].(rax := x)
    ensures var u := Dispatch(s.table.(procs := SetState(SetState(procs, from, Waiting), to, Ready)), to);
            Inv(s.(table := u)) && u.current == to && u.procs[s.d].rax == procs[s.d].rax
  {}

  lemma WaitKeeps(s: Pair)
    requires Inv(s) && Allowed(s, Waits)
    ensures Inv(Step(s, Waits)) && Step(s, Waits).table.current == s.c
  {
    hide Inv, SetState, IsActive;
    assert s.table.procs[s.c] == s.table.procs[s.c].(rax := s.table.procs[s.c].rax);
    assert s.table.procs[s.d] == s.table.procs[s.d].(rax := s.table.procs[s.d].rax);
    HandKeeps(s, s.table.procs, s.d, s.c);
    hide Dispatch, FirstChild;
  }

  lemma TrapKeeps(s: Pair, rip: nat)
    requires Inv(s) && Allowed(s, Traps(rip))
    ensures var u := Step(s, Traps(rip));
            Inv(u) && u.table.current == s.d && u.table.procs[s.d].rax == (rip - 1) % WORD_LIMIT
  {
    var t := s.table;
    var procs := t.procs[s.d := t.procs[s.d].(rax := (rip - 1) % WORD_LIMIT)];
    assert IsActive(t.procs, s.c) && t.procs[s.c].ppid == s.d;
    assert procs[s.c] == t.procs[s.c].(rax := t.procs[s.c].rax);
    HandKeeps(s, procs, s.c, s.d);
    hide Inv, SetState, IsActive, Dispatch;
  }

  lemma ExitKeeps(s: Pair)
    requires Inv(s) && Allowed(s, Exits)
    ensures Inv(Step(s, Exits)) && Step(s, Exits).table.procs[s.d].rax == CHILD_EXIT
  {
    var t := s.table;
    var procs := t.procs[s.d := t.procs[s.d].(rax := CHILD_EXIT, state := Ready)];
    ExitedSettled(s);
    PickKeeps(s, SetState(procs, s.c, Unused), s.c);
    assert IsActive(t.procs, s.c) && t.procs[s.c].ppid == s.d && !t.procs[s.c].debugger;
    assert SetState(procs, s.c, Unused)[s.d].rax == CHILD_EXIT;
    hide Inv, Settled, SetState, IsActive, Dispatch, Pick;
  }

  lemma ExitedSettled(s: Pair)
    requires Inv(s) && s.table.current == s.c
    ensures var procs := s.table.procs[s.d := s.table.procs[s.d].(rax := CHILD_EXIT, state := Ready)];
            Settled(SetState(procs, s.c, Unused), s.d, s.c)
  {}

  lemma OthersKeep(s: Pair, procs: seq<Context>)
    requires Inv(s) && Allowed(s, OthersAct(procs))
    ensures Inv(Step(s, OthersAct(procs)))
  {}

  /** The events besides the two's own do what they say. */
  lemma OthersMean(s: Pair, e: Event)
    requires Allowed(s, e)
    ensures e.Ticks? ==> Step(s, e).table.ticks == s.table.ticks + 1
    ensures e.OthersAct? ==> Step(s, e).table.procs == e.procs
    ensures e.OtherYields? ==> Picked(s.table.procs, s.table.current, Step(s, e).table.current)
    ensures e.OtherHands? ==> Step(s, e).table.current == e.to
  {
    match e {
      case Ticks =>
        TickMeans(s.table);
        hide *;
        TickIs(s);
      case OtherYields =>
        PickIsPicked(s.table.procs, s.table.current);
        hide Picked, Pick;
      case _ =>
    }
  }

  lemma TickIs(s: Pair)
    requires Allowed(s, Ticks)
    ensures Step(s, Ticks).table == Tick(s.table)
  {}

  /** A trap hands the processor to the debugger with the patched address in its result
      register, an exit leaves there that the child has exited, and a wait hands it back. */
  lemma StepKeeps(s: Pair, e: Event)
    requires Inv(s) && Allowed(s, e)
    ensures Inv(Step(s, e)) && Step(s, e).d == s.d && Step(s, e).c == if e.Forks? then e.child else s.c
    ensures e.Forks? ==> Step(s, e).table.procs[e.child].state == Waiting && Step(s, e).table.procs[e.child].ppid == s.d
    ensures e.Traps? ==> Step(s, e).table.current == s.d &&
                         Step(s, e).table.procs[s.d].rax == (e.rip - 1) % WORD_LIMIT
    ensures e.Exits? ==> Step(s, e).table.procs[s.d].rax == CHILD_EXIT
    ensures e.Waits? ==> Step(s, e).table.current == s.c
  {
    hide Settled, IsActive, Tick, Fork, WaitAndContinue, Trap, Exit, Dispatch, Pick;
    match e {
      case Forks(child) => ForkKeeps(s, child);
      case Waits => WaitKeeps(s);
      case Traps(rip) => TrapKeeps(s, rip);
      case Exits => ExitKeeps(s);
      case Ticks => TickKeeps(s);
      case OthersAct(procs) => OthersKeep(s, procs);
      case OtherYields => PickKeeps(s, s.table.procs, s.table.current);
      case OtherHands(to) => DispatchKeeps(s, s.table.procs, to);
    }
  }

  /** A debugger right after it has become one: it runs, and has no child yet. */
  ghost predicate Initial(s: Pair) {
    var procs := s.table.procs;
    && Sane(s.table) && 0 < s.d < |procs| && 0 < s.c < |procs| && s.d != s.c
    && s.table.current == s.d && procs[s.d].state == Running && procs[s.d].debugger
    && procs[s.d].ticksToSleep == 0 && procs[s.c].state == Unused
  }

  /** These events, each allowed when it happens, lead from `s` to `t`. */
  ghost predicate Follows(s: Pair, events: seq<Event>, t: Pair)
    decreases |events|
  {
    if events == [] then s == t
    else Allowed(s, events[0]) && Follows(Step(s, events[0]), events[1..], t)
  }

  lemma {:induction false} FollowsKeeps(s: Pair, events: seq<Event>, t: Pair)
    requires Inv(s) && Follows(s, events, t)
    ensures Inv(t)
    decreases |events|
  {
    if events != [] {
      StepKeeps(s, events[0]);
      FollowsKeeps(Step(s, events[0]), events[1..], t);
    }
  }

  /** Over every run exactly one of debugger and debuggee is ready or running. */
  lemma OneAlwaysActive(s: Pair, events: seq<Event>, t: Pair)
    requires Initial(s) && Follows(s, events, t)
    ensures OneActive(t) && Inv(t)
  {
    FollowsKeeps(s, events, t);
  }

  /** The wait goes to the first context that names the debugger as its parent.  A wait keeps
      exactly one of the two active if and only if that is the debuggee's context (or, for a
      process that is its own parent, the debugger's): an older child's context, which keeps
      its parent after it has exited, would be run in its place. */
  lemma WaitExactIff(s: Pair)
    requires Inv(s) && s.table.current == s.d && FirstChild(s.table.procs, s.d) < |s.table.procs|
    ensures var x := FirstChild(s.table.procs, s.d);
            OneActive(s.(table := WaitAndContinue(s.table))) <==> x == s.c || x == s.d
  {}
}
