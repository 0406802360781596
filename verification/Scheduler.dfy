/** The round-robin scheduler. */
module Scheduler {
  import opened Words

  datatype Status = Unused | New | Ready | Running | Waiting | Exiting

  /** The parts of a process context that scheduling and debugging look at. */
  datatype Context = Context(ppid: nat, state: Status, ticksToSleep: nat, ticksToAlarm: nat,
                             alarmConfigTime: nat, rax: int, debugger: bool)

  /** The contexts by pid, and which one is running.  Process 0 is the swapper. */
  datatype Table = Table(procs: seq<Context>, current: nat, ticks: nat, switches: nat)

  ghost predicate Sane(t: Table) { |t.procs| >= 2 && t.current < |t.procs| }

  predicate IsReady(procs: seq<Context>, pid: nat) { pid < |procs| && procs[pid].state == Ready }

  // ---- picking the next process ----

  /** The `k`-th process that is looked at after `c`: the ones above it, then from 1 up to it.
      The swapper is never looked at. */
  function Nth(n: nat, c: nat, k: nat): nat
    requires k + 1 < n && c < n
  {
    if c + 1 + k < n then c + 1 + k else c + 2 + k - n
  }

  /** How many processes are looked at before `p` is. */
  function Distance(n: nat, c: nat, p: nat): nat
    requires c < n && 0 < p < n
  {
    if p > c then p - c - 1 else p + n - c - 2
  }

  /** Every process but the swapper is looked at exactly once. */
  lemma NthIsACycle(n: nat, c: nat, k: nat, p: nat)
    requires c < n && k + 1 < n && 0 < p < n
    ensures 0 < Nth(n, c, k) < n && Distance(n, c, Nth(n, c, k)) == k
    ensures Distance(n, c, p) + 1 < n && Nth(n, c, Distance(n, c, p)) == p
  {}

  /** `r` is the first ready process in that order, or the swapper when there is none. */
  ghost predicate Picked(procs: seq<Context>, c: nat, r: nat)
    requires c < |procs|
  {
    && r < |procs|
    && (forall p :: 0 < p < |procs| && IsReady(procs, p) ==>
          r > 0 && Distance(|procs|, c, r) <= Distance(|procs|, c, p))
    && (r > 0 ==> IsReady(procs, r))
  }

  /** There is only one such process. */
  lemma PickedOnce(procs: seq<Context>, c: nat, r: nat, q: nat)
    requires c < |procs| && Picked(procs, c, r) && Picked(procs, c, q)
    ensures r == q
  {}

  function PickFrom(procs: seq<Context>, c: nat, k: nat): nat
    requires c < |procs| && k < |procs|
    decreases |procs| - k
  {
    if k + 1 == |procs| then 0
    else if IsReady(procs, Nth(|procs|, c, k)) then Nth(|procs|, c, k)
    else PickFrom(procs, c, k + 1)
  }

  function Pick(procs: seq<Context>, c: nat): nat
    requires c < |procs|
  {
    PickFrom(procs, c, 0)
  }

  lemma {:induction false} PickFromIsPicked(procs: seq<Context>, c: nat, k: nat)
    requires c < |procs| && k < |procs|
    requires forall p :: 0 < p < |procs| && IsReady(procs, p) ==> Distance(|procs|, c, p) >= k
    ensures Picked(procs, c, PickFrom(procs, c, k))
    decreases |procs| - k
  {
    var n := |procs|;
    forall p | 0 < p < n
      ensures Distance(n, c, p) + 1 < n && Nth(n, c, Distance(n, c, p)) == p
    {
      NthIsACycle(n, c, 0, p);
    }
    if k + 1 < n {
      NthIsACycle(n, c, k, 1);
      if !IsReady(procs, Nth(n, c, k)) {
        PickFromIsPicked(procs, c, k + 1);
      }
    }
  }

  lemma PickIsPicked(procs: seq<Context>, c: nat)
    requires c < |procs|
    ensures Picked(procs, c, Pick(procs, c))
  {
    PickFromIsPicked(procs, c, 0);
  }

  // ---- the timer ----

  function Sleep(p: Context): Context {
    if p.state == Waiting && p.ticksToSleep > 0 then
      p.(ticksToSleep := p.ticksToSleep - 1, state := if p.ticksToSleep == 1 then Ready else Waiting)
    else p
  }

  /** `p` after `n` ticks in which nothing else happens to it. */
  function Slept(p: Context, n: nat): Context {
    if n == 0 then p else Sleep(Slept(p, n - 1))
  }

  /** A sleeper wakes up at its last tick and not before. */
  lemma {:induction false} SleepLasts(p: Context, n: nat)
    requires p.state == Waiting && p.ticksToSleep > 0
    ensures Slept(p, n) == if n < p.ticksToSleep then p.(ticksToSleep := p.ticksToSleep - n)
                           else p.(ticksToSleep := 0, state := Ready)
  {
    if n > 0 {
      SleepLasts(p, n - 1);
    }
  }

  function Alarm(p: Context): Context {
    if p.ticksToAlarm > 1 then p.(ticksToAlarm := p.ticksToAlarm - 1)
    else if p.ticksToAlarm == 1 then p.(ticksToAlarm := p.alarmConfigTime)
    else p
  }

  /** Every sleeper's count goes down, and the running process' alarm. */
  function Account(procs: seq<Context>, c: nat): seq<Context> {
    seq(|procs|, i requires 0 <= i < |procs| => if i == c then Alarm(Sleep(procs[i])) else Sleep(procs[i]))
  }

  function SetState(procs: seq<Context>, pid: nat, state: Status): seq<Context> {
    if pid < |procs| then procs[pid := procs[pid].(state := state)] else procs
  }

  /** `schedule`: `r` runs. */
  function Dispatch(t: Table, r: nat): Table {
    t.(procs := SetState(t.procs, r, Running), current := r)
  }

  /** A process that is picked again keeps running in state READY. */
  function Tick(t: Table): Table
    requires Sane(t)
  {
    var procs := SetState(Account(t.procs, t.current), t.current, Ready);
    var r := Pick(procs, t.current);
    var u := Table(procs, t.current, t.ticks + 1, t.switches);
    if r == t.current then u else Dispatch(u, r).(switches := t.switches + 1)
  }

  /** `p` after `n` ticks in which it runs, as far as its alarm goes. */
  function Alarmed(p: Context, n: nat): Context {
    if n == 0 then p else Alarm(Alarmed(p, n - 1))
  }

  /** The count `n` ticks on: down to zero, and then from `config` on, again and again. */
  function Countdown(left: nat, config: nat, n: nat): nat {
    if n < left then left - n
    else if config == 0 then 0
    else config - (n - left) % config
  }

  lemma CountdownNext(left: nat, config: nat, n: nat)
    requires left > 0
    ensures Countdown(left, config, 0) == left
    ensures var now := Countdown(left, config, n);
            Countdown(left, config, n + 1) == if now > 1 then now - 1 else if now == 1 then config else now
  {
    if n >= left && config > 0 {
      NextRemainder(n - left, config);
    }
  }

  /** An alarm goes off when its count runs out, and from then on every `alarmConfigTime` ticks. */
  lemma {:induction false} AlarmLasts(p: Context, n: nat)
    requires p.ticksToAlarm > 0
    ensures Alarmed(p, n) == p.(ticksToAlarm := Countdown(p.ticksToAlarm, p.alarmConfigTime, n))
  {
    hide Countdown;
    if n == 0 {
      CountdownNext(p.ticksToAlarm, p.alarmConfigTime, 0);
    } else {
      AlarmLasts(p, n - 1);
      CountdownNext(p.ticksToAlarm, p.alarmConfigTime, n - 1);
    }
  }

  lemma NextRemainder(k: nat, m: nat)
    requires m > 0
    ensures (k + 1) % m == if k % m + 1 == m then 0 else k % m + 1
  {
    var q := k / m;
    if k % m + 1 == m {
      assert k + 1 == (q + 1) * m;
      DivMod(k + 1, m, q + 1, 0);
    } else {
      DivMod(k + 1, m, q, k % m + 1);
    }
  }

  /** A sleeper whose last tick this is. */
  predicate Wakes(p: Context) { p.state == Waiting && p.ticksToSleep == 1 }

  /** What a tick does to each context: the sleepers' counts, the running process' alarm, who can
      run afterwards, and who does. */
  lemma TickMeans(t: Table)
    requires Sane(t)
    ensures var u, n, c := Tick(t), |t.procs|, t.current;
            && |u.procs| == n && u.current < n && u.ticks == t.ticks + 1
            && u.switches == t.switches + (if u.current == c then 0 else 1)
            && (forall p :: 0 <= p < n ==>
                  var (was, now) := (t.procs[p], u.procs[p]);
                  && now.state == (if p == u.current && p != c then Running
                                   else if p == c || Wakes(was) then Ready else was.state)
                  && now.ticksToSleep == (if was.state == Waiting && was.ticksToSleep > 0 then was.ticksToSleep - 1
                                          else was.ticksToSleep)
                  && now.ticksToAlarm == (if p != c || was.ticksToAlarm == 0 then was.ticksToAlarm
                                          else if was.ticksToAlarm > 1 then was.ticksToAlarm - 1
                                          else was.alarmConfigTime)
                  && now.ppid == was.ppid && now.alarmConfigTime == was.alarmConfigTime
                  && now.rax == was.rax && now.debugger == was.debugger)
            && (forall p :: 0 < p < n && (p == c || IsReady(t.procs, p) || Wakes(t.procs[p])) ==>
                  u.current > 0 && Distance(n, c, u.current) <= Distance(n, c, p))
            && (u.current > 0 ==>
                  u.current == c || IsReady(t.procs, u.current) || Wakes(t.procs[u.current]))
  {
    var procs := SetState(Account(t.procs, t.current), t.current, Ready);
    PickIsPicked(procs, t.current);
    hide Distance, Pick, Account, Wakes;
    assert |procs| == |t.procs| by {
      CountedLength(t.procs, t.current);
    }
    forall p | 0 <= p < |t.procs|
      ensures Counted(t.procs[p], procs[p], p == t.current)
      ensures IsReady(procs, p) <==> p == t.current || IsReady(t.procs, p) || Wakes(t.procs[p])
    {
      CountedContext(t.procs, t.current, p);
    }
  }

  lemma CountedLength(procs: seq<Context>, c: nat)
    ensures |SetState(Account(procs, c), c, Ready)| == |procs|
  {}

  /** What a tick has made of a context before the next process is picked. */
  ghost predicate Counted(was: Context, now: Context, runs: bool) {
    && now.state == (if runs || Wakes(was) then Ready else was.state)
    && now.ticksToSleep == (if was.state == Waiting && was.ticksToSleep > 0 then was.ticksToSleep - 1
                            else was.ticksToSleep)
    && now.ticksToAlarm == (if !runs || was.ticksToAlarm == 0 then was.ticksToAlarm
                            else if was.ticksToAlarm > 1 then was.ticksToAlarm - 1
                            else was.alarmConfigTime)
    && now.ppid == was.ppid && now.alarmConfigTime == was.alarmConfigTime
    && now.rax == was.rax && now.debugger == was.debugger
  }

  lemma CountedContext(procs: seq<Context>, c: nat, p: nat)
    requires c < |procs| && p < |procs|
    ensures var out := SetState(Account(procs, c), c, Ready);
            && |out| == |procs| && Counted(procs[p], out[p], p == c)
            && (IsReady(out, p) <==> p == c || IsReady(procs, p) || Wakes(procs[p]))
  {}

  // ---- fork, trap, wait and exit ----

  const WORD_LIMIT := 0x1_0000_0000_0000_0000
  /** What the debugger's wait returns when the debuggee has exited. */
  const CHILD_EXIT := 0

  /** The child is a copy that waits and debugs nothing. */
  function Fork(t: Table, child: nat): Table
    requires Sane(t) && child < |t.procs|
  {
    t.(procs := t.procs[child := t.procs[t.current].(ppid := t.current, state := Waiting, debugger := false)])
  }

  /** The debuggee waits, the debugger is told where it stopped and runs. */
  function Trap(t: Table, rip: nat): Table
    requires Sane(t) && t.procs[t.current].ppid < |t.procs|
  {
    var parent := t.procs[t.current].ppid;
    var procs := t.procs[parent := t.procs[parent].(rax := (rip - 1) % WORD_LIMIT)];
    Dispatch(t.(procs := SetState(SetState(procs, t.current, Waiting), parent, Ready)), parent)
  }

  /** The first context, dead or alive, whose parent is `pid`. */
  function FirstChild(procs: seq<Context>, pid: nat): (i: nat)
    ensures i <= |procs| && (i < |procs| ==> procs[i].ppid == pid)
    ensures forall k :: 0 <= k < i ==> procs[k].ppid != pid
  {
    if procs == [] || procs[0].ppid == pid then 0 else 1 + FirstChild(procs[1..], pid)
  }

  function WaitAndContinue(t: Table): Table
    requires Sane(t) && FirstChild(t.procs, t.current) < |t.procs|
  {
    var child := FirstChild(t.procs, t.current);
    Dispatch(t.(procs := SetState(SetState(t.procs, t.current, Waiting), child, Ready)), child)
  }

  /** A process that debugs nothing makes its parent ready and tells it of its exit. */
  function Exit(t: Table): Table
    requires Sane(t) && t.procs[t.current].ppid < |t.procs|
  {
    var p := t.procs[t.current];
    var procs :=
      if p.debugger then t.procs
      else t.procs[p.ppid := t.procs[p.ppid].(rax := CHILD_EXIT, state := Ready)];
    var left := SetState(procs, t.current, Unused);
    Dispatch(t.(procs := left), Pick(left, t.current))
  }

  /** Nothing but the contexts of `ps` differs. */
  ghost predicate Only(t: Table, u: Table, ps: set<nat>) {
    && |u.procs| == |t.procs| && u.ticks == t.ticks && u.switches == t.switches
    && forall p :: 0 <= p < |t.procs| && p !in ps ==> u.procs[p] == t.procs[p]
  }

  /** A context in which nothing but the state and the result register may differ. */
  predicate SameBut(p: Context, q: Context) { q == p.(state := q.state, rax := q.rax) }

  /** A fork leaves everything to the child, alarm and registers too, and the caller runs on. */
  lemma ForkMeans(t: Table, child: nat)
    requires Sane(t) && child < |t.procs| && child != t.current
    ensures var (u, was) := (Fork(t, child), t.procs[t.current]);
            && Only(t, u, {child}) && u.current == t.current
            && u.procs[child].ppid == t.current && u.procs[child].state == Waiting && !u.procs[child].debugger
            && u.procs[child].ticksToAlarm == was.ticksToAlarm
            && u.procs[child].alarmConfigTime == was.alarmConfigTime
            && u.procs[child].rax == was.rax && u.procs[child].ticksToSleep == was.ticksToSleep
  {}

  /** A trap: the debuggee waits, and its parent runs with the address of the trap. */
  lemma TrapMeans(t: Table, rip: nat)
    requires Sane(t) && t.procs[t.current].ppid < |t.procs| && t.procs[t.current].ppid != t.current
    ensures var (u, c, d) := (Trap(t, rip), t.current, t.procs[t.current].ppid);
            && Only(t, u, {c, d}) && u.current == d
            && SameBut(t.procs[c], u.procs[c]) && SameBut(t.procs[d], u.procs[d])
            && u.procs[c].state == Waiting && u.procs[c].rax == t.procs[c].rax
            && u.procs[d].state == Running && u.procs[d].rax == (rip - 1) % WORD_LIMIT
  {}

  /** A wait: the caller waits, and the first context that names it as its parent runs. */
  lemma WaitMeans(t: Table, d: nat)
    requires Sane(t) && d < |t.procs| && d != t.current
    requires t.procs[d].ppid == t.current && forall k :: 0 <= k < d ==> t.procs[k].ppid != t.current
    ensures FirstChild(t.procs, t.current) == d
    ensures var (u, c) := (WaitAndContinue(t), t.current);
            && Only(t, u, {c, d}) && u.current == d
            && u.procs[c] == t.procs[c].(state := Waiting) && u.procs[d] == t.procs[d].(state := Running)
  {
    assert FirstChild(t.procs, t.current) == d;
  }

  /** The contexts that an exit leaves, before the next process is picked. */
  ghost function LeftBy(t: Table): (left: seq<Context>)
    requires Sane(t) && t.procs[t.current].ppid < |t.procs|
    ensures |left| == |t.procs|
  {
    var p := t.procs[t.current];
    SetState(if p.debugger then t.procs
             else t.procs[p.ppid := t.procs[p.ppid].(rax := CHILD_EXIT, state := Ready)], t.current, Unused)
  }

  lemma LeftIs(t: Table, p: nat)
    requires Sane(t) && t.procs[t.current].ppid < |t.procs| && t.procs[t.current].ppid != t.current && p < |t.procs|
    ensures var (c, was, now) := (t.current, t.procs[p], LeftBy(t)[p]);
            var told := !t.procs[c].debugger && p == t.procs[c].ppid;
            && now == was.(state := if p == c then Unused else if told then Ready else was.state,
                           rax := if told then CHILD_EXIT else was.rax)
            && (IsReady(LeftBy(t), p) <==> p != c && (told || IsReady(t.procs, p)))
  {}

  lemma ExitIs(t: Table)
    requires Sane(t) && t.procs[t.current].ppid < |t.procs|
    ensures Exit(t) == Dispatch(t.(procs := LeftBy(t)), Pick(LeftBy(t), t.current))
    ensures Picked(LeftBy(t), t.current, Exit(t).current)
  {
    PickIsPicked(LeftBy(t), t.current);
  }

  /** An exit: the context is unused, the parent of a process that debugs nothing is ready and knows
      of the exit, and then the process that was picked runs. */
  lemma ExitMeans(t: Table)
    requires Sane(t) && t.procs[t.current].ppid < |t.procs| && t.procs[t.current].ppid != t.current
    ensures var (u, c, d) := (Exit(t), t.current, t.procs[t.current].ppid);
            var told := !t.procs[c].debugger;
            && |u.procs| == |t.procs| && u.current < |t.procs| && u.ticks == t.ticks && u.switches == t.switches
            && forall p :: 0 <= p < |t.procs| ==>
                 var (was, now) := (t.procs[p], u.procs[p]);
                 now == was.(state := if p == u.current then Running else if p == c then Unused
                                      else if p == d && told then Ready else was.state,
                             rax := if p == d && told then CHILD_EXIT else was.rax)
  {
    ExitIs(t);
    hide LeftBy, Exit, Pick, Picked, IsReady;
    forall p | 0 <= p < |t.procs|
      ensures var (c, was, now) := (t.current, t.procs[p], LeftBy(t)[p]);
              var told := !t.procs[c].debugger && p == t.procs[c].ppid;
              now == was.(state := if p == c then Unused else if told then Ready else was.state,
                          rax := if told then CHILD_EXIT else was.rax)
    {
      LeftIs(t, p);
    }
  }

  /** That is the first process in the cycle that is ready by then. */
  lemma ExitPicks(t: Table, p: nat)
    requires Sane(t) && t.procs[t.current].ppid < |t.procs| && t.procs[t.current].ppid != t.current && p < |t.procs|
    ensures Exit(t).current < |t.procs|
    ensures var (r, n, c) := (Exit(t).current, |t.procs|, t.current);
            var ready := p != c && ((!t.procs[c].debugger && p == t.procs[c].ppid) || IsReady(t.procs, p));
            && (p > 0 && ready ==> r > 0 && Distance(n, c, r) <= Distance(n, c, p))
            && (r > 0 && p == r ==> ready)
  {
    ExitIs(t);
    LeftIs(t, p);
    hide LeftBy, Exit, Pick, Distance, IsReady;
  }

  /** A process that is looked at later gets nearer with every pick that does not pick it. */
  lemma PickGetsNearer(procs: seq<Context>, c: nat, p: nat)
    requires c < |procs| && 0 < p < |procs| && IsReady(procs, p)
    ensures var r := Pick(procs, c);
            0 < r < |procs| && (r == p || Distance(|procs|, r, p) < Distance(|procs|, c, p))
  {
    PickIsPicked(procs, c);
  }

  // ---- the process table, changed in place ----

  class Kernel {
    const ctxList: array<Context>
    var current: nat
    var ticks: nat
    var switches: nat

    ghost predicate Valid()
      reads this, ctxList
    {
      Sane(View())
    }

    ghost function View(): Table
      reads this, ctxList
    {
      Table(ctxList[..], current, ticks, switches)
    }

    constructor (contexts: array<Context>, running: nat)
      requires contexts.Length >= 2 && running < contexts.Length
      ensures Valid() && ctxList == contexts && View() == Table(contexts[..], running, 0, 0)
    {
      ctxList, current, ticks, switches := contexts, running, 0, 0;
    }

    /** `pick_next_context`: from the next pid upwards, from the last one back to 1, and round
        to the caller. */
    method PickNextContext(c: nat) returns (r: nat)
      requires ctxList.Length >= 2 && c < ctxList.Length
      ensures Picked(ctxList[..], c, r) && r == Pick(ctxList[..], c)
    {
      var n := ctxList.Length;
      PickIsPicked(ctxList[..], c);
      var pid := if c + 1 == n then 1 else c + 1;
      ghost var k := 0;
      while pid != 0
        invariant 0 <= k < n && pid == if k + 1 == n then 0 else Nth(n, c, k)
        invariant Pick(ctxList[..], c) == PickFrom(ctxList[..], c, k)
        decreases n - k
      {
        if ctxList[pid].state == Ready {
          return pid;
        }
        pid := pid + 1;
        k := k + 1;
        if pid == c + 1 {
          pid := 0;
        }
        if pid == n {
          pid := 1;
          if c == 0 {
            break;
          }
        }
      }
      r := 0;
    }

    /** `do_sleep_and_alarm_account`, but for raising the signal */
    method SleepAndAlarmAccount()
      requires Valid()
      modifies ctxList
      ensures Valid() && View() == old(View().(procs := Account(View().procs, current)))
    {
      ghost var was := ctxList[..];
      var ctr := 0;
      while ctr < ctxList.Length
        invariant ctr <= ctxList.Length
        invariant forall k :: 0 <= k < ctr ==> ctxList[k] == Sleep(was[k])
        invariant forall k :: ctr <= k < ctxList.Length ==> ctxList[k] == was[k]
      {
        var p := ctxList[ctr];
        if p.state == Waiting && p.ticksToSleep > 0 {
          ctxList[ctr] := ctxList[ctr].(ticksToSleep := ctxList[ctr].ticksToSleep - 1);
          if ctxList[ctr].ticksToSleep == 0 {
            ctxList[ctr] := ctxList[ctr].(state := Ready);
          }
        }
        ctr := ctr + 1;
      }
      if ctxList[current].ticksToAlarm > 0 {
        ctxList[current] := ctxList[current].(ticksToAlarm := ctxList[current].ticksToAlarm - 1);
        if ctxList[current].ticksToAlarm == 0 {
          ctxList[current] := ctxList[current].(ticksToAlarm := ctxList[current].alarmConfigTime);
        }
      }
      assert ctxList[..] == Account(was, current);
    }

    /** `schedule` */
    method Schedule(r: nat)
      requires Valid() && r < ctxList.Length
      modifies this`current, ctxList
      ensures Valid() && View() == Dispatch(old(View()), r)
    {
      current := r;
      ctxList[r] := ctxList[r].(state := Running);
    }

    /** `handle_timer_tick` */
    method HandleTimerTick()
      requires Valid()
      modifies this, ctxList
      ensures Valid() && View() == Tick(old(View()))
    {
      SleepAndAlarmAccount();
      ticks := ticks + 1;
      ctxList[current] := ctxList[current].(state := Ready);
      assert ctxList[..] == SetState(Account(old(ctxList[..]), current), current, Ready);
      var r := PickNextContext(current);
      if r != current {
        switches := switches + 1;
        Schedule(r);
      }
    }

    /** `do_fork`; `child` is the free context that was found. */
    method DoFork(child: nat) returns (pid: nat)
      requires Valid() && child < ctxList.Length
      modifies ctxList
      ensures Valid() && View() == Fork(old(View()), child) && pid == child
    {
      var ctx := ctxList[current];
      ctxList[child] := ctx;
      ctxList[child] := ctxList[child].(ppid := current);
      ctxList[child] := ctxList[child].(debugger := false, state := Waiting);
      pid := child;
      assert ctxList[..] == Fork(old(View()), child).procs;
    }

    /** `int3_handler`; `rip` is where the trap left the debuggee. */
    method Int3Handler(rip: nat)
      requires Valid() && ctxList[current].ppid < ctxList.Length
      modifies this`current, ctxList
      ensures Valid() && View() == Trap(old(View()), rip)
    {
      var p := ctxList[current].ppid;
      ctxList[p] := ctxList[p].(rax := (rip - 1) % WORD_LIMIT);
      ctxList[current] := ctxList[current].(state := Waiting);
      ctxList[p] := ctxList[p].(state := Ready);
      Schedule(p);
    }

    /** `do_wait_and_continue` */
    method DoWaitAndContinue()
      requires Valid() && exists i :: 0 <= i < ctxList.Length && ctxList[i].ppid == current
      modifies this`current, ctxList
      ensures FirstChild(old(ctxList[..]), old(current)) < ctxList.Length
      ensures Valid() && View() == WaitAndContinue(old(View()))
    {
      ghost var x :| 0 <= x < ctxList.Length && ctxList[x].ppid == current;
      assert ctxList[..][x].ppid == current;
      ghost var first := FirstChild(ctxList[..], current);
      ctxList[current] := ctxList[current].(state := Waiting);
      var i := 0;
      while i < ctxList.Length && ctxList[i].ppid != current
        invariant i <= first
        modifies {}
      {
        assert old(ctxList[..])[i].ppid == ctxList[i].ppid;
        i := i + 1;
      }
      assert old(ctxList[..])[i].ppid == ctxList[i].ppid;
      ctxList[i] := ctxList[i].(state := Ready);
      Schedule(i);
    }

    /** `do_exit` and `debugger_on_exit`, as far as scheduling goes */
    method DoExit()
      requires Valid() && ctxList[current].ppid < ctxList.Length
      modifies this`current, ctxList
      ensures Valid() && View() == Exit(old(View()))
    {
      ghost var t := View();
      if !ctxList[current].debugger {
        var p := ctxList[current].ppid;
        ctxList[p] := ctxList[p].(rax := CHILD_EXIT);
        ctxList[p] := ctxList[p].(state := Ready);
      }
      ctxList[current] := ctxList[current].(state := Unused);
      ghost var p := t.procs[current];
      assert ctxList[..] ==
        SetState(if p.debugger then t.procs
                 else t.procs[p.ppid := t.procs[p.ppid].(rax := CHILD_EXIT, state := Ready)], current, Unused);
      var r := PickNextContext(current);
      Schedule(r);
    }
  }
}
