/** The debugger's breakpoints, and what patching does to the program being debugged. */
module Breakpoints {

  const MAX_BREAKPOINTS := 8
  const INT3: bv8 := 0xCC
  const PUSH_RBP: bv8 := 0x55
  const WORD_LIMIT := 0x1_0000_0000_0000_0000

  datatype Bp = Bp(num: int, enabled: bool, addr: nat)

  /** The debugger's list, its counters, and the text it patches. */
  datatype Info = Info(bps: seq<Bp>, bpNum: int, totalBp: int, text: map<nat, bv8>)

  datatype Op = Set(addr: nat) | Remove(addr: nat) | Enable(addr: nat) | Disable(addr: nat)

  /** The position of the first breakpoint at `addr`, or the length of the list. */
  function IndexOf(bps: seq<Bp>, addr: nat): (i: nat)
    ensures i <= |bps|
    ensures i < |bps| ==> bps[i].addr == addr
    ensures forall k :: 0 <= k < i ==> bps[k].addr != addr
  {
    if bps == [] || bps[0].addr == addr then 0 else 1 + IndexOf(bps[1..], addr)
  }

  predicate Listed(bps: seq<Bp>, addr: nat) { IndexOf(bps, addr) < |bps| }

  /** The breakpoint at `addr` is listed and enabled. */
  ghost predicate Armed(bps: seq<Bp>, addr: nat) {
    exists i :: 0 <= i < |bps| && bps[i].addr == addr && bps[i].enabled
  }

  function Without(bps: seq<Bp>, i: nat): seq<Bp>
    requires i < |bps|
  {
    bps[..i] + bps[i + 1..]
  }

  function Switched(bps: seq<Bp>, i: nat, on: bool): seq<Bp>
    requires i < |bps|
  {
    bps[i := bps[i].(enabled := on)]
  }

  /** The breakpoint calls.  Setting a listed breakpoint only marks it enabled; removing one
      leaves the text as it is. */
  function Apply(d: Info, op: Op): (Info, int) {
    var i := IndexOf(d.bps, op.addr);
    match op
    case Set(addr) =>
      if i < |d.bps| then (d.(bps := Switched(d.bps, i, true)), 0)
      else if d.totalBp == MAX_BREAKPOINTS then (d, -1)
      else
        (Info(d.bps + [Bp(d.bpNum + 1, true, addr)], d.bpNum + 1, d.totalBp + 1, d.text[addr := INT3]), 0)
    case Remove(addr) =>
      if i < |d.bps| then (d.(bps := Without(d.bps, i), totalBp := d.totalBp - 1), 0)
      else (d, -1)
    case Enable(addr) =>
      if i < |d.bps| then
        (d.(bps := Switched(d.bps, i, true),
            text := if d.bps[i].enabled then d.text else d.text[addr := INT3]), 0)
      else (d, -1)
    case Disable(addr) =>
      if i < |d.bps| then
        (d.(bps := Switched(d.bps, i, false),
            text := if d.bps[i].enabled then d.text[addr := PUSH_RBP] else d.text), 0)
      else (d, -1)
  }

  /** No address is listed twice; numbers increase and none is above `last`. */
  ghost predicate Distinct(bps: seq<Bp>, last: int) {
    && (forall i, j :: 0 <= i < j < |bps| ==> bps[i].addr != bps[j].addr && bps[i].num < bps[j].num)
    && (forall i :: 0 <= i < |bps| ==> 0 < bps[i].num <= last)
  }

  /** The counter is the length, which is at most 8. */
  ghost predicate Consistent(d: Info) {
    && d.totalBp == |d.bps| <= MAX_BREAKPOINTS && d.bpNum >= 0
    && Distinct(d.bps, d.bpNum)
  }

  lemma DistinctAppend(bps: seq<Bp>, last: int, addr: nat)
    requires last >= 0 && Distinct(bps, last) && forall k :: 0 <= k < |bps| ==> bps[k].addr != addr
    ensures Distinct(bps + [Bp(last + 1, true, addr)], last + 1)
  {}

  lemma DistinctEdit(bps: seq<Bp>, last: int, i: nat, on: bool)
    requires Distinct(bps, last) && i < |bps|
    ensures Distinct(Without(bps, i), last) && Distinct(Switched(bps, i, on), last)
  {
    var e := Without(bps, i);
    assert forall k :: 0 <= k < |e| ==> e[k] == bps[if k < i then k else k + 1];
  }

  lemma ApplyConsistent(d: Info, op: Op)
    requires Consistent(d)
    ensures Consistent(Apply(d, op).0)
    ensures Apply(d, op).1 == -1 <==>
            if op.Set? then !Listed(d.bps, op.addr) && |d.bps| == MAX_BREAKPOINTS else !Listed(d.bps, op.addr)
  {
    hide IndexOf, Distinct;
    var i := IndexOf(d.bps, op.addr);
    if i == |d.bps| {
      DistinctAppend(d.bps, d.bpNum, op.addr);
    } else {
      DistinctEdit(d.bps, d.bpNum, i, !op.Disable?);
    }
  }

  function Byte(text: map<nat, bv8>, a: nat): bv8 { if a in text then text[a] else 0 }

  // ---- what each call does ----

  /** The breakpoints at other addresses, in order. */
  ghost function Elsewhere(bps: seq<Bp>, addr: nat): seq<Bp> {
    if bps == [] then []
    else
      var init, last := Elsewhere(bps[..|bps| - 1], addr), bps[|bps| - 1];
      if last.addr == addr then init else init + [last]
  }

  lemma ElsewhereNext(bps: seq<Bp>, b: Bp, addr: nat)
    ensures Elsewhere(bps + [b], addr) == if b.addr == addr then Elsewhere(bps, addr) else Elsewhere(bps, addr) + [b]
  {
    assert (bps + [b])[..|bps|] == bps;
  }

  /** What is at `addr` itself does not show elsewhere. */
  lemma {:induction false} ElsewhereSame(p: seq<Bp>, b: Bp, now: seq<Bp>, q: seq<Bp>, addr: nat)
    requires b.addr == addr && (now == [] || (|now| == 1 && now[0].addr == addr))
    ensures Elsewhere(p + now + q, addr) == Elsewhere(p + [b] + q, addr)
  {
    if q == [] {
      assert p + now + q == p + now && p + [b] + q == p + [b];
      ElsewhereNext(p, b, addr);
      if now == [] {
        assert p + now == p;
      } else {
        assert now == [now[0]];
        ElsewhereNext(p, now[0], addr);
      }
    } else {
      var init, last := q[..|q| - 1], q[|q| - 1];
      ElsewhereSame(p, b, now, init, addr);
      assert p + now + q == p + now + init + [last];
      assert p + [b] + q == p + [b] + init + [last];
      hide Elsewhere;
      ElsewhereNext(p + now + init, last, addr);
      ElsewhereNext(p + [b] + init, last, addr);
    }
  }

  /** What a call finds at its address and whether it is carried out. */
  ghost predicate CarriedOut(d: Info, op: Op) {
    Listed(d.bps, op.addr) || (op.Set? && |d.bps| < MAX_BREAKPOINTS)
  }

  /** The list after a call: breakpoints elsewhere are the same, in the same order; the one at the
      address is gone after a remove, and otherwise has its number and place and the status of the
      call; a new one goes last, with the next number. */
  lemma ApplyList(d: Info, op: Op)
    requires Consistent(d)
    ensures var bps, now := d.bps, Apply(d, op).0.bps;
            && Elsewhere(now, op.addr) == Elsewhere(bps, op.addr)
            && (Listed(now, op.addr) <==> CarriedOut(d, op) && !op.Remove?)
            && (Listed(bps, op.addr) && !op.Remove? ==>
                  && |now| == |bps|
                  && forall k :: 0 <= k < |bps| ==>
                       now[k] == if bps[k].addr == op.addr then Bp(bps[k].num, !op.Disable?, op.addr) else bps[k])
            && (CarriedOut(d, op) && !Listed(bps, op.addr) ==> now == bps + [Bp(d.bpNum + 1, true, op.addr)])
  {
    hide Elsewhere, IndexOf, Distinct;
    var i := IndexOf(d.bps, op.addr);
    if i == |d.bps| {
      NewLast(d.bps, op.addr, Bp(d.bpNum + 1, true, op.addr));
    } else if op.Remove? {
      RemovedAt(d.bps, d.bpNum, i);
    } else {
      SwitchedAt(d.bps, d.bpNum, i, !op.Disable?);
    }
  }

  lemma NewLast(bps: seq<Bp>, addr: nat, b: Bp)
    requires b.addr == addr
    ensures Elsewhere(bps + [b], addr) == Elsewhere(bps, addr) && Listed(bps + [b], addr)
  {
    ElsewhereNext(bps, b, addr);
    assert (bps + [b])[|bps|] == b;
    hide Elsewhere;
  }

  lemma RemovedAt(bps: seq<Bp>, last: int, i: nat)
    requires i < |bps| && Distinct(bps, last)
    ensures var addr, now := bps[i].addr, Without(bps, i);
            Elsewhere(now, addr) == Elsewhere(bps, addr) && !Listed(now, addr)
  {
    ListedNot(bps, last, i);
    hide *;
    SplitAt(bps, i);
    ElsewhereSame(bps[..i], bps[i], [], bps[i + 1..], bps[i].addr);
  }

  lemma SwitchedAt(bps: seq<Bp>, last: int, i: nat, on: bool)
    requires i < |bps| && Distinct(bps, last)
    ensures var addr, now := bps[i].addr, Switched(bps, i, on);
            && Elsewhere(now, addr) == Elsewhere(bps, addr) && Listed(now, addr) && |now| == |bps|
            && forall k :: 0 <= k < |bps| ==>
                 now[k] == if bps[k].addr == addr then Bp(bps[k].num, on, addr) else bps[k]
  {
    var now := Switched(bps, i, on);
    assert now[i].addr == bps[i].addr && now[i] == Bp(bps[i].num, on, bps[i].addr);
    hide Elsewhere, Switched;
    SplitSwitched(bps, i, on);
    ElsewhereSame(bps[..i], bps[i], [now[i]], bps[i + 1..], bps[i].addr);
  }

  lemma SplitSwitched(bps: seq<Bp>, i: nat, on: bool)
    requires i < |bps|
    ensures var now := Switched(bps, i, on);
            && |now| == |bps| && (forall k :: 0 <= k < |bps| && k != i ==> now[k] == bps[k])
            && now == bps[..i] + [now[i]] + bps[i + 1..] && bps == bps[..i] + [bps[i]] + bps[i + 1..]
  {}

  lemma SplitAt(bps: seq<Bp>, i: nat)
    requires i < |bps|
    ensures bps == bps[..i] + [bps[i]] + bps[i + 1..] && Without(bps, i) == bps[..i] + [] + bps[i + 1..]
  {}

  lemma ListedNot(bps: seq<Bp>, last: int, i: nat)
    requires i < |bps| && Distinct(bps, last)
    ensures !Listed(Without(bps, i), bps[i].addr)
  {
    var e := Without(bps, i);
    assert forall k :: 0 <= k < |e| ==> e[k] == bps[if k < i then k else k + 1];
  }

  /** The rest of what a call does: whether it returns 0, the numbering, and the text.  It writes
      INT3 for a new breakpoint or an enable of a disabled one, `push %rbp` for a disable of an
      enabled one, and nothing else. */
  lemma ApplyMeans(d: Info, op: Op)
    requires Consistent(d)
    ensures var (e, r) := Apply(d, op);
            var had := Listed(d.bps, op.addr);
            && r == (if CarriedOut(d, op) then 0 else -1) && (!CarriedOut(d, op) ==> e == d)
            && e.bpNum == d.bpNum + (if CarriedOut(d, op) && !had then 1 else 0)
            && forall a :: Byte(e.text, a) ==
                 if a != op.addr then Byte(d.text, a)
                 else if (op.Set? && !had && CarriedOut(d, op)) || (op.Enable? && had && !Armed(d.bps, a)) then INT3
                 else if op.Disable? && Armed(d.bps, a) then PUSH_RBP
                 else Byte(d.text, a)
  {
    var i := IndexOf(d.bps, op.addr);
    if i < |d.bps| {
      assert Armed(d.bps, op.addr) <==> d.bps[i].enabled;
    }
  }

  // ---- when the text says what the list says ----

  /** The text is the original one, but for an INT3 at each listed and enabled breakpoint. */
  ghost predicate Coherent(original: map<nat, bv8>, d: Info) {
    forall a :: Byte(d.text, a) == if Armed(d.bps, a) then INT3 else Byte(original, a)
  }

  /** The two calls that make the list and the text disagree: setting a breakpoint that is
      listed and disabled, and removing one that is enabled. */
  ghost predicate Tears(bps: seq<Bp>, op: Op) {
    || (op.Set? && Listed(bps, op.addr) && !Armed(bps, op.addr))
    || (op.Remove? && Armed(bps, op.addr))
  }

  /** Which breakpoints are listed and enabled after a call. */
  ghost predicate ArmedNext(bps: seq<Bp>, op: Op, a: nat) {
    if a != op.addr then Armed(bps, a)
    else (op.Set? && (Listed(bps, a) || |bps| < MAX_BREAKPOINTS)) || (op.Enable? && Listed(bps, a))
  }

  lemma ArmedAppend(bps: seq<Bp>, b: Bp, a: nat)
    ensures Armed(bps + [b], a) <==> Armed(bps, a) || (b.addr == a && b.enabled)
  {
    var e := bps + [b];
    assert e[|bps|] == b && forall k :: 0 <= k < |bps| ==> e[k] == bps[k];
  }

  lemma ArmedWithout(bps: seq<Bp>, last: int, i: nat, a: nat)
    requires i < |bps| && Distinct(bps, last)
    ensures Armed(Without(bps, i), a) <==> a != bps[i].addr && Armed(bps, a)
  {
    var e := Without(bps, i);
    hide Without;
    if Armed(e, a) {
      var k :| 0 <= k < |e| && e[k].addr == a && e[k].enabled;
      WithoutAt(bps, i, k);
      hide Armed;
      var j := if k < i then k else k + 1;
      assert bps[j].addr == a && bps[i].addr != a;
      IsArmed(bps, j);
    }
    if a != bps[i].addr && Armed(bps, a) {
      ArmedStays(bps, i, a);
    }
  }

  lemma ArmedStays(bps: seq<Bp>, i: nat, a: nat)
    requires i < |bps| && a != bps[i].addr && Armed(bps, a)
    ensures Armed(Without(bps, i), a)
  {
    var k :| 0 <= k < |bps| && bps[k].addr == a && bps[k].enabled;
    WithoutAt(bps, i, if k < i then k else k - 1);
  }

  lemma IsArmed(bps: seq<Bp>, k: nat)
    requires k < |bps| && bps[k].enabled
    ensures Armed(bps, bps[k].addr)
  {}

  lemma WithoutAt(bps: seq<Bp>, i: nat, k: nat)
    requires i < |bps|
    ensures |Without(bps, i)| == |bps| - 1
    ensures k < |bps| - 1 ==> Without(bps, i)[k] == bps[if k < i then k else k + 1]
  {}

  lemma ArmedSwitched(bps: seq<Bp>, last: int, i: nat, on: bool, a: nat)
    requires i < |bps| && Distinct(bps, last)
    ensures Armed(Switched(bps, i, on), a) <==> if a == bps[i].addr then on else Armed(bps, a)
  {
    var e := Switched(bps, i, on);
    assert e[i].addr == bps[i].addr && e[i].enabled == on;
    assert forall k :: 0 <= k < |bps| && k != i ==> e[k] == bps[k];
  }

  lemma ArmedAfter(d: Info, op: Op, a: nat)
    requires Consistent(d)
    ensures Armed(Apply(d, op).0.bps, a) <==> ArmedNext(d.bps, op, a)
  {
    var i := IndexOf(d.bps, op.addr);
    if i == |d.bps| {
      assert !Armed(d.bps, op.addr);
      ArmedAppend(d.bps, Bp(d.bpNum + 1, true, op.addr), a);
    } else {
      ArmedWithout(d.bps, d.bpNum, i, a);
      ArmedSwitched(d.bps, d.bpNum, i, !op.Disable?, a);
    }
    hide Armed, Distinct, IndexOf;
  }

  /** A call keeps list and text in agreement if and only if it is not one of those two. */
  lemma CoherentIff(original: map<nat, bv8>, d: Info, op: Op)
    requires Consistent(d) && Coherent(original, d) && Byte(original, op.addr) == PUSH_RBP
    ensures Coherent(original, Apply(d, op).0) <==> !Tears(d.bps, op)
  {
    var e := Apply(d, op).0;
    forall a
      ensures Armed(e.bps, a) <==> ArmedNext(d.bps, op, a)
      ensures a != op.addr ==> Byte(e.text, a) == Byte(d.text, a)
    {
      ArmedAfter(d, op, a);
    }
    assert Byte(d.text, op.addr) == if Armed(d.bps, op.addr) then INT3 else PUSH_RBP;
  }

  // ---- the machine ----

  /** Registers and data memory of the debuggee. */
  datatype Cpu = Cpu(rip: nat, rsp: nat, rbp: nat, others: seq<nat>, mem: map<nat, bv8>)

  /** Little-endian store of the low `n` bytes of `v`. */
  function Store(mem: map<nat, bv8>, a: nat, v: nat, n: nat): map<nat, bv8>
    decreases n
  {
    if n == 0 then mem
    else Store(mem[a % WORD_LIMIT := Low(v)], a + 1, v / 256, n - 1)
  }

  function Low(v: nat): bv8 { (v % 256) as bv8 }

  /** `v` without its lowest `k` bytes. */
  function Dropped(v: nat, k: nat): nat { if k == 0 then v else Dropped(v / 256, k - 1) }

  /** The address `k` bytes behind `a`. */
  function Behind(a: nat, k: nat): nat { (a + k) % WORD_LIMIT }

  lemma StoreNext(mem: map<nat, bv8>, a: nat, v: nat, n: nat)
    requires n > 0
    ensures Store(mem, a, v, n) == Store(mem[Behind(a, 0) := Low(v)], a + 1, v / 256, n - 1)
    ensures Byte(mem[Behind(a, 0) := Low(v)], Behind(a, 0)) == Low(v)
    ensures forall b :: b != Behind(a, 0) ==> Byte(mem[Behind(a, 0) := Low(v)], b) == Byte(mem, b)
    ensures forall k: nat :: k > 0 ==> Dropped(v, k) == Dropped(v / 256, k - 1)
  {
    hide Dropped;
    forall k: nat | k > 0
      ensures Dropped(v, k) == Dropped(v / 256, k - 1)
    {
      DroppedNext(v, k);
    }
  }

  lemma DroppedNext(v: nat, k: nat)
    requires k > 0
    ensures Dropped(v, k) == Dropped(v / 256, k - 1)
  {}

  /** The `k`-th byte of `v`, counted from the lowest, is stored `k` bytes behind `a`. */
  lemma {:induction false} StoredByte(mem: map<nat, bv8>, a: nat, v: nat, n: nat, k: nat)
    requires k < n <= WORD_LIMIT
    ensures Byte(Store(mem, a, v, n), Behind(a, k)) == Low(Dropped(v, k))
    decreases n
  {
    StoreNext(mem, a, v, n);
    assert Dropped(v, 0) == v;
    hide Store, Byte, Low, Dropped;
    var next, c := mem[Behind(a, 0) := Low(v)], a + 1;
    if k == 0 {
      forall j: nat | j < n - 1
        ensures Behind(c, j) != Behind(a, 0)
      {
        NotRound(a, j + 1);
      }
      StoredElsewhere(next, c, v / 256, n - 1, Behind(a, 0));
    } else {
      StoredByte(next, c, v / 256, n - 1, k - 1);
      assert Behind(c, k - 1) == Behind(a, k);
    }
  }

  /** No other byte changes. */
  lemma {:induction false} StoredElsewhere(mem: map<nat, bv8>, a: nat, v: nat, n: nat, b: nat)
    requires forall k: nat :: k < n ==> Behind(a, k) != b
    ensures Byte(Store(mem, a, v, n), b) == Byte(mem, b)
    decreases n
  {
    if n > 0 {
      StoreNext(mem, a, v, n);
      assert Behind(a, 0) != b;
      var next, c := mem[Behind(a, 0) := Low(v)], a + 1;
      forall k: nat | k < n - 1
        ensures Behind(c, k) != b
      {
        assert Behind(c, k) == Behind(a, k + 1);
      }
      StoredElsewhere(next, c, v / 256, n - 1, b);
    }
    hide Byte, Low, Dropped;
  }

  /** A store puts the bytes of `v`, lowest first, behind one another. */
  lemma StoreMeans(mem: map<nat, bv8>, a: nat, v: nat, n: nat, k: nat)
    requires k < n <= WORD_LIMIT
    ensures Byte(Store(mem, a, v, n), Behind(a, k)) == (Dropped(v, k) % 256) as bv8
    ensures Behind(a, k) == (a + k) % WORD_LIMIT && Dropped(v, k + 1) == Dropped(v, k) / 256
  {
    StoredByte(mem, a, v, n, k);
    DroppedLast(v, k);
    hide Store, Byte;
  }

  lemma {:induction false} DroppedLast(v: nat, k: nat)
    ensures Dropped(v, k + 1) == Dropped(v, k) / 256
  {
    if k > 0 {
      DroppedLast(v / 256, k - 1);
    }
  }

  lemma NotRound(a: nat, d: nat)
    requires 0 < d < WORD_LIMIT
    ensures (a + d) % WORD_LIMIT != a % WORD_LIMIT
  {}

  /** `push %rbp` */
  function PushRbp(cpu: Cpu): Cpu {
    var rsp := (cpu.rsp - 8) % WORD_LIMIT;
    cpu.(rip := (cpu.rip + 1) % WORD_LIMIT, rsp := rsp, mem := Store(cpu.mem, rsp, cpu.rbp, 8))
  }

  /** A program: its bytes, where its instructions start and how long they are, and what an
      instruction other than `push %rbp` and INT3 does. */
  datatype Program = Program(text: map<nat, bv8>, layout: map<nat, nat>, exec: (seq<bv8>, Cpu) -> Cpu)

  /** Instructions are not empty and do not overlap, and none of them is INT3. */
  ghost predicate WellLaid(p: Program) {
    && (forall s :: s in p.layout ==> s < WORD_LIMIT && p.layout[s] > 0 && Byte(p.text, s) != INT3)
    && (forall s, t :: s in p.layout && t in p.layout && s < t ==> s + p.layout[s] <= t)
  }

  /** A one-byte `push %rbp` of the original program: where a breakpoint may be set. */
  predicate Patchable(p: Program, a: nat) { a in p.layout && p.layout[a] == 1 && Byte(p.text, a) == PUSH_RBP }

  function Fetch(text: map<nat, bv8>, a: nat, n: nat): seq<bv8> {
    seq(n, i requires 0 <= i < n => Byte(text, a + i))
  }

  /** An instruction that does not trap. */
  function Execute(p: Program, text: map<nat, bv8>, cpu: Cpu): Cpu
    requires cpu.rip in p.layout
  {
    if Byte(text, cpu.rip) == PUSH_RBP then PushRbp(cpu)
    else p.exec(Fetch(text, cpu.rip, p.layout[cpu.rip]), cpu)
  }

  /** `n` instructions of the unpatched program; it stays where there is no instruction. */
  function PlainRun(p: Program, cpu: Cpu, n: nat): Cpu {
    if n == 0 then cpu
    else
      var before := PlainRun(p, cpu, n - 1);
      if before.rip in p.layout then Execute(p, p.text, before) else before
  }

  /** The debuggee under its debugger.  `done` counts the instructions it has executed, and
      `stops` records at each breakpoint how many those were and what the debugger's wait
      returned. */
  datatype Session = Session(dbg: Info, cpu: Cpu, stopped: bool, done: nat, stops: seq<(nat, int)>)

  /** The debuggee executes an instruction, or, while it is stopped, the debugger makes a
      breakpoint call or lets it continue. */
  datatype Event = Instruction | Call(op: Op) | Continue

  /** The trap leaves `rip` behind the INT3; the handler then pushes `rbp` for the debuggee,
      tells the debugger where it stopped, and puts the debuggee to sleep. */
  function Int3(s: Session): Session {
    var rip := (s.cpu.rip + 1) % WORD_LIMIT;
    var rsp := (s.cpu.rsp - 8) % WORD_LIMIT;
    s.(cpu := s.cpu.(rip := rip, rsp := rsp, mem := Store(s.cpu.mem, rsp, s.cpu.rbp, 8)),
       stopped := true, done := s.done + 1, stops := s.stops + [(s.done, (rip - 1) % WORD_LIMIT)])
  }

  function Step(p: Program, s: Session, e: Event): Session {
    match e
    case Instruction =>
      if s.stopped || s.cpu.rip !in p.layout then s
      else if Byte(s.dbg.text, s.cpu.rip) == INT3 then Int3(s)
      else s.(cpu := Execute(p, s.dbg.text, s.cpu), done := s.done + 1)
    case Call(op) => if s.stopped then s.(dbg := Apply(s.dbg, op).0) else s
    case Continue => s.(stopped := false)
  }

  function Run(p: Program, s: Session, events: seq<Event>): Session {
    if events == [] then s else Step(p, Run(p, s, events[..|events| - 1]), events[|events| - 1])
  }

  /** The child right after the fork: it waits, nothing is patched. */
  ghost predicate Forked(p: Program, s: Session) {
    s.stopped && s.dbg == Info([], 0, 0, p.text) && s.done == 0 && s.stops == []
  }

  /** Every breakpoint is set on a one-byte `push %rbp` of the original program. */
  ghost predicate OnPushes(p: Program, events: seq<Event>) {
    forall e :: e in events && e.Call? && e.op.Set? ==> Patchable(p, e.op.addr)
  }

  /** The text differs from the original at patchable addresses only, where it may be INT3,
      and breakpoints are listed at such addresses only. */
  ghost predicate OnlyPatches(p: Program, d: Info) {
    && (forall a :: Byte(d.text, a) == Byte(p.text, a) || (Patchable(p, a) && Byte(d.text, a) == INT3))
    && (forall i :: 0 <= i < |d.bps| ==> Patchable(p, d.bps[i].addr))
  }

  lemma ApplyOnlyPatches(p: Program, d: Info, op: Op)
    requires OnlyPatches(p, d) && (op.Set? ==> Patchable(p, op.addr))
    ensures OnlyPatches(p, Apply(d, op).0)
  {}

  lemma NotInside(p: Program, a: nat, b: nat)
    requires WellLaid(p) && a in p.layout && a < b < a + p.layout[a]
    ensures b !in p.layout
  {}

  /** No instruction but a patched one reads other bytes than before. */
  lemma ExecuteUnpatched(p: Program, d: Info, cpu: Cpu)
    requires WellLaid(p) && OnlyPatches(p, d) && cpu.rip in p.layout && Byte(d.text, cpu.rip) != INT3
    ensures Execute(p, d.text, cpu) == Execute(p, p.text, cpu)
  {
    var a, n := cpu.rip, p.layout[cpu.rip];
    forall b | a <= b < a + n
      ensures Byte(d.text, b) == Byte(p.text, b)
    {
      if a < b {
        NotInside(p, a, b);
      }
    }
    assert Fetch(d.text, a, n) == Fetch(p.text, a, n);
  }

  /** The debuggee's registers and data are those of the unpatched program after as many
      instructions, and what each stop reported is the patched address the unpatched program
      is about to execute there. */
  ghost predicate Faithful(p: Program, cpu: Cpu, s: Session) {
    && s.cpu == PlainRun(p, cpu, s.done)
    && OnlyPatches(p, s.dbg)
    && (forall k :: 0 <= k < |s.stops| ==>
          s.stops[k].1 == PlainRun(p, cpu, s.stops[k].0).rip && Patchable(p, s.stops[k].1))
  }

  /** The handler stands in for the instruction that the INT3 replaced. */
  lemma TrapFaithful(p: Program, cpu: Cpu, s: Session)
    requires WellLaid(p) && Faithful(p, cpu, s) && s.cpu.rip in p.layout && Byte(s.dbg.text, s.cpu.rip) == INT3
    ensures Faithful(p, cpu, Int3(s))
  {
    TrapPushes(s);
    assert Patchable(p, s.cpu.rip);
    hide OnlyPatches, WellLaid, Int3, PushRbp;
    assert PlainRun(p, cpu, s.done + 1) == Execute(p, p.text, s.cpu) == PushRbp(s.cpu);
    hide PlainRun;
  }

  lemma TrapPushes(s: Session)
    requires s.cpu.rip < WORD_LIMIT
    ensures Int3(s).cpu == PushRbp(s.cpu) && Int3(s).dbg == s.dbg && Int3(s).done == s.done + 1
    ensures Int3(s).stops == s.stops + [(s.done, s.cpu.rip)]
  {
    hide Store;
    assert (s.cpu.rip + 1) % WORD_LIMIT == if s.cpu.rip + 1 == WORD_LIMIT then 0 else s.cpu.rip + 1;
  }

  lemma StepFaithful(p: Program, cpu: Cpu, s: Session, e: Event)
    requires WellLaid(p) && Faithful(p, cpu, s) && (e.Call? && e.op.Set? ==> Patchable(p, e.op.addr))
    ensures Faithful(p, cpu, Step(p, s, e))
  {
    if e.Call? {
      ApplyOnlyPatches(p, s.dbg, e.op);
      hide Apply, OnlyPatches, PlainRun, Patchable;
    } else if e.Instruction? && s.cpu.rip in p.layout {
      if Byte(s.dbg.text, s.cpu.rip) == INT3 {
        TrapFaithful(p, cpu, s);
        hide Faithful, Int3, PlainRun;
      } else {
        ExecuteUnpatched(p, s.dbg, s.cpu);
        hide Execute, OnlyPatches, Patchable;
        assert PlainRun(p, cpu, s.done + 1) == Execute(p, p.text, s.cpu);
      }
    }
  }

  /** Debugger transparency: whatever the debugger sets, removes, enables and disables. */
  lemma {:induction false} Transparent(p: Program, s: Session, events: seq<Event>)
    requires WellLaid(p) && Forked(p, s) && OnPushes(p, events)
    ensures Faithful(p, s.cpu, Run(p, s, events))
  {
    if events != [] {
      Transparent(p, s, events[..|events| - 1]);
      hide Faithful, Step, Patchable;
      StepFaithful(p, s.cpu, Run(p, s, events[..|events| - 1]), events[|events| - 1]);
    }
  }

  /** The events with which the debugger lets the debuggee go on for `n` instructions. */
  function Onward(n: nat): seq<Event> { if n == 0 then [] else Onward(n - 1) + [Continue, Instruction] }

  /** Nothing keeps the debuggee: from wherever it is, with breakpoints or without, it executes the
      next `n` instructions of the unpatched program, as long as there are any. */
  lemma {:induction false} GoesOn(p: Program, s: Session, events: seq<Event>, n: nat)
    requires WellLaid(p) && Forked(p, s) && OnPushes(p, events)
    requires var done := Run(p, s, events).done;
             forall k: nat :: done <= k < done + n ==> PlainRun(p, s.cpu, k).rip in p.layout
    ensures OnPushes(p, events + Onward(n))
    ensures var t := Run(p, s, events + Onward(n));
            t.done == Run(p, s, events).done + n && t.cpu == PlainRun(p, s.cpu, t.done)
  {
    hide Step, Patchable, WellLaid, Forked, OnlyPatches, PlainRun;
    if n == 0 {
      assert events + Onward(0) == events;
      Transparent(p, s, events);
    } else {
      GoesOn(p, s, events, n - 1);
      var before := events + Onward(n - 1);
      assert events + Onward(n) == before + [Continue] + [Instruction];
      Transparent(p, s, before);
      RunOne(p, s, before, Continue);
      RunOne(p, s, before + [Continue], Instruction);
      OneOn(p, Run(p, s, before));
      Transparent(p, s, events + Onward(n));
    }
  }

  lemma RunOne(p: Program, s: Session, events: seq<Event>, e: Event)
    ensures Run(p, s, events + [e]) == Step(p, Run(p, s, events), e)
  {
    assert (events + [e])[..|events|] == events;
  }

  lemma OneOn(p: Program, t: Session)
    requires t.cpu.rip in p.layout
    ensures Step(p, Step(p, t, Continue), Instruction).done == t.done + 1
  {
    hide Store, Execute;
  }

  /** While the debuggee is stopped, the debugger's calls take effect and nothing else changes; while
      it runs they have none.  At an INT3 it stops, and the stop is recorded. */
  lemma StepMeans(p: Program, s: Session, op: Op)
    requires WellLaid(p)
    ensures Step(p, s, Call(op)) == s.(dbg := if s.stopped then Apply(s.dbg, op).0 else s.dbg)
    ensures s.stopped ==> Step(p, s, Instruction) == s
    ensures !s.stopped && s.cpu.rip in p.layout && Byte(s.dbg.text, s.cpu.rip) == INT3 ==>
              && Step(p, s, Instruction).stopped
              && Step(p, s, Instruction).stops == s.stops + [(s.done, s.cpu.rip)]
  {
    if s.cpu.rip in p.layout {
      TrapPushes(s);
    }
    hide Store, Execute, Apply;
  }

  /** No call of the run tears list and text apart. */
  ghost predicate Untorn(p: Program, s: Session, events: seq<Event>) {
    forall k :: 0 <= k < |events| && events[k].Call? ==>
      !Tears(Run(p, s, events[..k]).dbg.bps, events[k].op)
  }

  /** The list facts hold over every run; and if no call tears list and text apart, the
      debuggee stops before exactly the instructions whose breakpoint is listed and enabled. */
  lemma {:induction false} StopsWhereArmed(p: Program, s: Session, events: seq<Event>)
    requires WellLaid(p) && Forked(p, s) && OnPushes(p, events)
    ensures var t := Run(p, s, events);
            && Consistent(t.dbg)
            && (Untorn(p, s, events) ==> Coherent(p.text, t.dbg))
            && (Untorn(p, s, events) && !t.stopped && t.cpu.rip in p.layout ==>
                  (Step(p, t, Instruction).stopped <==> Armed(t.dbg.bps, t.cpu.rip)))
  {
    hide *;
    var t := Run(p, s, events);
    RunKeepsList(p, s, events);
    if Coherent(p.text, t.dbg) && !t.stopped && t.cpu.rip in p.layout {
      StopIsArmed(p, t);
    }
  }

  lemma {:induction false} RunKeepsList(p: Program, s: Session, events: seq<Event>)
    requires WellLaid(p) && Forked(p, s) && OnPushes(p, events)
    ensures Consistent(Run(p, s, events).dbg)
    ensures Untorn(p, s, events) ==> Coherent(p.text, Run(p, s, events).dbg)
  {
    if events == [] {
      assert Run(p, s, events) == s;
    } else {
      var n := |events| - 1;
      var e, t := events[n], Run(p, s, events[..n]);
      RunKeepsList(p, s, events[..n]);
      Transparent(p, s, events[..n]);
      assert e in events;
      if Untorn(p, s, events) {
        UntornStep(p, s, events);
      }
      assert e.Call? && e.op.Set? ==> Patchable(p, e.op.addr);
      hide Untorn, OnPushes, WellLaid, Forked, OnlyPatches, PlainRun, Patchable, Step, Consistent, Coherent, Tears;
      StepKeepsList(p, t, e);
    }
  }

  lemma StepKeepsList(p: Program, t: Session, e: Event)
    requires Consistent(t.dbg) && OnlyPatches(p, t.dbg) && (e.Call? && e.op.Set? ==> Patchable(p, e.op.addr))
    ensures Consistent(Step(p, t, e).dbg)
    ensures Coherent(p.text, t.dbg) && (e.Call? ==> !Tears(t.dbg.bps, e.op)) ==> Coherent(p.text, Step(p, t, e).dbg)
  {
    hide Execute, Consistent, Coherent, Tears;
    if e.Call? {
      ApplyConsistent(t.dbg, e.op);
      if Listed(t.dbg.bps, e.op.addr) || e.op.Set? {
        if Coherent(p.text, t.dbg) {
          CoherentIff(p.text, t.dbg, e.op);
        }
      }
    }
  }

  lemma StopIsArmed(p: Program, t: Session)
    requires WellLaid(p) && Coherent(p.text, t.dbg) && !t.stopped && t.cpu.rip in p.layout
    ensures Step(p, t, Instruction).stopped <==> Armed(t.dbg.bps, t.cpu.rip)
  {
    hide Execute, Armed;
    assert Byte(p.text, t.cpu.rip) != INT3;
  }

  lemma UntornStep(p: Program, s: Session, events: seq<Event>)
    requires events != [] && Untorn(p, s, events)
    ensures var n := |events| - 1;
            && Untorn(p, s, events[..n])
            && (events[n].Call? ==> !Tears(Run(p, s, events[..n]).dbg.bps, events[n].op))
  {
    hide Run, Tears;
    var n := |events| - 1;
    forall k | 0 <= k < n && events[..n][k].Call?
      ensures !Tears(Run(p, s, events[..n][..k]).dbg.bps, events[..n][k].op)
    {
      assert events[..n][..k] == events[..k];
    }
  }

  // ---- the list as the kernel keeps it ----

  class BreakpointInfo {
    var num: int
    var status: bool
    var addr: nat
    var next: BreakpointInfo?

    constructor (n: int, a: nat)
      ensures View() == Bp(n, true, a) && next == null
    {
      num, status, addr, next := n, true, a, null;
    }

    function View(): Bp
      reads this
    {
      Bp(num, status, addr)
    }
  }

  lemma IndexIs(bps: seq<Bp>, addr: nat, i: nat)
    requires i <= |bps| && (i < |bps| ==> bps[i].addr == addr)
    requires forall k :: 0 <= k < i ==> bps[k].addr != addr
    ensures IndexOf(bps, addr) == i
  {}

  class DebugInfo {
    var head: BreakpointInfo?
    var bpNum: int
    var totalBp: int
    /** The debuggee's code, which the debugger writes to. */
    var text: map<nat, bv8>
    /** The nodes in list order and what they say. */
    ghost var nodes: seq<BreakpointInfo>
    ghost var bps: seq<Bp>

    ghost predicate Valid()
      reads this, nodes
    {
      && |nodes| == |bps|
      && head == (if nodes == [] then null else nodes[0])
      && (forall i, j :: 0 <= i < j < |nodes| ==> nodes[i] != nodes[j])
      && (forall i {:trigger nodes[i].next} :: 0 <= i < |nodes| ==>
            nodes[i].next == if i + 1 < |nodes| then nodes[i + 1] else null)
      && (forall i {:trigger nodes[i].View()} :: 0 <= i < |nodes| ==> nodes[i].View() == bps[i])
    }

    ghost function View(): Info
      reads this
    {
      Info(bps, bpNum, totalBp, text)
    }

    constructor (code: map<nat, bv8>)
      ensures Valid() && View() == Info([], 0, 0, code)
    {
      head, bpNum, totalBp, text, nodes, bps := null, 0, 0, code, [], [];
    }

    /** The walk every call begins with: `h` is the first node at `a`, `p` the one before. */
    method Lookup(a: nat) returns (h: BreakpointInfo?, p: BreakpointInfo?)
      requires Valid()
      ensures var i := IndexOf(bps, a);
              && h == (if i < |nodes| then nodes[i] else null)
              && p == (if 0 < i <= |nodes| then nodes[i - 1] else null)
              && i <= |nodes|
    {
      h, p := head, null;
      ghost var i: nat := 0;
      while h != null && h.addr != a
        invariant i <= |nodes| && h == if i < |nodes| then nodes[i] else null
        invariant p == if i > 0 then nodes[i - 1] else null
        invariant forall k :: 0 <= k < i ==> bps[k].addr != a
        decreases |nodes| - i
      {
        assert nodes[i].View() == bps[i];
        p, h := h, h.next;
        i := i + 1;
      }
      assert i < |nodes| ==> nodes[i].View() == bps[i];
      IndexIs(bps, a, i);
    }

    method SetStatus(h: BreakpointInfo, ghost i: nat, on: bool)
      requires Valid() && i < |nodes| && nodes[i] == h
      modifies this`bps, h`status
      ensures Valid() && bps == old(bps[i := bps[i].(enabled := on)])
    {
      h.status := on;
      bps := bps[i := bps[i].(enabled := on)];
      forall k | 0 <= k < |nodes|
        ensures nodes[k].next == if k + 1 < |nodes| then nodes[k + 1] else null
        ensures nodes[k].View() == bps[k]
      {
        assert nodes[k].next == old(nodes[k].next) && old(nodes[k].View()) == old(bps)[k];
      }
    }

    /** `do_set_breakpoint` */
    method SetBreakpoint(a: nat) returns (r: int)
      requires Valid()
      modifies this, nodes
      ensures Valid() && (View(), r) == Apply(old(View()), Set(a))
    {
      var h, _ := Lookup(a);
      if h != null {
        SetStatus(h, IndexOf(bps, a), true);
        return 0;
      }
      if totalBp == MAX_BREAKPOINTS { return -1; }
      bpNum := bpNum + 1;
      var b := new BreakpointInfo(bpNum, a);
      text := text[a := INT3];
      totalBp := totalBp + 1;
      Append(b);
      r := 0;
    }

    /** A new node goes to the end of the list. */
    method Append(b: BreakpointInfo)
      requires Valid() && b !in nodes && b.next == null
      modifies this`head, this`nodes, this`bps, nodes
      ensures Valid() && bps == old(bps) + [old(b.View())] && nodes == old(nodes) + [b]
    {
      ghost var was, v := bps, b.View();
      if head == null {
        head := b;
      } else {
        var h := head;
        ghost var i := 0;
        while h.next != null
          invariant 0 <= i < |nodes| && h == nodes[i]
          decreases |nodes| - i
          modifies {}
        {
          h := h.next;
          i := i + 1;
        }
        h.next := b;
      }
      nodes, bps := nodes + [b], was + [v];
      forall k | 0 <= k < |nodes|
        ensures nodes[k].next == if k + 1 < |nodes| then nodes[k + 1] else null
        ensures nodes[k].View() == bps[k]
      {
        if k < |was| {
          assert nodes[k] == old(nodes)[k] && old(nodes[k].View()) == was[k];
          assert k + 1 < |was| ==> nodes[k].next == old(nodes[k].next);
        }
      }
    }

    /** `do_remove_breakpoint` */
    method RemoveBreakpoint(a: nat) returns (r: int)
      requires Valid()
      modifies this, nodes
      ensures Valid() && (View(), r) == Apply(old(View()), Remove(a))
    {
      var h, p := Lookup(a);
      if h == null { return -1; }
      ghost var i := IndexOf(bps, a);
      Unlink(IndexOf(bps, a), h, p);
      totalBp := totalBp - 1;
      r := 0;
    }

    method Unlink(ghost i: nat, h: BreakpointInfo, p: BreakpointInfo?)
      requires Valid() && i < |nodes| && h == nodes[i] && p == if i > 0 then nodes[i - 1] else null
      modifies this`head, this`nodes, this`bps, p
      ensures Valid() && bps == old(bps[..i] + bps[i + 1..])
    {
      if p == null {
        head := h.next;
      } else {
        p.next := h.next;
      }
      nodes, bps := nodes[..i] + nodes[i + 1..], bps[..i] + bps[i + 1..];
      forall k | 0 <= k < |nodes|
        ensures nodes[k].next == if k + 1 < |nodes| then nodes[k + 1] else null
        ensures nodes[k].View() == bps[k]
      {
        if k < i {
          assert nodes[k] == old(nodes[k]) && (k + 1 != i ==> old(nodes[k]).next == old(nodes[k].next));
          assert old(nodes[k].View()) == old(bps)[k];
        } else {
          assert nodes[k] == old(nodes[k + 1]) && old(nodes[k + 1]).next == old(nodes[k + 1].next);
          assert old(nodes[k + 1].View()) == old(bps)[k + 1];
        }
      }
    }

    /** `do_enable_breakpoint` */
    method EnableBreakpoint(a: nat) returns (r: int)
      requires Valid()
      modifies this, nodes
      ensures Valid() && (View(), r) == Apply(old(View()), Enable(a))
    {
      var h, _ := Lookup(a);
      if h == null { return -1; }
      assert h.View() == bps[IndexOf(bps, a)];
      if !h.status { text := text[a := INT3]; }
      SetStatus(h, IndexOf(bps, a), true);
      r := 0;
    }

    /** `do_disable_breakpoint` */
    method DisableBreakpoint(a: nat) returns (r: int)
      requires Valid()
      modifies this, nodes
      ensures Valid() && (View(), r) == Apply(old(View()), Disable(a))
    {
      var h, _ := Lookup(a);
      if h == null { return -1; }
      assert h.View() == bps[IndexOf(bps, a)];
      if h.status {
        text := text[a := PUSH_RBP];
        SetStatus(h, IndexOf(bps, a), false);
      } else {
        assert bps == bps[IndexOf(bps, a) := bps[IndexOf(bps, a)].(enabled := false)];
      }
      r := 0;
    }

    /** `do_info_breakpoints`: the list, in order, in the caller's buffer. */
    method InfoBreakpoints(x: array<Bp>) returns (r: int)
      requires Valid() && Consistent(View()) && x.Length >= MAX_BREAKPOINTS
      modifies x
      ensures r == |bps| && x[..r] == bps && x[r..] == old(x[..])[r..]
    {
      var h, i := head, 0;
      while i < totalBp
        invariant 0 <= i <= |nodes| && h == if i < |nodes| then nodes[i] else null
        invariant x[..i] == bps[..i] && x[i..] == old(x[..])[i..]
        modifies x
      {
        assert h.View() == bps[i];
        x[i] := Bp(h.num, h.status, h.addr);
        h := h.next;
        i := i + 1;
      }
      r := totalBp;
    }
  }
}
