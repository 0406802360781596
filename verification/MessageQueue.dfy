/** The message queue: a shared buffer, its members, and who blocks whom. */
module MessageQueue {
  import opened Words

  const MAX_TXT_SIZE := 24
  const MAX_MEMBERS := 4
  const MAX_PIDS := 8
  /** A page holds so many messages of 32 bytes. */
  const CAPACITY := 128
  const BROADCAST_PID := 0xFFFF_FFFF
  const EINVAL := 1

  datatype Message = Message(from: nat, to: nat, text: seq<char>)

  /** `(q, p) in blocked`: what `q` sends does not reach `p`. */
  datatype Queue = Queue(msgs: seq<Message>, members: seq<nat>, blocked: set<(nat, nat)>)

  /** The text of a message buffer goes up to the first NUL. */
  function Text(raw: seq<char>): seq<char> {
    if raw == [] || raw[0] == '\0' then [] else [raw[0]] + Text(raw[1..])
  }

  lemma {:induction false} TextMeans(raw: seq<char>)
    ensures Text(raw) <= raw && '\0' !in Text(raw)
    ensures |Text(raw)| < |raw| ==> raw[|Text(raw)|] == '\0'
  {
    if raw != [] && raw[0] != '\0' {
      TextMeans(raw[1..]);
    }
  }

  lemma {:induction false} SameText(a: seq<char>, b: seq<char>, n: nat)
    requires n <= |a| == |b| && a[..n] == b[..n]
    requires n == |a| || (n > 0 && a[n - 1] == '\0')
    ensures Text(a) == Text(b)
    decreases n
  {
    if n > 0 && a[0] != '\0' {
      assert a[0] == a[..n][0] == b[..n][0] == b[0];
      assert a[1..][..n - 1] == a[..n][1..] == b[..n][1..] == b[1..][..n - 1];
      SameText(a[1..], b[1..], n - 1);
    } else if n > 0 {
      assert a[0] == a[..n][0] == b[..n][0] == b[0];
    }
  }

  // ---- the operations ----

  /** The members a broadcast reaches: not its sender, and nobody who blocks the sender. */
  function Receivers(members: seq<nat>, from: nat, blocked: set<(nat, nat)>): seq<nat> {
    if members == [] then []
    else
      var init, last := Receivers(members[..|members| - 1], from, blocked), members[|members| - 1];
      if last == from || (from, last) in blocked then init else init + [last]
  }

  function Copies(m: Message, pids: seq<nat>): seq<Message> {
    seq(|pids|, i requires 0 <= i < |pids| => m.(to := pids[i]))
  }

  /** What a send puts into the buffer. */
  function Outgoing(q: Queue, m: Message): seq<Message> {
    if m.to == BROADCAST_PID then Copies(m, Receivers(q.members, m.from, q.blocked))
    else if m.to in q.members && (m.from, m.to) !in q.blocked then [m]
    else []
  }

  function Send(q: Queue, m: Message): (Queue, int) {
    var out := Outgoing(q, m);
    (q.(msgs := q.msgs + out),
     if m.to != BROADCAST_PID && m.to in q.members && (m.from, m.to) in q.blocked then -EINVAL else |out|)
  }

  /** The position of the first message for `p`, or the length. */
  function FirstFor(msgs: seq<Message>, p: nat): (i: nat)
    ensures i <= |msgs| && (i < |msgs| ==> msgs[i].to == p)
    ensures forall k :: 0 <= k < i ==> msgs[k].to != p
  {
    if msgs == [] || msgs[0].to == p then 0 else 1 + FirstFor(msgs[1..], p)
  }

  function Receive(q: Queue, p: nat): (Queue, Option<Message>) {
    var i := FirstFor(q.msgs, p);
    if i == |q.msgs| then (q, None) else (q.(msgs := q.msgs[..i] + q.msgs[i + 1..]), Some(q.msgs[i]))
  }

  function Block(q: Queue, caller: nat, pid: nat): (Queue, int) {
    if pid in q.members then (q.(blocked := q.blocked + {(pid, caller)}), 0) else (q, -EINVAL)
  }

  function Join(q: Queue, pid: nat): Queue { q.(members := q.members + [pid]) }

  function Index(members: seq<nat>, pid: nat): (i: nat)
    ensures i <= |members| && (i < |members| ==> members[i] == pid)
    ensures forall k :: 0 <= k < i ==> members[k] != pid
  {
    if members == [] || members[0] == pid then 0 else 1 + Index(members[1..], pid)
  }

  /** The last member takes the place of the one that leaves.  One that is no member makes the
      last one leave. */
  function Leave(q: Queue, pid: nat): Queue
    requires q.members != []
  {
    var i, n := Index(q.members, pid), |q.members| - 1;
    q.(members := if i < n then q.members[..n][i := q.members[n]] else q.members[..n])
  }

  ghost predicate Distinct(members: seq<nat>) {
    forall i, j :: 0 <= i < j < |members| ==> members[i] != members[j]
  }

  /** Leaving takes exactly the caller off the members if and only if it is one. */
  lemma LeaveExactIff(q: Queue, pid: nat)
    requires q.members != [] && Distinct(q.members)
    ensures Distinct(Leave(q, pid).members)
    ensures (forall p :: p in Leave(q, pid).members <==> p in q.members && p != pid) <==> pid in q.members
    ensures |Leave(q, pid).members| == |q.members| - 1
    ensures forall k :: 0 <= k < |q.members| - 1 ==>
              Leave(q, pid).members[k] == q.members[if q.members[k] == pid then |q.members| - 1 else k]
    ensures Leave(q, pid).msgs == q.msgs && Leave(q, pid).blocked == q.blocked
  {
    var was, now := q.members, Leave(q, pid).members;
    var i, n := Index(was, pid), |was| - 1;
    assert forall k :: 0 <= k < n ==> now[k] == was[if k == i then n else k];
    if pid in was {
      forall p | p in was && p != pid
        ensures p in now
      {
        var k :| 0 <= k < |was| && was[k] == p;
        assert now[if k == n then i else k] == p;
      }
    } else {
      assert was[n] in was && was[n] != pid && was[n] !in now;
    }
  }

  /** Leaving, in an array that holds the members first. */
  lemma LeaveIs(q: Queue, pid: nat, was: seq<nat>)
    requires 0 < |q.members| <= |was| && q.members == was[..|q.members|]
    requires pid in q.members || |q.members| < |was|
    ensures var i, n := Index(q.members, pid), |q.members| - 1;
            i < |was| && Leave(q, pid) == q.(members := was[i := was[n]][..n])
  {
    var i, n := Index(q.members, pid), |q.members| - 1;
    hide Index;
    assert i < n ==> q.members[..n][i := q.members[n]] == was[i := was[n]][..n];
    assert i >= n ==> was[..n] == q.members[..n] == was[i := was[n]][..n];
  }

  ghost predicate Listable(members: seq<nat>) {
    Distinct(members) && forall i :: 0 <= i < |members| ==> members[i] < MAX_PIDS
  }

  lemma LeaveListable(q: Queue, pid: nat)
    requires q.members != [] && Listable(q.members)
    ensures Listable(Leave(q, pid).members)
  {
    LeaveExactIff(q, pid);
    hide Distinct;
  }

  // ---- what is pending ----

  /** The messages for `p`, in order. */
  function For(msgs: seq<Message>, p: nat): seq<Message> {
    if msgs == [] then []
    else
      var init, last := For(msgs[..|msgs| - 1], p), msgs[|msgs| - 1];
      if last.to == p then init + [last] else init
  }

  lemma {:induction false} ForAppend(a: seq<Message>, b: seq<Message>, p: nat)
    ensures For(a + b, p) == For(a, p) + For(b, p)
  {
    if b == [] {
      assert a + b == a;
    } else {
      ForAppend(a, b[..|b| - 1], p);
      assert (a + b)[..|a + b| - 1] == a + b[..|b| - 1];
    }
  }

  lemma {:induction false} ForNobody(msgs: seq<Message>, p: nat)
    requires forall m :: m in msgs ==> m.to != p
    ensures For(msgs, p) == []
  {
    if msgs != [] {
      ForNobody(msgs[..|msgs| - 1], p);
    }
  }

  lemma ForSplit(before: seq<Message>, x: Message, rest: seq<Message>, p: nat)
    ensures For(before + [x] + rest, p) ==
            For(before, p) + (if x.to == p then [x] else []) + For(rest, p)
    ensures For(before + rest, p) == For(before, p) + For(rest, p)
  {
    ForAppend(before + [x], rest, p);
    ForAppend(before, rest, p);
    assert (before + [x])[..|before|] == before;
  }

  /** A receive gets the oldest message pending for its process, and disturbs no other. */
  lemma ReceiveTakesOldest(q: Queue, p: nat, other: nat)
    ensures var (after, got) := Receive(q, p);
            && For(q.msgs, p) == (if got.Some? then [got.value] else []) + For(after.msgs, p)
            && (other != p ==> For(q.msgs, other) == For(after.msgs, other))
            && (got.None? <==> For(q.msgs, p) == [])
            && (got.Some? ==> got.value.to == p)
            && after.members == q.members && after.blocked == q.blocked
  {
    hide For, FirstFor;
    var i := FirstFor(q.msgs, p);
    ForNobody(q.msgs[..i], p);
    if i == |q.msgs| {
      assert q.msgs[..i] == q.msgs;
    } else {
      ForSplit(q.msgs[..i], q.msgs[i], q.msgs[i + 1..], p);
      ForSplit(q.msgs[..i], q.msgs[i], q.msgs[i + 1..], other);
      assert q.msgs == q.msgs[..i] + [q.msgs[i]] + q.msgs[i + 1..];
    }
  }

  /** Whom a message reaches. */
  predicate Reaches(q: Queue, m: Message, p: nat) {
    && p in q.members && (m.from, p) !in q.blocked
    && if m.to == BROADCAST_PID then p != m.from else p == m.to
  }

  lemma CopiesAppend(m: Message, pids: seq<nat>, last: nat, p: nat)
    ensures For(Copies(m, pids + [last]), p) ==
            For(Copies(m, pids), p) + if p == last then [m.(to := p)] else []
  {
    var c := Copies(m, pids + [last]);
    assert c[..|c| - 1] == Copies(m, pids) && c[|c| - 1] == m.(to := last);
  }

  lemma {:induction false} BroadcastReaches(members: seq<nat>, m: Message, blocked: set<(nat, nat)>, p: nat)
    requires Distinct(members)
    ensures For(Copies(m, Receivers(members, m.from, blocked)), p) ==
            if p in members && p != m.from && (m.from, p) !in blocked then [m.(to := p)] else []
  {
    if members != [] {
      var n := |members| - 1;
      var init, last := members[..n], members[n];
      BroadcastReaches(init, m, blocked, p);
      CopiesAppend(m, Receivers(init, m.from, blocked), last, p);
      assert p in members <==> p in init || p == last;
      assert last !in init;
      hide For, Copies, Distinct;
    }
  }

  /** A send adds one copy, after all that is pending, for everybody it reaches. */
  lemma SendReaches(q: Queue, m: Message, p: nat)
    requires Distinct(q.members)
    ensures For(Send(q, m).0.msgs, p) == For(q.msgs, p) + if Reaches(q, m, p) then [m.(to := p)] else []
    ensures Send(q, m).0.members == q.members && Send(q, m).0.blocked == q.blocked
  {
    ForAppend(q.msgs, Outgoing(q, m), p);
    BroadcastReaches(q.members, m, q.blocked, p);
    assert [m][..0] == [];
  }

  /** Everybody whom a message reaches. */
  ghost function Reached(q: Queue, m: Message): set<nat> {
    set p: nat | p in q.members && Reaches(q, m, p)
  }

  /** A send returns how many it reaches, or -1 when its one addressee blocks the sender it names. */
  lemma SendReturns(q: Queue, m: Message)
    requires Distinct(q.members)
    ensures Send(q, m).1 ==
            if m.to != BROADCAST_PID && m.to in q.members && (m.from, m.to) in q.blocked then -1
            else |Reached(q, m)|
  {
    if m.to == BROADCAST_PID {
      ReceiversCount(q, m, |q.members|);
      assert q.members[..|q.members|] == q.members;
      assert Reached(q, m) == ReachedOf(q, m, |q.members|);
    } else if m.to in q.members && (m.from, m.to) !in q.blocked {
      assert Reached(q, m) == {m.to};
    } else {
      assert Reached(q, m) == {};
    }
  }

  ghost function ReachedOf(q: Queue, m: Message, i: nat): set<nat>
    requires i <= |q.members|
  {
    set k | 0 <= k < i && Reaches(q, m, q.members[k]) :: q.members[k]
  }

  lemma {:induction false} ReceiversCount(q: Queue, m: Message, i: nat)
    requires Distinct(q.members) && m.to == BROADCAST_PID && i <= |q.members|
    ensures |Receivers(q.members[..i], m.from, q.blocked)| == |ReachedOf(q, m, i)|
  {
    if i > 0 {
      ReceiversCount(q, m, i - 1);
      ReachedNext(q, m, i);
      ReceiversNext(q.members[..i], m.from, q.blocked);
      assert q.members[..i][..i - 1] == q.members[..i - 1];
      hide Receivers, ReachedOf, Distinct;
    }
  }

  lemma ReceiversNext(members: seq<nat>, from: nat, blocked: set<(nat, nat)>)
    requires members != []
    ensures var init, last := Receivers(members[..|members| - 1], from, blocked), members[|members| - 1];
            Receivers(members, from, blocked) ==
            if last == from || (from, last) in blocked then init else init + [last]
  {}

  lemma ReachedNext(q: Queue, m: Message, i: nat)
    requires Distinct(q.members) && 0 < i <= |q.members|
    ensures |ReachedOf(q, m, i)| == |ReachedOf(q, m, i - 1)| + if Reaches(q, m, q.members[i - 1]) then 1 else 0
  {
    var p := q.members[i - 1];
    hide Reaches;
    assert p !in ReachedOf(q, m, i - 1);
    assert ReachedOf(q, m, i) == if Reaches(q, m, p) then ReachedOf(q, m, i - 1) + {p} else ReachedOf(q, m, i - 1);
  }

  /** A new member is one more receiver, from then on, of what it does not block and did not send. */
  lemma JoinMeans(q: Queue, pid: nat, m: Message, p: nat)
    requires Distinct(q.members) && pid !in q.members && pid != BROADCAST_PID
    ensures var t := Join(q, pid);
            && t.msgs == q.msgs && t.blocked == q.blocked && Distinct(t.members) && q.members <= t.members
            && (p in t.members <==> p in q.members || p == pid)
            && (Reaches(t, m, p) <==>
                  Reaches(q, m, p) ||
                  (p == pid && (m.from, p) !in q.blocked && (m.to == p || (m.to == BROADCAST_PID && m.from != p))))
            && (m.to == pid && (m.from, pid) !in q.blocked ==>
                  For(Send(t, m).0.msgs, pid) == For(q.msgs, pid) + [m])
  {
    SendReaches(Join(q, pid), m, pid);
    hide For, Send;
  }

  /** A block adds one pair, for a member, and changes nothing else. */
  lemma BlockMeans(q: Queue, caller: nat, pid: nat)
    ensures var (t, r) := Block(q, caller, pid);
            && r == (if pid in q.members then 0 else -1)
            && t.msgs == q.msgs && t.members == q.members
            && (forall a, b :: (a, b) in t.blocked <==>
                  (a, b) in q.blocked || (pid in q.members && a == pid && b == caller))
  {}

  // ---- runs ----

  /** A queue with what was accepted and which process sent it, what was received so far, and
      the sums of what the sends and receives returned. */
  datatype History = History(q: Queue, accepted: seq<Message>, callers: seq<nat>, received: seq<Message>,
                             sent: int, taken: int)

  /** The calls; a message says itself who it is from, whoever sends it. */
  datatype Event = Sends(caller: nat, m: Message) | Receives(p: nat) | Blocks(caller: nat, pid: nat)
                 | Joins(pid: nat) | Leaves(pid: nat)

  ghost predicate Allowed(q: Queue, e: Event) {
    match e
    case Joins(pid) => pid < MAX_PIDS && pid !in q.members && |q.members| < MAX_MEMBERS
    case Leaves(pid) => pid in q.members
    case _ => true
  }

  function Step(h: History, e: Event): History {
    match e
    case Sends(caller, m) =>
      var (q, r) := Send(h.q, m);
      var out := Outgoing(h.q, m);
      h.(q := q, accepted := h.accepted + out, callers := h.callers + seq(|out|, _ => caller),
         sent := h.sent + if r < 0 then 0 else r)
    case Receives(p) =>
      var (q, got) := Receive(h.q, p);
      if got.Some? then h.(q := q, received := h.received + [got.value], taken := h.taken + 1) else h
    case Blocks(caller, pid) => h.(q := Block(h.q, caller, pid).0)
    case Joins(pid) => h.(q := Join(h.q, pid))
    case Leaves(pid) => if h.q.members == [] then h else h.(q := Leave(h.q, pid))
  }

  ghost predicate Follows(h: History, events: seq<Event>, t: History)
    decreases |events|
  {
    if events == [] then h == t
    else Allowed(h.q, events[0]) && Follows(Step(h, events[0]), events[1..], t)
  }

  ghost predicate Inv(h: History) {
    && (forall p :: For(h.accepted, p) == For(h.received, p) + For(h.q.msgs, p))
    && |h.q.msgs| == h.sent - h.taken && |h.callers| == |h.accepted|
    && Distinct(h.q.members) && |h.q.members| <= MAX_MEMBERS
    && (forall p :: p in h.q.members ==> p < MAX_PIDS)
    && (forall m :: m in h.q.msgs ==> m.to < MAX_PIDS)
  }

  lemma OutgoingToMembers(q: Queue, m: Message)
    ensures forall x :: x in Outgoing(q, m) ==> x.to in q.members
  {
    ReceiversAreMembers(q.members, m.from, q.blocked);
  }

  lemma SendKeeps(h: History, caller: nat, m: Message)
    requires Inv(h)
    ensures Inv(Step(h, Sends(caller, m)))
  {
    var out, t := Outgoing(h.q, m), Step(h, Sends(caller, m));
    forall p
      ensures For(t.accepted, p) == For(h.accepted, p) + For(out, p)
      ensures For(t.q.msgs, p) == For(h.q.msgs, p) + For(out, p)
    {
      ForAppend(h.accepted, out, p);
      ForAppend(h.q.msgs, out, p);
    }
    OutgoingToMembers(h.q, m);
    hide For, Receivers;
    forall p
      ensures For(t.accepted, p) == For(t.received, p) + For(t.q.msgs, p)
    {
      assert For(h.received, p) + For(h.q.msgs, p) + For(out, p) ==
             For(h.received, p) + (For(h.q.msgs, p) + For(out, p));
    }
  }

  lemma {:induction false} ReceiversAreMembers(members: seq<nat>, from: nat, blocked: set<(nat, nat)>)
    ensures forall p :: p in Receivers(members, from, blocked) ==> p in members
  {
    if members != [] {
      ReceiversAreMembers(members[..|members| - 1], from, blocked);
    }
  }

  lemma ReceiveMoves(received: seq<Message>, q: Queue, p: nat, r: nat)
    ensures var (after, got) := Receive(q, p);
            got.Some? ==> For(received + [got.value], r) + For(after.msgs, r) == For(received, r) + For(q.msgs, r)
  {
    var (after, got) := Receive(q, p);
    if got.Some? {
      ReceiveTakesOldest(q, p, r);
      ForAppend(received, [got.value], r);
      assert [got.value][..0] == [];
      hide FirstFor, Receive;
    }
  }

  lemma ReceiveKeeps(h: History, p: nat)
    requires Inv(h)
    ensures Inv(Step(h, Receives(p)))
  {
    var (after, got) := Receive(h.q, p);
    assert got.Some? ==> |after.msgs| == |h.q.msgs| - 1 && forall m :: m in after.msgs ==> m in h.q.msgs;
    forall r
      ensures got.Some? ==>
                For(h.received + [got.value], r) + For(after.msgs, r) == For(h.received, r) + For(h.q.msgs, r)
    {
      ReceiveMoves(h.received, h.q, p, r);
    }
    hide For, FirstFor;
  }

  lemma StepKeeps(h: History, e: Event)
    requires Inv(h) && Allowed(h.q, e)
    ensures Inv(Step(h, e))
  {
    match e {
      case Sends(caller, m) => SendKeeps(h, caller, m);
      case Receives(p) => ReceiveKeeps(h, p);
      case Blocks(_, _) =>
      case Joins(_) =>
      case Leaves(pid) =>
        assert pid in h.q.members;
        LeaveExactIff(h.q, pid);
        hide For, Index;
    }
  }

  /** What each call does, as each process sees it: whom a message is accepted for, that a receive
      takes the oldest one pending, whom a block stops, and who is a member. */
  lemma StepMeans(h: History, e: Event, p: nat)
    requires Inv(h) && Allowed(h.q, e)
    ensures var t := Step(h, e);
            && For(t.accepted, p) == For(h.accepted, p) +
                 (if e.Sends? && Reaches(h.q, e.m, p) then [e.m.(to := p)] else [])
            && For(t.received, p) == For(h.received, p) +
                 (if e.Receives? && e.p == p && For(h.q.msgs, p) != [] then [For(h.q.msgs, p)[0]] else [])
            && (p in t.q.members <==>
                  if e.Joins? && e.pid == p then true else if e.Leaves? && e.pid == p then false else p in h.q.members)
            && (forall a, b :: (a, b) in t.q.blocked <==>
                  (a, b) in h.q.blocked || (e.Blocks? && a == e.pid && b == e.caller && a in h.q.members))
  {
    match e {
      case Sends(_, m) =>
        ForAppend(h.accepted, Outgoing(h.q, m), p);
        BroadcastReaches(h.q.members, m, h.q.blocked, p);
        assert [m][..0] == [];
        hide For, Receivers;
      case Receives(r) =>
        ReceiveTakesOldest(h.q, r, p);
        var got := Receive(h.q, r).1;
        if got.Some? {
          ForAppend(h.received, [got.value], p);
          assert [got.value][..0] == [];
        }
        hide FirstFor;
      case Leaves(pid) =>
        LeaveExactIff(h.q, pid);
        hide For, Index, Leave;
      case _ =>
        hide For;
    }
  }

  lemma {:induction false} FollowsKeeps(h: History, events: seq<Event>, t: History)
    requires Inv(h) && Follows(h, events, t)
    ensures Inv(t)
    decreases |events|
  {
    if events != [] {
      StepKeeps(h, events[0]);
      hide Inv, Step, Allowed;
      FollowsKeeps(Step(h, events[0]), events[1..], t);
    }
  }

  /** How many messages are pending for the processes below `n`. */
  function PendingBelow(msgs: seq<Message>, n: nat): nat {
    if n == 0 then 0 else PendingBelow(msgs, n - 1) + |For(msgs, n - 1)|
  }

  lemma {:induction false} PendingAppend(init: seq<Message>, last: Message, n: nat)
    ensures PendingBelow(init + [last], n) == PendingBelow(init, n) + if last.to < n then 1 else 0
  {
    if n > 0 {
      PendingAppend(init, last, n - 1);
      assert (init + [last])[..|init|] == init;
    }
  }

  lemma {:induction false} PendingIsAll(msgs: seq<Message>)
    requires forall m :: m in msgs ==> m.to < MAX_PIDS
    ensures PendingBelow(msgs, MAX_PIDS) == |msgs|
  {
    if msgs == [] {
      NothingPending(MAX_PIDS);
    } else {
      PendingIsAll(msgs[..|msgs| - 1]);
      PendingAppend(msgs[..|msgs| - 1], msgs[|msgs| - 1], MAX_PIDS);
      assert msgs == msgs[..|msgs| - 1] + [msgs[|msgs| - 1]];
    }
  }

  lemma {:induction false} NothingPending(n: nat)
    ensures PendingBelow([], n) == 0
  {
    if n > 0 {
      NothingPending(n - 1);
    }
  }

  /** Over every run from a new queue, what each process has received is a prefix of what was
      accepted for it, and the rest is pending; the size is what the sends returned less the
      receives, and all that is pending. */
  lemma QueueRuns(creator: nat, events: seq<Event>, t: History)
    requires creator < MAX_PIDS
    requires Follows(History(Queue([], [creator], {}), [], [], [], 0, 0), events, t)
    ensures forall p :: For(t.accepted, p) == For(t.received, p) + For(t.q.msgs, p)
    ensures forall p :: For(t.received, p) <= For(t.accepted, p)
    ensures |t.q.msgs| == t.sent - t.taken == PendingBelow(t.q.msgs, MAX_PIDS)
    ensures Distinct(t.q.members) && |t.q.members| <= MAX_MEMBERS
  {
    FollowsKeeps(History(Queue([], [creator], {}), [], [], [], 0, 0), events, t);
    PendingIsAll(t.q.msgs);
  }

  /** Once `p` has blocked member `from`, nothing that names `from` as its sender is accepted
      for `p` any more; so what `from` sends itself is accepted for `p` only under the name of
      another process. */
  lemma BlockedForGood(h: History, from: nat, p: nat, events: seq<Event>, t: History)
    requires Inv(h) && from in h.q.members && Follows(Step(h, Blocks(p, from)), events, t)
    ensures h.accepted <= t.accepted && h.callers <= t.callers && |t.callers| == |t.accepted|
    ensures forall k :: |h.accepted| <= k < |t.accepted| && t.accepted[k].to == p ==>
              t.accepted[k].from != from && (t.callers[k] == from ==> t.accepted[k].from != t.callers[k])
  {
    BlockHolds(Step(h, Blocks(p, from)), events, t, from, p);
  }

  lemma {:induction false} BlockHolds(h: History, events: seq<Event>, t: History, from: nat, p: nat)
    requires Follows(h, events, t) && (from, p) in h.q.blocked && |h.callers| == |h.accepted|
    ensures h.accepted <= t.accepted && h.callers <= t.callers && |t.callers| == |t.accepted|
    ensures (from, p) in t.q.blocked
    ensures forall k :: |h.accepted| <= k < |t.accepted| ==> t.accepted[k].from != from || t.accepted[k].to != p
    decreases |events|
  {
    if events != [] {
      var g := Step(h, events[0]);
      if events[0].Sends? {
        OutgoingNotBlocked(h.q, events[0].m);
      }
      BlockHolds(g, events[1..], t, from, p);
      assert g.accepted[..|h.accepted|] == h.accepted && g.callers[..|h.callers|] == h.callers;
    }
  }

  /** A message that a process sends to a member that blocks it, alone or by broadcast, is
      stopped if and only if it names as its sender a process that the member blocks: always
      under its own name, never under that of a process that is not blocked. */
  lemma BlockStopsIff(h: History, caller: nat, m: Message, p: nat)
    requires Inv(h) && p in h.q.members && (caller, p) in h.q.blocked
    requires m.to == p || (m.to == BROADCAST_PID && m.from != p)
    ensures For(Step(h, Sends(caller, m)).accepted, p) == For(h.accepted, p) <==> (m.from, p) in h.q.blocked
    ensures m.from == caller ==> For(Step(h, Sends(caller, m)).accepted, p) == For(h.accepted, p)
  {
    ForAppend(h.accepted, Outgoing(h.q, m), p);
    BroadcastReaches(h.q.members, m, h.q.blocked, p);
    assert [m][..0] == [];
  }

  lemma OutgoingNotBlocked(q: Queue, m: Message)
    ensures forall x :: x in Outgoing(q, m) ==> (x.from, x.to) !in q.blocked
  {
    ReceiversNotBlocked(q.members, m.from, q.blocked);
  }

  lemma {:induction false} ReceiversNotBlocked(members: seq<nat>, from: nat, blocked: set<(nat, nat)>)
    ensures forall p :: p in Receivers(members, from, blocked) ==> (from, p) !in blocked
  {
    if members != [] {
      ReceiversNotBlocked(members[..|members| - 1], from, blocked);
    }
  }

  lemma {:induction false} ReceiversGrow(members: seq<nat>, i: nat, from: nat, blocked: set<(nat, nat)>)
    requires 0 < i <= |members|
    ensures var init, last := Receivers(members[..i - 1], from, blocked), members[i - 1];
            Receivers(members[..i], from, blocked) ==
            if last == from || (from, last) in blocked then init else init + [last]
    ensures |Receivers(members[..i], from, blocked)| <= |Receivers(members, from, blocked)|
    decreases |members| - i
  {
    assert members[..i][..i - 1] == members[..i - 1];
    if i < |members| {
      ReceiversGrow(members, i + 1, from, blocked);
    } else {
      assert members[..i] == members;
    }
  }

  /** A broadcast that has come to its `i`-th member. */
  ghost function SentTo(q: Queue, m: Message, i: nat): Queue
    requires i <= |q.members|
  {
    q.(msgs := q.msgs + Copies(m, Receivers(q.members[..i], m.from, q.blocked)))
  }

  lemma SentEnds(q: Queue, m: Message)
    requires m.to == BROADCAST_PID
    ensures SentTo(q, m, 0) == q
    ensures (SentTo(q, m, |q.members|), |SentTo(q, m, |q.members|).msgs| - |q.msgs|) == Send(q, m)
  {
    assert q.members[..|q.members|] == q.members && q.msgs + [] == q.msgs;
  }

  lemma SentNext(q: Queue, m: Message, i: nat)
    requires i < |q.members| && m.to == BROADCAST_PID
    ensures var last, now := q.members[i], SentTo(q, m, i);
            SentTo(q, m, i + 1) ==
            if last == m.from || (m.from, last) in q.blocked then now else now.(msgs := now.msgs + [m.(to := last)])
    ensures |SentTo(q, m, i + 1).msgs| <= |q.msgs| + |Outgoing(q, m)|
    ensures SentTo(q, m, i).blocked == q.blocked && SentTo(q, m, i).members == q.members
  {
    hide Receivers, Copies;
    ReceiversGrow(q.members, i + 1, m.from, q.blocked);
    var init, last := Receivers(q.members[..i], m.from, q.blocked), q.members[i];
    CopiesNext(m, init, last);
    CopiesNext(m, Receivers(q.members, m.from, q.blocked), last);
    assert q.msgs + (Copies(m, init) + [m.(to := last)]) == q.msgs + Copies(m, init) + [m.(to := last)];
  }

  lemma CopiesNext(m: Message, pids: seq<nat>, last: nat)
    ensures Copies(m, pids + [last]) == Copies(m, pids) + [m.(to := last)] && |Copies(m, pids)| == |pids|
  {}

  // ---- the buffer, changed in place ----

  /** A message with its whole text buffer, whatever lies behind the NUL. */
  datatype Raw = Raw(from: nat, to: nat, text: seq<char>)

  function Shown(r: Raw): Message { Message(r.from, r.to, Text(r.text)) }

  function ShownAll(rs: seq<Raw>): (ms: seq<Message>)
    ensures |ms| == |rs|
  {
    seq(|rs|, i requires 0 <= i < |rs| => Shown(rs[i]))
  }

  /** The buffer when the messages behind the `first` have been shifted down up to the `i`-th. */
  ghost function Shift(was: seq<Raw>, first: nat, i: nat, s: nat): (now: seq<Raw>)
    requires s <= |was|
    ensures |now| == |was|
  {
    seq(|was|, k requires 0 <= k < |was| => if first <= k < i && k + 1 < s then was[k + 1] else was[k])
  }

  lemma ShiftNext(was: seq<Raw>, first: nat, i: nat, s: nat)
    requires i < s <= |was|
    ensures var now := Shift(was, first, i, s);
            && now[i] == was[i]
            && Shift(was, first, i + 1, s) == if first <= i && i + 1 < s then now[i := now[i + 1]] else now
  {}

  lemma ShiftEnds(was: seq<Raw>, first: nat, s: nat)
    requires first <= s <= |was|
    ensures Shift(was, first, 0, s) == was
    ensures first == s ==> Shift(was, first, s, s) == was
  {}

  /** Shifting takes a message out. */
  lemma ShiftedOut(was: seq<Raw>, first: nat, s: nat)
    requires first < s <= |was|
    ensures ShownAll(Shift(was, first, s, s)[..s - 1]) ==
            ShownAll(was[..s])[..first] + ShownAll(was[..s])[first + 1..]
  {}

  ghost predicate Sized(rs: seq<Raw>) {
    forall i :: 0 <= i < |rs| ==> |rs[i].text| == MAX_TXT_SIZE
  }

  lemma ShiftSized(was: seq<Raw>, first: nat, i: nat, s: nat)
    requires Sized(was) && s <= |was|
    ensures Sized(Shift(was, first, i, s))
    ensures forall k :: 0 <= k < |was| ==> |was[k].text| == MAX_TXT_SIZE
  {}

  lemma ShownAt(rs: seq<Raw>, s: nat, i: nat)
    requires i < s <= |rs|
    ensures ShownAll(rs[..s])[i] == Shown(rs[i])
    ensures Shown(rs[i]).to == rs[i].to && Shown(rs[i]).from == rs[i].from && Shown(rs[i]).text == Text(rs[i].text)
  {}

  lemma ShownIs(r: Raw, r': Raw)
    requires r.from == r'.from && r.to == r'.to && Text(r.text) == Text(r'.text)
    ensures Shown(r) == Shown(r')
  {}

  /** A receive, in a buffer that holds the pending messages first. */
  lemma ReceiveIs(q: Queue, pid: nat, was: seq<Raw>, s: nat)
    requires s <= |was| && q.msgs == ShownAll(was[..s])
    ensures var first := FirstFor(q.msgs, pid);
            && (first == s ==> Receive(q, pid) == (q, None))
            && (first < s ==>
                  Receive(q, pid) == (q.(msgs := ShownAll(Shift(was, first, s, s)[..s - 1])), Some(q.msgs[first])))
  {
    var first := FirstFor(q.msgs, pid);
    if first < s {
      ShiftedOut(was, first, s);
    }
    hide ShownAll, Shift, FirstFor;
  }

  class MsgQueue {
    const msgBuffer: array<Raw>
    var qsize: nat
    const isBlocked: array2<bool>
    const memberPid: array<nat>
    var memberCount: nat
    /** Whether its memory was given back. */
    var freed: bool

    /** Members are distinct and within bounds, and a queue is freed when it has none. */
    ghost predicate Valid()
      reads this, msgBuffer, isBlocked, memberPid
    {
      && msgBuffer.Length == CAPACITY && qsize <= CAPACITY
      && Sized(msgBuffer[..])
      && Membership()
    }

    ghost predicate Membership()
      reads this`memberCount, this`freed, memberPid
    {
      && isBlocked.Length0 == MAX_PIDS && isBlocked.Length1 == MAX_PIDS
      && memberPid.Length == MAX_MEMBERS && memberCount <= MAX_MEMBERS && freed == (memberCount == 0)
      && Listable(memberPid[..memberCount])
    }

    ghost function View(): Queue
      requires Valid()
      reads this, msgBuffer, isBlocked, memberPid
    {
      Queue(ShownAll(msgBuffer[..qsize]), Members(), Blocked())
    }

    ghost function Members(): seq<nat>
      requires Membership()
      reads this`memberCount, this`freed, memberPid
    {
      memberPid[..memberCount]
    }

    ghost function Blocked(): set<(nat, nat)>
      requires isBlocked.Length0 == MAX_PIDS && isBlocked.Length1 == MAX_PIDS
      reads isBlocked
    {
      set a: nat, b: nat | a < MAX_PIDS && b < MAX_PIDS && isBlocked[a, b] :: (a, b)
    }

    /** `do_create_msg_queue` */
    constructor (pid: nat)
      requires pid < MAX_PIDS
      ensures Valid() && View() == Queue([], [pid], {})
      ensures fresh(msgBuffer) && fresh(isBlocked) && fresh(memberPid)
    {
      msgBuffer := new Raw[CAPACITY](_ => Raw(0, 0, seq(MAX_TXT_SIZE, _ => '\0')));
      isBlocked := new bool[MAX_PIDS, MAX_PIDS]((_, _) => false);
      memberPid := new nat[MAX_MEMBERS](_ => 0);
      qsize, memberCount, freed := 0, 1, false;
      new;
      memberPid[0] := pid;
    }

    /** Copies a text up to its NUL, over another. */
    static method CopyText(over: seq<char>, text: seq<char>) returns (r: seq<char>)
      requires |over| == |text| == MAX_TXT_SIZE
      ensures |r| == MAX_TXT_SIZE && Text(r) == Text(text)
    {
      r := over;
      var j := 0;
      while j < MAX_TXT_SIZE
        invariant 0 <= j <= MAX_TXT_SIZE == |r| && r[..j] == text[..j]
      {
        r := r[j := text[j]];
        assert r[..j + 1] == text[..j + 1];
        if r[j] == '\0' {
          SameText(r, text, j + 1);
          return;
        }
        j := j + 1;
      }
      SameText(r, text, MAX_TXT_SIZE);
    }

    /** Puts a copy of `msg` for `to` behind the last message. */
    method Put(msg: Raw, to: nat)
      requires Valid() && qsize < CAPACITY && |msg.text| == MAX_TXT_SIZE
      modifies this`qsize, msgBuffer
      ensures Valid() && qsize == old(qsize) + 1
      ensures View() == old(View()).(msgs := old(View()).msgs + [Shown(msg).(to := to)])
    {
      ghost var was := ShownAll(msgBuffer[..qsize]);
      var text := CopyText(msgBuffer[qsize].text, msg.text);
      msgBuffer[qsize] := Raw(msg.from, to, text);
      qsize := qsize + 1;
      assert ShownAll(msgBuffer[..qsize]) == was + [Shown(msg).(to := to)];
    }

    /** `do_msg_queue_send` */
    method DoSend(msg: Raw) returns (count: int)
      requires Valid() && |msg.text| == MAX_TXT_SIZE && msg.from < MAX_PIDS
      requires qsize + |Outgoing(View(), Shown(msg))| <= CAPACITY
      modifies this`qsize, msgBuffer
      ensures Valid() && (View(), count) == Send(old(View()), Shown(msg))
    {
      if msg.to == BROADCAST_PID {
        count := Broadcast(msg);
      } else {
        count := Unicast(msg);
      }
    }

    method Broadcast(msg: Raw) returns (count: int)
      requires Valid() && |msg.text| == MAX_TXT_SIZE && msg.from < MAX_PIDS && msg.to == BROADCAST_PID
      requires qsize + |Outgoing(View(), Shown(msg))| <= CAPACITY
      modifies this`qsize, msgBuffer
      ensures Valid() && (View(), count) == Send(old(View()), Shown(msg))
    {
      ghost var q, m := View(), Shown(msg);
      SentEnds(q, m);
      hide Text, Receivers, Distinct, ShownAll, SentTo;
      count := 0;
      var i := 0;
      while i < memberCount
        invariant 0 <= i <= memberCount && Valid() && View() == SentTo(q, m, i)
        invariant count == |SentTo(q, m, i).msgs| - |q.msgs|
      {
        var to := memberPid[i];
        SentNext(q, m, i);
        assert isBlocked[msg.from, to] <==> (msg.from, to) in View().blocked;
        if msg.from != to && !isBlocked[msg.from, to] {
          Put(msg, to);
          count := count + 1;
        }
        i := i + 1;
      }
    }

    method Unicast(msg: Raw) returns (count: int)
      requires Valid() && |msg.text| == MAX_TXT_SIZE && msg.from < MAX_PIDS && msg.to != BROADCAST_PID
      requires qsize + |Outgoing(View(), Shown(msg))| <= CAPACITY
      modifies this`qsize, msgBuffer
      ensures Valid() && (View(), count) == Send(old(View()), Shown(msg))
    {
      ghost var q, m := View(), Shown(msg);
      count := 0;
      var i := 0;
      while i < memberCount
        invariant 0 <= i <= memberCount && Valid()
        invariant if msg.to in q.members[..i]
                  then (msg.from, msg.to) !in q.blocked && count == 1 && View() == q.(msgs := q.msgs + [m])
                  else count == 0 && View() == q
      {
        var to := memberPid[i];
        assert q.members[..i + 1] == q.members[..i] + [to] && to == q.members[i];
        if to == msg.to {
          assert to !in q.members[..i];
          assert isBlocked[msg.from, to] <==> (msg.from, to) in q.blocked;
          if isBlocked[msg.from, to] {
            assert q.msgs + [] == q.msgs;
            return -EINVAL;
          }
          Put(msg, to);
          count := count + 1;
        }
        i := i + 1;
      }
      assert q.members[..i] == q.members && q.msgs + [] == q.msgs;
    }

    /** `do_msg_queue_rcv`: takes the first message for `pid` and shifts the rest. */
    method DoReceive(pid: nat, msg: Raw) returns (flag: int, out: Raw)
      requires Valid() && |msg.text| == MAX_TXT_SIZE
      modifies this`qsize, msgBuffer
      ensures Valid() && View() == Receive(old(View()), pid).0
      ensures var got := Receive(old(View()), pid).1;
              flag == (if got.Some? then 1 else 0)
              && (if got.Some? then Shown(out) == got.value else out == msg)
    {
      hide Shown, Distinct, FirstFor, Receive, Shift, ShownAll, Sized, Blocked, Membership, Members;
      ghost var was, q := msgBuffer[..], View();
      Dimensions();
      ReceiveIs(q, pid, was, qsize);
      ShiftSized(was, FirstFor(q.msgs, pid), qsize, qsize);
      ShiftEnds(was, FirstFor(q.msgs, pid), qsize);
      flag, out := TakeFirst(pid, msg);
      if flag == 1 {
        assert msgBuffer[..][..qsize - 1] == msgBuffer[..qsize - 1];
        qsize := qsize - 1;
      }
    }

    lemma Dimensions()
      requires Membership()
      ensures isBlocked.Length0 == MAX_PIDS && isBlocked.Length1 == MAX_PIDS
    {}

    /** The loop of `do_msg_queue_rcv`: what is behind the first message for `pid` moves down. */
    method TakeFirst(pid: nat, msg: Raw) returns (flag: int, out: Raw)
      requires qsize <= msgBuffer.Length && Sized(msgBuffer[..]) && |msg.text| == MAX_TXT_SIZE
      modifies msgBuffer
      ensures var was, q := old(msgBuffer[..]), ShownAll(old(msgBuffer[..qsize]));
              var first := FirstFor(q, pid);
              && msgBuffer[..] == Shift(was, first, qsize, qsize)
              && (if first < qsize then flag == 1 && Shown(out) == q[first] else flag == 0 && out == msg)
    {
      ghost var was, q := msgBuffer[..], ShownAll(msgBuffer[..qsize]);
      ghost var first := FirstFor(q, pid);
      ShiftEnds(was, first, qsize);
      hide *;
      assert was[..qsize] == msgBuffer[..qsize];
      flag, out := 0, msg;
      var s := qsize;
      var i := 0;
      while i < s
        invariant 0 <= i <= s == qsize && flag == (if i > first then 1 else 0)
        invariant if i > first then Shown(out) == q[first] else out == msg
        invariant msgBuffer[..] == Shift(was, first, i, s)
      {
        ShiftNext(was, first, i, s);
        ShownAt(was, s, i);
        ShiftSized(was, first, i, s);
        if msgBuffer[i].to == pid && flag == 0 {
          flag := 1;
          var text := CopyText(out.text, msgBuffer[i].text);
          out := Raw(msgBuffer[i].from, msgBuffer[i].to, text);
          ShownIs(out, was[i]);
        }
        if flag == 1 {
          if i + 1 < s {
            msgBuffer[i] := msgBuffer[i + 1];
          }
        }
        i := i + 1;
      }
    }

    /** `do_get_msg_count` */
    method GetMsgCount(pid: nat) returns (count: nat)
      requires Valid()
      ensures count == |For(View().msgs, pid)|
    {
      ghost var msgs := View().msgs;
      count := 0;
      var i := 0;
      while i < qsize
        invariant 0 <= i <= qsize && count == |For(msgs[..i], pid)|
      {
        assert msgs[..i + 1][..i] == msgs[..i] && msgs[i] == Shown(msgBuffer[i]);
        if msgBuffer[i].to == pid {
          count := count + 1;
        }
        i := i + 1;
      }
      assert msgs[..i] == msgs;
    }

    /** `do_msg_queue_block` */
    method DoBlock(caller: nat, pid: nat) returns (r: int)
      requires Valid() && caller < MAX_PIDS
      modifies isBlocked
      ensures Valid() && (View(), r) == Block(old(View()), caller, pid)
    {
      var i := FindMember(pid);
      if i == memberCount { return -EINVAL; }
      ghost var was := Blocked();
      isBlocked[pid, caller] := true;
      assert Blocked() == was + {(pid, caller)};
      r := 0;
    }

    method FindMember(pid: nat) returns (i: nat)
      requires Valid()
      ensures i == Index(View().members, pid) && i <= memberCount
      ensures i < memberCount <==> pid in View().members
    {
      i := 0;
      while i < memberCount && memberPid[i] != pid
        invariant 0 <= i <= memberCount
        invariant forall k :: 0 <= k < i ==> memberPid[k] != pid
      {
        i := i + 1;
      }
      assert forall k :: 0 <= k < memberCount ==> View().members[k] == memberPid[k];
    }

    /** One round of the loop of `do_add_child_to_msg_queue` */
    method AddChild(pid: nat)
      requires Valid() && 0 < memberCount < MAX_MEMBERS && pid < MAX_PIDS && pid !in View().members
      modifies this`memberCount, memberPid
      ensures Valid() && View() == Join(old(View()), pid)
    {
      memberPid[memberCount] := pid;
      memberCount := memberCount + 1;
    }

    /** `do_msg_queue_close` */
    method DoClose(pid: nat)
      requires Valid() && memberCount > 0 && (pid in View().members || memberCount < MAX_MEMBERS)
      modifies this`memberCount, this`freed, memberPid
      ensures Valid() && View() == Leave(old(View()), pid)
      ensures freed <==> old(memberCount) == 1
    {
      ghost var q, was := View(), memberPid[..];
      LeaveListable(q, pid);
      LeaveIs(q, pid, was);
      hide Listable, Index, Leave, ShownAll, Sized, Blocked;
      var i := FindMember(pid);
      var x := memberCount;
      memberPid[i] := memberPid[x - 1];
      memberCount := memberCount - 1;
      assert memberPid[..] == was[i := was[x - 1]] && memberPid[..memberCount] == memberPid[..][..x - 1];
      if x == 1 {
        freed := true;
      }
    }
  }

  /** The queues behind a process' descriptors, each behind one of them, can take one more member. */
  ghost predicate CanJoin(files: seq<MsgQueue?>, pid: nat)
    reads set q | q in files, set q: MsgQueue | q in files :: q.msgBuffer
    reads set q: MsgQueue | q in files :: q.isBlocked, set q: MsgQueue | q in files :: q.memberPid
  {
    && pid < MAX_PIDS
    && (forall i, j :: 0 <= i < j < |files| && files[i] != null && files[j] != null ==>
          files[i] != files[j] && files[i].memberPid != files[j].memberPid)
    && forall i :: 0 <= i < |files| && files[i] != null ==>
         files[i].Valid() && 0 < files[i].memberCount < MAX_MEMBERS && pid !in files[i].View().members
  }

  /** `do_add_child_to_msg_queue` */
  method AddChildToAll(files: seq<MsgQueue?>, pid: nat)
    requires CanJoin(files, pid)
    modifies set q | q in files && q != null, set q: MsgQueue | q in files :: q.memberPid
    ensures forall q: MsgQueue :: q in files ==>
              q.Valid() && q.View() == Join(old(q.View()), pid)
  {
    hide MsgQueue.Valid, MsgQueue.View, Join;
    var i := 0;
    while i < |files|
      invariant 0 <= i <= |files|
      invariant forall k :: 0 <= k < i && files[k] != null ==>
        files[k].Valid() && files[k].View() == Join(old(files[k].View()), pid)
      invariant forall k :: i <= k < |files| && files[k] != null ==>
        && files[k].Valid() && files[k].View() == old(files[k].View())
          && files[k].memberCount == old(files[k].memberCount)
    {
      if files[i] != null {
        files[i].AddChild(pid);
      }
      i := i + 1;
    }
  }
}
