/** What making and breaking huge pages does to the list of areas. */
module HugeOps {
  import opened Words
  import opened Areas
  import opened AreaOps

  // ---- the scans of vm_area_make_hugepage ----

  /** `overlap` with its `int` parameters. */
  predicate Overlap(start1: nat, end1: nat, start2: nat, end2: nat) {
    ToInt(end1) > ToInt(start2) && ToInt(end2) > ToInt(start1)
  }

  /** First scan: some gap between a node and the next one, starting from the dummy, meets the request. */
  predicate GapHit(prevEnd: nat, areas: seq<Area>, x: nat, end: nat)
    decreases areas
  {
    areas != [] && ((areas[0].start != prevEnd && Overlap(prevEnd, areas[0].start, x, end))
                    || GapHit(areas[0].end, areas[1..], x, end))
  }

  /** Second scan: some huge area meets the request. */
  predicate HugeHit(areas: seq<Area>, x: nat, end: nat) {
    areas != [] && ((areas[0].kind == HugePage && Overlap(areas[0].start, areas[0].end, x, end))
                    || HugeHit(areas[1..], x, end))
  }

  /** Third scan: some area with other protection meets the request. */
  predicate ProtHit(areas: seq<Area>, x: nat, end: nat, prot: nat) {
    areas != [] && ((Overlap(areas[0].start, areas[0].end, x, end) && areas[0].flags != prot)
                    || ProtHit(areas[1..], x, end, prot))
  }

  datatype Verdict = EINVAL | ENOMAPPING | EVMAOCCUPIED | EDIFFPROT | Accepted

  function Scan(areas: seq<Area>, addr: nat, length: nat, prot: nat, force: bool): Verdict {
    if addr == 0 || length == 0 then EINVAL
    else if GapHit(DUMMY_END, areas, addr, addr + length) then ENOMAPPING
    else if HugeHit(areas, addr, addr + length) then EVMAOCCUPIED
    else if !force && ProtHit(areas, addr, addr + length, prot) then EDIFFPROT
    else Accepted
  }

  const GIB4 := 0x1_0000_0000

  /** The windows of 4 GiB on each of which the conversion to `int` keeps the order. */
  predicate In(w: nat, x: nat) { w * GIB4 <= x + GIB4 / 2 < (w + 1) * GIB4 }

  /** The one in which the list begins. */
  predicate InWindow(x: nat) { In(2, x) }

  lemma WindowShift(w: nat, x: nat)
    requires In(w, x)
    ensures ToInt(x) == x - w * GIB4
  {
    if x >= w * GIB4 {
      assert x % GIB4 == x - w * GIB4;
    } else {
      assert x % GIB4 == x - (w - 1) * GIB4;
    }
  }

  /** The conversion keeps the order of a range of addresses if and only if one window holds it. */
  lemma OrderKeptIff(lo: nat, hi: nat)
    requires lo <= hi
    ensures (forall a: nat, b: nat :: lo <= a < b <= hi ==>
      ToInt(a) < ToInt(b)) <==> exists w: nat :: In(w, lo) && In(w, hi)
  {
    var w := (lo + GIB4 / 2) / GIB4;
    assert In(w, lo);
    if In(w, hi) {
      forall a: nat, b: nat | lo <= a < b <= hi
        ensures ToInt(a) < ToInt(b)
      {
        WindowShift(w, a);
        WindowShift(w, b);
      }
    } else {
      var b := (w + 1) * GIB4 - GIB4 / 2;
      WindowShift(w, b - 1);
      WindowShift(w + 1, b);
      assert lo <= b - 1 < b <= hi && ToInt(b - 1) > ToInt(b);
      forall v: nat
        ensures !(In(v, lo) && In(v, hi))
      {
        assert In(v, lo) ==> v == w;
      }
    }
  }

  lemma OverlapInWindow(w: nat, start1: nat, end1: nat, start2: nat, end2: nat)
    requires In(w, start1) && In(w, end1) && In(w, start2) && In(w, end2)
    ensures Overlap(start1, end1, start2, end2) <==> end1 > start2 && end2 > start1
  {
    WindowShift(w, start1);
    WindowShift(w, end1);
    WindowShift(w, start2);
    WindowShift(w, end2);
    hide ToInt;
  }

  /** Across two windows the scan can miss a gap: here the only area starts at
      0x280000000 and the request lies wholly in the gap before it. */
  lemma OverlapMissesAGap()
    ensures Scan([Area(0x2_8000_0000, 0x2_8000_1000, 1, Normal)], DUMMY_END, 0x1000, 1, false) == Accepted
    ensures Lookup([Area(0x2_8000_0000, 0x2_8000_1000, 1, Normal)], DUMMY_END).None?
  {
    var areas := [Area(0x2_8000_0000, 0x2_8000_1000, 1, Normal)];
    assert areas[1..] == [];
    assert ToInt(0x2_8000_0000) == -0x8000_0000 && ToInt(0x2_8000_1000) == -0x7FFF_F000;
    assert ToInt(DUMMY_END) == -0x7FDF_F000;
    assert !GapHit(DUMMY_END, areas, DUMMY_END, DUMMY_END + 0x1000);
    assert !HugeHit(areas, DUMMY_END, DUMMY_END + 0x1000);
    assert !ProtHit(areas, DUMMY_END, DUMMY_END + 0x1000, 1);
    assert Find(areas, DUMMY_END) == None;
  }

  ghost predicate AllIn(w: nat, areas: seq<Area>) {
    forall ar :: ar in areas ==> In(w, ar.start) && In(w, ar.end)
  }

  ghost predicate AllInWindow(areas: seq<Area>) { AllIn(2, areas) }

  /** Some address of the request lies below a mapped area, above `prevEnd`, and is not mapped. */
  ghost predicate Hole(prevEnd: nat, areas: seq<Area>, x: nat, end: nat) {
    exists a: nat :: x <= a < end && prevEnd <= a && Lookup(areas, a).None? && exists ar :: ar in areas && a < ar.start
  }

  lemma {:induction false} GapMeansHole(w: nat, prevEnd: nat, areas: seq<Area>, x: nat, end: nat)
    requires WellFormed(areas) && AllIn(w, areas) && In(w, prevEnd) && In(w, x) && In(w, end) && x < end
    requires forall ar :: ar in areas ==> prevEnd <= ar.start
    ensures GapHit(prevEnd, areas, x, end) <==> Hole(prevEnd, areas, x, end)
    decreases areas
  {
    if areas != [] {
      var first, rest := areas[0], areas[1..];
      Tail(areas);
      assert first in areas && areas == [first] + rest;
      OverlapInWindow(w, prevEnd, first.start, x, end);
      GapMeansHole(w, first.end, rest, x, end);
      if first.start != prevEnd && Overlap(prevEnd, first.start, x, end) {
        HoleBefore(prevEnd, areas, x, end);
      } else {
        if GapHit(first.end, rest, x, end) {
          HoleBelow(prevEnd, areas, x, end);
        }
        if Hole(prevEnd, areas, x, end) {
          HoleAfter(prevEnd, areas, x, end);
        }
      }
    }
  }

  lemma HoleBefore(prevEnd: nat, areas: seq<Area>, x: nat, end: nat)
    requires WellFormed(areas) && areas != [] && x < end
    requires prevEnd < areas[0].start && areas[0].start > x && end > prevEnd
    ensures Hole(prevEnd, areas, x, end)
  {
    var a := if x > prevEnd then x else prevEnd;
    Tail(areas);
    FindIn(areas[1..], a);
    assert Lookup(areas, a).None?;
    assert areas[0] in areas && a < areas[0].start;
  }

  lemma HoleAfter(prevEnd: nat, areas: seq<Area>, x: nat, end: nat)
    requires WellFormed(areas) && areas != [] && prevEnd <= areas[0].start
    requires !(prevEnd < areas[0].start && areas[0].start > x && end > prevEnd)
    requires Hole(prevEnd, areas, x, end)
    ensures Hole(areas[0].end, areas[1..], x, end)
  {
    var a: nat :| x <= a < end && prevEnd <= a && Lookup(areas, a).None? && exists ar :: ar in areas && a < ar.start;
    var ar :| ar in areas && a < ar.start;
    assert a >= areas[0].end;
    assert ar in areas[1..] && Lookup(areas[1..], a).None?;
  }

  lemma HoleBelow(prevEnd: nat, areas: seq<Area>, x: nat, end: nat)
    requires WellFormed(areas) && areas != [] && prevEnd <= areas[0].start
    requires Hole(areas[0].end, areas[1..], x, end)
    ensures Hole(prevEnd, areas, x, end)
  {
    var a: nat :| x <= a < end && areas[0].end <= a && Lookup(areas[1..], a).None? &&
                  exists ar :: ar in areas[1..] && a < ar.start;
    var ar :| ar in areas[1..] && a < ar.start;
    assert ar in areas && Lookup(areas, a).None?;
  }

  ghost predicate SomeMapped(areas: seq<Area>, x: nat, end: nat, t: Attr -> bool) {
    exists a: nat :: x <= a < end && Lookup(areas, a).Some? && t(Lookup(areas, a).value)
  }

  /** An area with the property meets the request exactly when some address of the request has it. */
  lemma {:induction false} MeetsMeansMapped(areas: seq<Area>, x: nat, end: nat, t: Attr -> bool)
    requires WellFormed(areas) && x < end
    ensures (exists ar :: ar in areas && ar.end > x && end > ar.start && t(AttrOf(ar)))
      <==> SomeMapped(areas, x, end, t)
  {
    if ar :| ar in areas && ar.end > x && end > ar.start && t(AttrOf(ar)) {
      var a := if x > ar.start then x else ar.start;
      FindOnly(areas, ar, a);
      assert Lookup(areas, a) == Some(AttrOf(ar));
    }
    if SomeMapped(areas, x, end, t) {
      var a: nat :| x <= a < end && Lookup(areas, a).Some? && t(Lookup(areas, a).value);
      FindIn(areas, a);
      assert Find(areas, a).value in areas;
    }
  }

  lemma {:induction false} HugeHitMeans(w: nat, areas: seq<Area>, x: nat, end: nat)
    requires AllIn(w, areas) && In(w, x) && In(w, end)
    ensures HugeHit(areas, x, end) <==>
            exists ar :: ar in areas && ar.end > x && end > ar.start && AttrOf(ar).kind == HugePage
  {
    if areas != [] {
      assert areas == [areas[0]] + areas[1..];
      OverlapInWindow(w, areas[0].start, areas[0].end, x, end);
      HugeHitMeans(w, areas[1..], x, end);
    }
  }

  lemma {:induction false} ProtHitMeans(w: nat, areas: seq<Area>, x: nat, end: nat, prot: nat)
    requires AllIn(w, areas) && In(w, x) && In(w, end)
    ensures ProtHit(areas, x, end, prot) <==>
            exists ar :: ar in areas && ar.end > x && end > ar.start && AttrOf(ar).flags != prot
  {
    if areas != [] {
      assert areas == [areas[0]] + areas[1..];
      OverlapInWindow(w, areas[0].start, areas[0].end, x, end);
      ProtHitMeans(w, areas[1..], x, end, prot);
    }
  }

  /** What the first scan finds: part of the request unmapped below the last area.  When an area
      lies below the dummy's end, the gap before the first area is the wrong way round: a request
      meets it that starts below that area and ends above the dummy. */
  ghost predicate GapFound(areas: seq<Area>, x: nat, end: nat) {
    if AboveDummy(areas) then Hole(DUMMY_END, areas, x, end)
    else areas != [] && ((x < areas[0].start && DUMMY_END < end) || Hole(areas[0].end, areas[1..], x, end))
  }

  lemma GapHitMeans(areas: seq<Area>, x: nat, end: nat)
    requires WellFormed(areas) && AllInWindow(areas) && InWindow(x) && InWindow(end) && x < end
    ensures GapHit(DUMMY_END, areas, x, end) <==> GapFound(areas, x, end)
  {
    if AboveDummy(areas) {
      GapMeansHole(2, DUMMY_END, areas, x, end);
    } else {
      var first, rest := areas[0], areas[1..];
      Tail(areas);
      assert first in areas && areas == [first] + rest && Sane(first);
      OverlapInWindow(2, DUMMY_END, first.start, x, end);
      GapMeansHole(2, first.end, rest, x, end);
    }
    hide Hole;
  }

  /** A request that is mapped throughout meets no gap. */
  lemma NoGapFound(areas: seq<Area>, x: nat, end: nat)
    requires WellFormed(areas) && x < end && forall a: nat :: x <= a < end ==> Lookup(areas, a).Some?
    ensures !GapFound(areas, x, end)
  {
    if !AboveDummy(areas) {
      assert Lookup(areas, x).Some?;
      FindIn(areas, x);
      Tail(areas);
      assert areas == [areas[0]] + areas[1..] && Sane(areas[0]);
      assert areas[0].start <= x;
      forall a: nat | x <= a < end && areas[0].end <= a
        ensures Lookup(areas[1..], a).Some?
      {
        assert Lookup(areas, a).Some?;
      }
    }
  }

  /** In the window the three scans answer, in this order, exactly: the first as just said; is
      part of the request huge already; unless forced, does part of it have another protection. */
  lemma ScanExact(areas: seq<Area>, addr: nat, length: nat, prot: nat, force: bool)
    requires WellFormed(areas) && AllInWindow(areas)
    requires InWindow(addr) && InWindow(addr + length) && length > 0
    ensures var end := addr + length;
            Scan(areas, addr, length, prot, force) ==
            if GapFound(areas, addr, end) then ENOMAPPING
            else if SomeMapped(areas, addr, end, (t: Attr) => t.kind == HugePage) then EVMAOCCUPIED
            else if !force && SomeMapped(areas, addr, end, (t: Attr) => t.flags != prot) then EDIFFPROT
            else Accepted
  {
    GapHitMeans(areas, addr, addr + length);
    HugeHitMapped(areas, addr, addr + length);
    ProtHitMapped(areas, addr, addr + length, prot);
    hide WellFormed, AllInWindow, GapHit, HugeHit, ProtHit, GapFound, SomeMapped;
  }

  lemma HugeHitMapped(areas: seq<Area>, x: nat, end: nat)
    requires WellFormed(areas) && AllInWindow(areas) && InWindow(x) && InWindow(end) && x < end
    ensures HugeHit(areas, x, end) <==> SomeMapped(areas, x, end, (t: Attr) => t.kind == HugePage)
  {
    HugeHitMeans(2, areas, x, end);
    MeetsMeansMapped(areas, x, end, (t: Attr) => t.kind == HugePage);
    hide WellFormed, AllInWindow, HugeHit, SomeMapped;
  }

  lemma ProtHitMapped(areas: seq<Area>, x: nat, end: nat, prot: nat)
    requires WellFormed(areas) && AllInWindow(areas) && InWindow(x) && InWindow(end) && x < end
    ensures ProtHit(areas, x, end, prot) <==> SomeMapped(areas, x, end, (t: Attr) => t.flags != prot)
  {
    ProtHitMeans(2, areas, x, end, prot);
    MeetsMeansMapped(areas, x, end, (t: Attr) => t.flags != prot);
    hide WellFormed, AllInWindow, ProtHit, SomeMapped;
  }

  // ---- carving out the range of a new huge area ----

  /** What one round leaves of the area it visits: the piece it has passed, and the piece
      it visits next. */
  function CarveVisit(cur: Area, x: nat, l: nat): (seq<Area>, seq<Area>) {
    if cur.start >= x && cur.end <= l then ([], [])
    else if cur.end > x && cur.start <= x then
      (if cur.start != x then [cur.(end := x)] else [], if cur.end > l then [cur.(start := l)] else [])
    else ([cur], [])
  }

  /** One round of the loop of `vm_area_make_hugepage`, at position `i`: the list and the
      position after it. */
  function CarveStep(areas: seq<Area>, i: nat, x: nat, l: nat): (seq<Area>, nat)
    requires i < |areas|
  {
    var (passed, next) := CarveVisit(areas[i], x, l);
    (Spliced(areas, i, passed, next), i + |passed|)
  }

  /** The part of an area outside [`x`, `l`). */
  function CarveOne(ar: Area, x: nat, l: nat): seq<Area> {
    if ar.start >= x && ar.end <= l then []
    else if ar.end > x && ar.start <= x then
      (if ar.start != x then [ar.(end := x)] else []) + (if ar.end > l then [ar.(start := l)] else [])
    else [ar]
  }

  function Carve(areas: seq<Area>, x: nat, l: nat): seq<Area> {
    Refine(areas, ar => CarveOne(ar, x, l))
  }

  /** What the loop will have made of the list once the rest of it is carved. */
  function CarveRest(areas: seq<Area>, i: nat, x: nat, l: nat): seq<Area>
    requires i <= |areas|
  {
    areas[..i] + Carve(areas[i..], x, l)
  }

  /** No round ever finds an area that covers `x` when there is no full block. */
  ghost predicate CanCarve(areas: seq<Area>, x: nat, l: nat) {
    x < l || forall ar :: ar in areas ==> !Contains(ar, x)
  }

  lemma CarveStepParts(areas: seq<Area>, i: nat, x: nat, l: nat)
    requires i < |areas|
    ensures var (passed, next) := CarveVisit(areas[i], x, l);
            var (out, k) := CarveStep(areas, i, x, l);
            && k <= |out| && out[..k] == areas[..i] + passed && out[k..] == next + areas[i + 1..]
            && areas[i..] == [areas[i]] + areas[i + 1..]
  {
    hide CarveVisit;
  }

  lemma CarveRestKeeps(areas: seq<Area>, i: nat, x: nat, l: nat)
    requires i < |areas| && areas[i].start < areas[i].end && (x < l || !Contains(areas[i], x))
    ensures var (out, k) := CarveStep(areas, i, x, l);
            k <= |out| && CarveRest(out, k, x, l) == CarveRest(areas, i, x, l)
            && ToCarve(out[k..], x) < ToCarve(areas[i..], x)
  {
    hide *;
    var cur, before, rest := areas[i], areas[..i], areas[i + 1..];
    var (passed, next) := CarveVisit(cur, x, l);
    var (out, k) := CarveStep(areas, i, x, l);
    CarveStepParts(areas, i, x, l);
    CarveCons(cur, rest, x, l);
    VisitCarves(cur, rest, x, l);
    RestIs(areas, i, x, l);
    RestIs(out, k, x, l);
    Assoc(before, passed, Carve(next + rest, x, l));
  }

  lemma RestIs(areas: seq<Area>, i: nat, x: nat, l: nat)
    requires i <= |areas|
    ensures CarveRest(areas, i, x, l) == areas[..i] + Carve(areas[i..], x, l)
  {}

  /** Each round of the loop keeps what the whole loop computes, and leaves less to do. */
  lemma CarveStepKeeps(areas: seq<Area>, i: nat, x: nat, l: nat)
    requires i < |areas| && CanCarve(areas, x, l) && forall ar :: ar in areas ==> ar.start < ar.end
    ensures var (out, k) := CarveStep(areas, i, x, l);
            && k <= |out| && CanCarve(out, x, l) && (forall ar :: ar in out ==> ar.start < ar.end)
            && CarveRest(out, k, x, l) == CarveRest(areas, i, x, l)
            && ToCarve(out[k..], x) < ToCarve(areas[i..], x)
  {
    assert areas[i] in areas;
    CarveStepMembers(areas, i, x, l);
    CarveRestKeeps(areas, i, x, l);
  }

  lemma CarveStepMembers(areas: seq<Area>, i: nat, x: nat, l: nat)
    requires i < |areas| && CanCarve(areas, x, l) && forall ar :: ar in areas ==> ar.start < ar.end
    ensures var (out, k) := CarveStep(areas, i, x, l);
            CanCarve(out, x, l) && forall ar :: ar in out ==> ar.start < ar.end
  {
    assert areas[i] in areas;
    VisitCarves(areas[i], [], x, l);
    hide CarveVisit, Contains;
  }

  lemma VisitCarves(cur: Area, rest: seq<Area>, x: nat, l: nat)
    requires cur.start < cur.end && (x < l || !Contains(cur, x))
    ensures var (passed, next) := CarveVisit(cur, x, l);
            && passed + Carve(next + rest, x, l) == CarveOne(cur, x, l) + Carve(rest, x, l)
            && ToCarve(next + rest, x) < (if Contains(cur, x) then 2 else 1) + ToCarve(rest, x)
            && (forall p :: p in passed + next ==> p.start < p.end)
            && (!Contains(cur, x) ==> forall p :: p in passed + next ==> p == cur)
  {
    var (passed, next) := CarveVisit(cur, x, l);
    if next != [] {
      CarveCons(next[0], rest, x, l);
      assert next == [next[0]] && CarveOne(next[0], x, l) == next;
      assert CarveOne(cur, x, l) == passed + next;
      assert passed + (next + Carve(rest, x, l)) == (passed + next) + Carve(rest, x, l);
    } else {
      assert next + rest == rest;
      assert CarveOne(cur, x, l) == passed;
    }
  }

  lemma CarveCons(ar: Area, rest: seq<Area>, x: nat, l: nat)
    ensures Carve([ar] + rest, x, l) == CarveOne(ar, x, l) + Carve(rest, x, l)
    ensures ToCarve([ar] + rest, x) == (if Contains(ar, x) then 2 else 1) + ToCarve(rest, x)
  {
    assert ([ar] + rest)[1..] == rest;
  }

  /** Rounds left: an area that covers `x` may leave a second piece to visit. */
  function ToCarve(areas: seq<Area>, x: nat): nat {
    if areas == [] then 0 else (if Contains(areas[0], x) then 2 else 1) + ToCarve(areas[1..], x)
  }

  function CarveRun(areas: seq<Area>, i: nat, x: nat, l: nat, rounds: nat): (seq<Area>, nat)
    decreases rounds
  {
    if rounds == 0 || i >= |areas| then (areas, i)
    else
      var (out, k) := CarveStep(areas, i, x, l);
      CarveRun(out, k, x, l, rounds - 1)
  }

  /** Without a full block, an area that covers `x` keeps the loop going for ever. */
  lemma {:induction false} CarveNeverEnds(areas: seq<Area>, i: nat, j: nat, x: nat, l: nat, rounds: nat)
    requires l <= x && i <= j < |areas| && Contains(areas[j], x)
    requires forall ar :: ar in areas ==> ar.start < ar.end
    ensures var (out, k) := CarveRun(areas, i, x, l, rounds); k < |out|
    decreases rounds
  {
    if rounds > 0 {
      var (out, k) := CarveStep(areas, i, x, l);
      CarveStepOnward(areas, i, j, x, l);
      hide CarveStep, Contains;
      var next: nat := if Contains(areas[i], x) then k else j;
      CarveNeverEnds(out, k, next, x, l, rounds - 1);
    }
  }

  /** Without a full block, a round leaves an area that covers `x` to visit. */
  lemma CarveStepOnward(areas: seq<Area>, i: nat, j: nat, x: nat, l: nat)
    requires l <= x && i <= j < |areas| && Contains(areas[j], x)
    requires forall ar :: ar in areas ==> ar.start < ar.end
    ensures var (out, k) := CarveStep(areas, i, x, l);
            && (forall ar :: ar in out ==> ar.start < ar.end)
            && (if Contains(areas[i], x) then k < |out| && Contains(out[k], x)
                else k <= j < |out| && out[j] == areas[j])
  {
    var cur := areas[i];
    var (out, k) := CarveStep(areas, i, x, l);
    var (passed, next) := CarveVisit(cur, x, l);
    assert cur in areas;
    if Contains(cur, x) {
      assert next == [cur.(start := l)] && out[k] == next[0];
      assert forall p :: p in passed + next ==> p.start < p.end;
    } else {
      assert out == areas;
    }
  }

  // ---- make_hugepage ----

  /** The list after a request that the scans accept. */
  function MakeHuge(areas: seq<Area>, x: nat, l: nat, prot: nat): seq<Area> {
    Insert(Carve(areas, x, l), Area(x, l, prot, HugePage))
  }

  ghost predicate NothingHuge(areas: seq<Area>, x: nat, l: nat) {
    forall ar :: ar in areas && ar.end > x && l > ar.start ==> ar.kind == Normal
  }

  predicate Straddles(ar: Area, x: nat, l: nat) { x < ar.start < l < ar.end }

  lemma CarvePieces(ar: Area, x: nat, l: nat, a: nat)
    requires Sane(ar) && x < l && x % PAGE_SIZE == 0 && l % PAGE_SIZE == 0
    ensures PiecesOf(ar, CarveOne(ar, x, l))
    ensures !Straddles(ar, x, l) && Contains(ar, a) ==> (Find(CarveOne(ar, x, l), a).Some? <==> !(x <= a < l))
    ensures !Straddles(ar, x, l) ==> forall p :: p in CarveOne(ar, x, l) ==> p.end <= x || l <= p.start
    ensures Straddles(ar, x, l) ==> CarveOne(ar, x, l) == [ar]
  {
    hide CarveOne, Outside, PiecesOf, Find, Straddles;
    CarveOutside(ar, x, l);
    var lo := if x > ar.start then x else ar.start;
    var hi := if l < ar.end then l else ar.end;
    if lo < hi && !Straddles(ar, x, l) {
      OutsidePieces(ar, lo, hi);
      OutsideFind(ar, lo, hi, a);
    } else {
      WholePiece(ar, a);
    }
  }

  lemma CarveOutside(ar: Area, x: nat, l: nat)
    requires ar.start < ar.end && x < l
    ensures var lo := if x > ar.start then x else ar.start;
            var hi := if l < ar.end then l else ar.end;
            CarveOne(ar, x, l) == if lo < hi && !Straddles(ar, x, l) then Outside(ar, lo, hi) else [ar]
    ensures !Straddles(ar, x, l) ==> forall p :: p in CarveOne(ar, x, l) ==> p.end <= x || l <= p.start
  {}

  lemma CarveExact(areas: seq<Area>, x: nat, l: nat)
    requires WellFormed(areas) && x < l && x % PAGE_SIZE == 0 && l % PAGE_SIZE == 0
    ensures WellFormed(Carve(areas, x, l))
    ensures (forall ar :: ar in areas ==> !Straddles(ar, x, l)) ==>
              && (forall p :: p in Carve(areas, x, l) ==> p.end <= x || l <= p.start)
              && forall a: nat :: Lookup(Carve(areas, x, l), a) == if x <= a < l then None else Lookup(areas, a)
  {
    var cut := ar => CarveOne(ar, x, l);
    SaneAreas(areas);
    forall ar | ar in areas
      ensures PiecesOf(ar, cut(ar))
    {
      CarvePieces(ar, x, l, 0);
    }
    RefineWellFormed(areas, cut);
    if forall ar :: ar in areas ==> !Straddles(ar, x, l) {
      forall a: nat
        ensures Lookup(Carve(areas, x, l), a) == if x <= a < l then None else Lookup(areas, a)
      {
        RefineFind(areas, cut, a);
        FindIn(areas, a);
        match Find(areas, a)
        case None =>
        case Some(ar) =>
          CarvePieces(ar, x, l, a);
          FindIn(CarveOne(ar, x, l), a);
      }
      CarveClear(areas, x, l);
    }
  }

  lemma {:induction false} CarveClear(areas: seq<Area>, x: nat, l: nat)
    requires x < l && x % PAGE_SIZE == 0 && l % PAGE_SIZE == 0
    requires forall ar :: ar in areas ==> Sane(ar) && !Straddles(ar, x, l)
    ensures forall p :: p in Carve(areas, x, l) ==> p.end <= x || l <= p.start
  {
    if areas != [] {
      CarvePieces(areas[0], x, l, 0);
      CarveClear(areas[1..], x, l);
    }
  }

  /** A straddling area keeps its addresses: the new node goes in behind it. */
  lemma {:induction false} InsertBehind(areas: seq<Area>, node: Area, s: Area)
    requires WellFormed(areas) && s in areas && node.start < s.start < node.end < s.end
    ensures Find(Insert(areas, node), s.start) == Some(s)
  {
    Tail(areas);
    if s != areas[0] {
      assert s in areas[1..];
      assert areas[1].start <= s.start;
      InsertBehind(areas[1..], node, s);
      assert ([areas[0]] + Insert(areas[1..], node))[1..] == Insert(areas[1..], node);
    } else {
      assert !Joins(s, node);
    }
  }

  /** The list says: huge with the new protection on [`x`, `l`), and what it said before elsewhere. */
  ghost predicate MadeHugeExactly(areas: seq<Area>, out: seq<Area>, x: nat, l: nat, prot: nat) {
    forall a: nat :: Lookup(out, a) == if x <= a < l then Some(Attr(prot, HugePage)) else Lookup(areas, a)
  }

  /** Once accepted, a request with a full block has exactly its intended effect on the list
      if and only if no area starts inside the block range and runs past its end. */
  lemma MakeHugeExactIff(areas: seq<Area>, x: nat, l: nat, prot: nat)
    requires WellFormed(areas) && x < l <= TOP && x % PAGE_SIZE == 0 && l % PAGE_SIZE == 0
    requires NothingHuge(areas, x, l)
    ensures MadeHugeExactly(areas, MakeHuge(areas, x, l, prot), x, l, prot)
            <==> forall ar :: ar in areas ==> !Straddles(ar, x, l)
    ensures WellFormed(MakeHuge(areas, x, l, prot)) <==> forall ar :: ar in areas ==> !Straddles(ar, x, l)
  {
    if s :| s in areas && Straddles(s, x, l) {
      StraddlerSpoils(areas, x, l, prot, s);
    } else {
      MakeHugeExact(areas, x, l, prot);
    }
    hide *;
  }

  lemma MakeHugeExact(areas: seq<Area>, x: nat, l: nat, prot: nat)
    requires WellFormed(areas) && x < l <= TOP && x % PAGE_SIZE == 0 && l % PAGE_SIZE == 0
    requires forall ar :: ar in areas ==> !Straddles(ar, x, l)
    ensures MadeHugeExactly(areas, MakeHuge(areas, x, l, prot), x, l, prot) && WellFormed(MakeHuge(areas, x, l, prot))
  {
    CarveExact(areas, x, l);
    hide Carve, Insert, WellFormed, Lookup;
    InsertExact(Carve(areas, x, l), Area(x, l, prot, HugePage));
  }

  lemma StraddlerSpoils(areas: seq<Area>, x: nat, l: nat, prot: nat, s: Area)
    requires WellFormed(areas) && x < l <= TOP && x % PAGE_SIZE == 0 && l % PAGE_SIZE == 0
    requires NothingHuge(areas, x, l) && s in areas && Straddles(s, x, l)
    ensures !MadeHugeExactly(areas, MakeHuge(areas, x, l, prot), x, l, prot) && !WellFormed(MakeHuge(areas, x, l, prot))
  {
    CarveExact(areas, x, l);
    StraddlerStays(areas, x, l, prot, s);
    hide Carve, Insert, WellFormed, Lookup;
    InsertWellFormedIff(Carve(areas, x, l), Area(x, l, prot, HugePage));
  }

  /** An area that starts inside the block range and runs past its end is left where it is. */
  lemma StraddlerStays(areas: seq<Area>, x: nat, l: nat, prot: nat, s: Area)
    requires WellFormed(areas) && x < l && x % PAGE_SIZE == 0 && l % PAGE_SIZE == 0 && s in areas && Straddles(s, x, l)
    ensures s in Carve(areas, x, l) && Lookup(MakeHuge(areas, x, l, prot), s.start) == Some(AttrOf(s))
  {
    CarveExact(areas, x, l);
    CarveKeeps(areas, x, l, s);
    hide WellFormed, Carve, Insert;
    InsertBehind(Carve(areas, x, l), Area(x, l, prot, HugePage), s);
  }

  lemma {:induction false} CarveNothing(areas: seq<Area>, x: nat, l: nat)
    requires l <= x && forall ar :: ar in areas ==> ar.start < ar.end && !Contains(ar, x)
    ensures Carve(areas, x, l) == areas
  {
    if areas != [] {
      assert areas[0] in areas && forall ar :: ar in areas[1..] ==> ar in areas;
      CarveNothing(areas[1..], x, l);
      assert CarveOne(areas[0], x, l) == [areas[0]];
    }
  }

  /** A node that does not end behind its start leaves a well-formed list if and only if it
      merges away, into an area that ends where the node starts and is cut to end with it. */
  lemma {:induction false} InsertReversedIff(areas: seq<Area>, node: Area)
    requires WellFormed(areas) && node.end <= node.start && node.end % PAGE_SIZE == 0
    requires forall ar :: ar in areas ==> !Contains(ar, node.start)
    ensures WellFormed(Insert(areas, node)) <==> exists ar :: ar in areas && Joins(ar, node) && ar.start < node.end
  {
    var out := Insert(areas, node);
    if areas == [] || areas[0].start >= node.end {
      PushReversed(areas, node);
      AllFromHead(areas, node);
      NotSane(out, 0);
    } else {
      var head, rest := areas[0], areas[1..];
      Tail(areas);
      assert head in areas && areas == [head] + rest && Sane(head);
      if |areas| > 1 && areas[1].start < node.end {
        assert rest[0] in areas;
        InsertReversedIff(rest, node);
        ReversedHead(head, rest, node);
      } else if Joins(head, node) {
        assert |areas| > 1 ==> !Joins(head.(end := node.end), areas[1]);
        assert out == [head.(end := node.end)] + rest;
        Cons(head.(end := node.end), rest);
      } else {
        PushReversed(rest, node);
        assert out == [head] + PushFront(node, rest);
        OnlyHeadJoins(areas, node);
        NotSane(out, 1);
      }
    }
  }

  lemma PushReversed(rest: seq<Area>, node: Area)
    requires node.end <= node.start && (rest != [] ==> Sane(rest[0]) && !Contains(rest[0], node.start))
    ensures !Sane(PushFront(node, rest)[0])
  {}

  lemma AllFromHead(areas: seq<Area>, node: Area)
    requires WellFormed(areas) && (areas == [] || areas[0].start >= node.end)
    ensures forall ar :: ar in areas ==> ar.start >= node.end
  {
    SaneAreas(areas);
    if areas != [] {
      Tail(areas);
      assert areas == [areas[0]] + areas[1..];
    }
  }

  lemma OnlyHeadJoins(areas: seq<Area>, node: Area)
    requires WellFormed(areas) && areas != [] && (|areas| > 1 ==> areas[1].start >= node.end)
    requires !Joins(areas[0], node)
    ensures !exists ar :: ar in areas && Joins(ar, node) && ar.start < node.end
  {
    Tail(areas);
    AllFromHead(areas[1..], node);
    assert areas == [areas[0]] + areas[1..];
  }

  lemma NotSane(areas: seq<Area>, i: nat)
    requires i < |areas| && !Sane(areas[i])
    ensures !WellFormed(areas)
  {}

  lemma ReversedHead(head: Area, rest: seq<Area>, node: Area)
    requires WellFormed([head] + rest) && rest != [] && rest[0].start < node.end <= node.start
    ensures WellFormed([head] + Insert(rest, node)) <==> WellFormed(Insert(rest, node))
    ensures !Joins(head, node)
  {
    var out := Insert(rest, node);
    assert ([head] + rest)[1] == rest[0] && ([head] + rest)[0] == head;
    assert out[0].start == rest[0].start && AttrOf(out[0]) == AttrOf(rest[0]);
    if WellFormed(out) {
      Cons(head, out);
    }
    if WellFormed([head] + out) {
      Tail([head] + out);
      assert ([head] + out)[1..] == out;
    }
  }

  /** Without a full block, a request whose aligned start no area covers links an area that
      ends before it starts.  That leaves a well-formed list if and only if there is a huge
      area with the same protection that ends at the aligned start, and is cut short. */
  lemma MakeNoBlockIff(areas: seq<Area>, x: nat, l: nat, prot: nat)
    requires WellFormed(areas) && l <= x && x % PAGE_SIZE == 0 && l % PAGE_SIZE == 0
    requires forall ar :: ar in areas ==> !Contains(ar, x)
    ensures WellFormed(MakeHuge(areas, x, l, prot))
            <==> exists ar :: ar in areas && ar.end == x && ar.start < l && AttrOf(ar) == Attr(prot, HugePage)
  {
    SaneAreas(areas);
    CarveNothing(areas, x, l);
    InsertReversedIff(areas, Area(x, l, prot, HugePage));
    assert forall ar :: Joins(ar, Area(x, l, prot, HugePage)) <==> ar.end == x && AttrOf(ar) == Attr(prot, HugePage);
  }

  lemma {:induction false} CarveKeeps(areas: seq<Area>, x: nat, l: nat, s: Area)
    requires s in areas && Straddles(s, x, l)
    ensures s in Carve(areas, x, l)
  {
    if s == areas[0] {
      assert CarveOne(s, x, l) == [s];
      assert s in CarveOne(areas[0], x, l);
    } else {
      CarveKeeps(areas[1..], x, l, s);
    }
  }
}
