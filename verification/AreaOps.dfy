/** What each system call does to the list of areas, and what that means address by address. */
module AreaOps {
  import opened Words
  import opened Areas

  function RoundUp(x: nat, unit: nat): nat
    requires unit > 0
  {
    (x + unit - 1) / unit * unit
  }

  function RoundDown(x: nat, unit: nat): nat
    requires unit > 0
  {
    x / unit * unit
  }

  /** `r` is `x` rounded up to a multiple of `unit`. */
  predicate Rounded(x: int, unit: nat, r: nat)
    requires unit > 0
  {
    r % unit == 0 && x <= r < x + unit
  }

  lemma RoundUpIs(x: nat, unit: nat)
    requires unit > 0
    ensures Rounded(x, unit, RoundUp(x, unit))
    ensures forall m: nat :: m % unit == 0 && m >= x ==> m >= RoundUp(x, unit)
    ensures forall m: nat :: Rounded(x, unit, m) ==> m == RoundUp(x, unit)
  {
    DivMod(RoundUp(x, unit), unit, (x + unit - 1) / unit, 0);
    forall m: nat | m % unit == 0 && m >= x
      ensures m >= RoundUp(x, unit)
      ensures m < x + unit ==> m == RoundUp(x, unit)
    {
      NextMultiple(RoundUp(x, unit), m, unit);
    }
  }

  /** Multiples less than `unit` apart are the same. */
  lemma NextMultiple(p: nat, q: nat, unit: nat)
    requires unit > 0 && p % unit == 0 && q % unit == 0
    ensures p < q ==> p + unit <= q
    ensures q < p ==> q + unit <= p
  {
    Multiple(p, unit);
    Multiple(q, unit);
    Times(q / unit - p / unit, unit);
    Difference(p / unit, q / unit, unit);
  }

  lemma Multiple(p: nat, unit: nat)
    requires unit > 0 && p % unit == 0
    ensures p == p / unit * unit
  {}

  lemma Difference(i: nat, j: nat, unit: nat)
    ensures j * unit - i * unit == (j - i) * unit
  {}

  lemma Times(k: int, unit: nat)
    ensures k >= 1 ==> k * unit >= unit
    ensures k <= 0 ==> k * unit <= 0
    ensures k <= -1 ==> k * unit + unit <= 0
  {}

  lemma RoundDownIs(x: nat, unit: nat)
    requires unit > 0
    ensures RoundDown(x, unit) % unit == 0 && RoundDown(x, unit) <= x < RoundDown(x, unit) + unit
    ensures forall m: nat :: m % unit == 0 && m <= x ==> m <= RoundDown(x, unit)
  {
    DivMod(RoundDown(x, unit), unit, x / unit, 0);
    forall m: nat | m % unit == 0 && m <= x
      ensures m <= RoundDown(x, unit)
    {
      NextMultiple(RoundDown(x, unit), m, unit);
    }
  }

  function UnitOf(kind: Kind): (u: nat)
    ensures u > 0
  {
    if kind == Normal then PAGE_SIZE else HUGE_PAGE_SIZE
  }

  // ---- replacing each area by pieces of itself ----

  function Refine(areas: seq<Area>, cut: Area -> seq<Area>): seq<Area> {
    if areas == [] then [] else cut(areas[0]) + Refine(areas[1..], cut)
  }

  /** The pieces lie in the area, apart from one another, and keep its attributes. */
  ghost predicate PiecesOf(ar: Area, pieces: seq<Area>) {
    && WellFormed(pieces)
    && forall p :: p in pieces ==> ar.start <= p.start && p.end <= ar.end && AttrOf(p) == AttrOf(ar)
  }

  lemma {:induction false} RefineInside(areas: seq<Area>, cut: Area -> seq<Area>)
    requires forall ar :: ar in areas ==> PiecesOf(ar, cut(ar))
    ensures forall p :: p in Refine(areas, cut) ==>
              exists ar :: ar in areas && ar.start <= p.start && p.end <= ar.end && AttrOf(p) == AttrOf(ar)
  {
    if areas != [] {
      assert areas == [areas[0]] + areas[1..];
      RefineInside(areas[1..], cut);
      forall p | p in Refine(areas, cut)
        ensures exists ar :: ar in areas && ar.start <= p.start && p.end <= ar.end && AttrOf(p) == AttrOf(ar)
      {
        if p in cut(areas[0]) {
          assert areas[0] in areas;
        } else {
          assert p in Refine(areas[1..], cut);
        }
      }
    }
  }

  lemma Append(p: seq<Area>, q: seq<Area>)
    requires WellFormed(p) && WellFormed(q)
    requires p != [] && q != [] ==> p[|p| - 1].end <= q[0].start && !Joins(p[|p| - 1], q[0])
    ensures WellFormed(p + q)
  {
    var r := p + q;
    assert forall i :: 0 <= i < |q| ==> r[|p| + i] == q[i];
    forall i, j | 0 <= i < j < |r|
      ensures r[i].end <= r[j].start
    {
      if i < |p| <= j {
        assert p[i].end <= p[|p| - 1].end;
        assert q[0].start <= q[j - |p|].start;
      }
    }
  }

  /** A piece of the first area never joins a piece of a later one. */
  lemma SeamApart(areas: seq<Area>, ar: Area, p: Area, q: Area)
    requires WellFormed(areas) && areas != [] && ar in areas[1..]
    requires p.end <= areas[0].end && AttrOf(p) == AttrOf(areas[0])
    requires ar.start <= q.start && AttrOf(q) == AttrOf(ar)
    ensures p.end <= q.start && !Joins(p, q)
  {
    Tail(areas);
    var k :| 1 <= k < |areas| && areas[k] == ar;
    assert areas[1].start <= areas[k].start;
    assert k > 1 ==> areas[1].end <= areas[k].start;
  }

  lemma {:induction false} RefineWellFormed(areas: seq<Area>, cut: Area -> seq<Area>)
    requires WellFormed(areas) && forall ar :: ar in areas ==> PiecesOf(ar, cut(ar))
    ensures WellFormed(Refine(areas, cut))
  {
    if areas != [] {
      Tail(areas);
      var pieces, rest := cut(areas[0]), Refine(areas[1..], cut);
      assert areas[0] in areas;
      assert forall ar :: ar in areas[1..] ==> ar in areas;
      RefineWellFormed(areas[1..], cut);
      hide WellFormed;
      if pieces != [] && rest != [] {
        SeamOf(areas, cut, pieces, rest);
      }
      Append(pieces, rest);
    }
  }

  lemma SeamOf(areas: seq<Area>, cut: Area -> seq<Area>, pieces: seq<Area>, rest: seq<Area>)
    requires WellFormed(areas) && areas != [] && forall ar :: ar in areas ==> PiecesOf(ar, cut(ar))
    requires pieces == cut(areas[0]) != [] && rest == Refine(areas[1..], cut) != []
    ensures pieces[|pieces| - 1].end <= rest[0].start && !Joins(pieces[|pieces| - 1], rest[0])
  {
    assert areas[0] in areas;
    assert forall ar :: ar in areas[1..] ==> ar in areas;
    RefineInside(areas[1..], cut);
    hide WellFormed, Refine, Joins;
    var last, first := pieces[|pieces| - 1], rest[0];
    assert first in rest && last in pieces;
    var ar :| ar in areas[1..] && ar.start <= first.start && first.end <= ar.end && AttrOf(first) == AttrOf(ar);
    SeamApart(areas, ar, last, first);
  }

  lemma {:induction false} RefineFind(areas: seq<Area>, cut: Area -> seq<Area>, a: nat)
    requires WellFormed(areas) && forall ar :: ar in areas ==> PiecesOf(ar, cut(ar))
    ensures Find(Refine(areas, cut), a) ==
            match Find(areas, a) case None => None case Some(ar) => Find(cut(ar), a)
  {
    if areas != [] {
      Tail(areas);
      assert areas[0] in areas;
      assert forall ar :: ar in areas[1..] ==> ar in areas;
      var pieces := cut(areas[0]);
      FindAppend(pieces, Refine(areas[1..], cut), a);
      FindIn(pieces, a);
      RefineFind(areas[1..], cut, a);
      FindIn(areas[1..], a);
    }
  }

  /** The list with the pieces `passed` and `next` in the place of its `i`-th area. */
  function Spliced(areas: seq<Area>, i: nat, passed: seq<Area>, next: seq<Area>): seq<Area>
    requires i < |areas|
  {
    areas[..i] + passed + next + areas[i + 1..]
  }

  /** The edits that make it: change the area or not, take it out or not, and before that put
      a copy behind it or not. */
  lemma SpliceIs(areas: seq<Area>, i: nat, w: Area, copy: Area)
    requires i < |areas|
    ensures Spliced(areas, i, [areas[i]], []) == areas
    ensures Spliced(areas, i, [w], []) == areas[i := w]
    ensures Spliced(areas, i, [], []) == MinusAt(areas, i)
    ensures var two := PlusAt(areas, i + 1, copy);
            && |two| == |areas| + 1 && two[i] == areas[i]
            && Spliced(areas, i, [w], [copy]) == two[i := w]
            && Spliced(areas, i, [], [copy]) == MinusAt(two, i)
  {}

  // ---- munmap ----

  /** One step of the loop of `vm_area_unmap`; `x` is the length rounded for this area. */
  function UnmapOne(ar: Area, addr: nat, length: nat): seq<Area> {
    var x := RoundUp(length, UnitOf(ar.kind));
    if ar.start >= addr && ar.end <= addr + x then []
    else if addr > ar.start && addr + x < ar.end then [ar.(end := addr), ar.(start := addr + x)]
    else if ar.end <= addr + x && ar.end > addr then [ar.(end := addr)]
    else if ar.start >= addr && ar.start < addr + x then [ar.(start := addr + x)]
    else [ar]
  }

  function UnmapAreas(areas: seq<Area>, addr: nat, length: nat): seq<Area> {
    Refine(areas, ar => UnmapOne(ar, addr, length))
  }

  /** What one round leaves of the area it visits: the piece it has passed, and the piece it
      visits next. */
  function UnmapVisit(ar: Area, addr: nat, x: nat): (seq<Area>, seq<Area>) {
    if ar.start >= addr && ar.end <= addr + x then ([], [])
    else if addr > ar.start && addr + x < ar.end then ([ar.(end := addr)], [ar.(start := addr + x)])
    else if ar.end <= addr + x && ar.end > addr then ([ar.(end := addr)], [])
    else if ar.start >= addr && ar.start < addr + x then ([ar.(start := addr + x)], [])
    else ([ar], [])
  }

  /** One round of the loop of `vm_area_unmap`, at position `i`: the list and the position after it. */
  function UnmapRoundOf(areas: seq<Area>, i: nat, addr: nat, length: nat): (seq<Area>, nat)
    requires i < |areas|
  {
    var (passed, next) := UnmapVisit(areas[i], addr, RoundUp(length, UnitOf(areas[i].kind)));
    (Spliced(areas, i, passed, next), i + |passed|)
  }

  /** The bytes that the round hands to `free_range`. */
  function UnmapFreed(ar: Area, addr: nat, x: nat): (nat, nat) {
    if ar.start >= addr && ar.end <= addr + x then (ar.start, ar.end)
    else if addr > ar.start && addr + x < ar.end then (addr, addr + x)
    else if ar.end <= addr + x && ar.end > addr then (addr, ar.end)
    else if ar.start >= addr && ar.start < addr + x then (ar.start, addr + x)
    else (0, 0)
  }

  /** What the loop will have made of the list once the rest of it is visited. */
  function UnmapRest(areas: seq<Area>, i: nat, addr: nat, length: nat): seq<Area>
    requires i <= |areas|
  {
    areas[..i] + UnmapAreas(areas[i..], addr, length)
  }

  /** A round keeps what the whole loop computes; the piece split off behind is left alone. */
  lemma UnmapStepKeeps(areas: seq<Area>, i: nat, addr: nat, length: nat)
    requires i < |areas| && areas[i].start < areas[i].end
    ensures var (out, k) := UnmapRoundOf(areas, i, addr, length);
            k <= |out| && UnmapRest(out, k, addr, length) == UnmapRest(areas, i, addr, length)
  {
    hide UnmapVisit, UnmapAreas, UnmapOne, RoundUp, Spliced;
    var cur, rest := areas[i], areas[i + 1..];
    var (passed, next) := UnmapVisit(cur, addr, RoundUp(length, UnitOf(cur.kind)));
    SplicedParts(areas, i, passed, next);
    UnmapCons(cur, rest, addr, length);
    VisitUnmaps(cur, rest, addr, length);
    AssocTwice(areas[..i], passed, next, UnmapAreas(rest, addr, length));
  }

  lemma SplicedParts(areas: seq<Area>, i: nat, passed: seq<Area>, next: seq<Area>)
    requires i < |areas|
    ensures areas[i..] == [areas[i]] + areas[i + 1..]
    ensures var out, k := Spliced(areas, i, passed, next), i + |passed|;
            k <= |out| && out[..k] == areas[..i] + passed && out[k..] == next + areas[i + 1..]
  {}

  lemma AssocTwice<T>(a: seq<T>, b: seq<T>, c: seq<T>, d: seq<T>)
    ensures a + b + (c + d) == a + (b + c + d)
  {}

  lemma VisitUnmaps(cur: Area, rest: seq<Area>, addr: nat, length: nat)
    requires cur.start < cur.end
    ensures var (passed, next) := UnmapVisit(cur, addr, RoundUp(length, UnitOf(cur.kind)));
            && UnmapOne(cur, addr, length) == passed + next
            && UnmapAreas(next + rest, addr, length) == next + UnmapAreas(rest, addr, length)
  {
    hide RoundUp, UnitOf;
    var (passed, next) := UnmapVisit(cur, addr, RoundUp(length, UnitOf(cur.kind)));
    if next != [] {
      UnmapCons(next[0], rest, addr, length);
      assert next == [next[0]] && UnmapOne(next[0], addr, length) == next;
    } else {
      assert next + rest == rest && passed + next == passed;
    }
  }

  lemma UnmapCons(ar: Area, rest: seq<Area>, addr: nat, length: nat)
    ensures UnmapAreas([ar] + rest, addr, length) == UnmapOne(ar, addr, length) + UnmapAreas(rest, addr, length)
  {
    assert ([ar] + rest)[1..] == rest;
  }

  /** The call takes the address from an area of that kind: its 4 KiB page meets the request, or
      its 2 MiB step, counted from `addr`, does. */
  predicate Removed(kind: Kind, a: nat, addr: nat, length: nat) {
    addr <= a &&
    match kind
    case Normal => a / PAGE_SIZE * PAGE_SIZE < addr + length
    case HugePage => (a - addr) / HUGE_PAGE_SIZE * HUGE_PAGE_SIZE < length
  }

  /** The unit of `b` begins below `n` exactly when `b` is below `n` rounded up. */
  lemma UnitBegins(b: nat, n: nat, unit: nat)
    requires unit > 0
    ensures RoundDown(b, unit) < n <==> b < RoundUp(n, unit)
  {
    RoundUpIs(n, unit);
    RoundDownIs(b, unit);
    NextMultiple(RoundDown(b, unit), RoundUp(n, unit), unit);
    hide RoundUp, RoundDown;
  }

  lemma RoundUpShifts(addr: nat, length: nat)
    requires addr % PAGE_SIZE == 0
    ensures RoundUp(addr + length, PAGE_SIZE) == addr + RoundUp(length, PAGE_SIZE)
  {}

  /** That is the range rounded to the page size of the area. */
  lemma RemovedIs(kind: Kind, a: nat, addr: nat, length: nat)
    requires addr % PAGE_SIZE == 0
    ensures Removed(kind, a, addr, length) <==> addr <= a < addr + RoundUp(length, UnitOf(kind))
  {
    if a >= addr {
      UnitBegins(a - addr, length, HUGE_PAGE_SIZE);
      UnitBegins(a, addr + length, PAGE_SIZE);
      RoundUpShifts(addr, length);
      assert RoundDown(a, PAGE_SIZE) == a / PAGE_SIZE * PAGE_SIZE;
      assert RoundDown(a - addr, HUGE_PAGE_SIZE) == (a - addr) / HUGE_PAGE_SIZE * HUGE_PAGE_SIZE;
    }
    hide RoundUp, RoundDown;
  }

  /** The parts of an area before `lo` and behind `hi`. */
  function Outside(ar: Area, lo: nat, hi: nat): seq<Area> {
    if ar.start < lo && hi < ar.end then [ar.(end := lo), ar.(start := hi)]
    else if ar.start < lo then [ar.(end := lo)]
    else if hi < ar.end then [ar.(start := hi)]
    else []
  }

  lemma FindTwo(p: Area, q: Area, a: nat)
    ensures Find([p], a) == if Contains(p, a) then Some(p) else None
    ensures Find([p, q], a) == if Contains(p, a) then Some(p) else if Contains(q, a) then Some(q) else None
  {
    assert [p, q][1..] == [q] && [p][1..] == [] && [q][1..] == [];
  }

  lemma OutsidePieces(ar: Area, lo: nat, hi: nat)
    requires Sane(ar) && ar.start <= lo < hi <= ar.end && lo % PAGE_SIZE == 0 && hi % PAGE_SIZE == 0
    ensures PiecesOf(ar, Outside(ar, lo, hi))
  {}

  lemma OutsideFind(ar: Area, lo: nat, hi: nat, a: nat)
    requires ar.start <= lo < hi <= ar.end
    ensures Contains(ar, a) ==> (Find(Outside(ar, lo, hi), a).Some? <==> !(lo <= a < hi))
    ensures Find(Outside(ar, lo, hi), a).Some? ==> AttrOf(Find(Outside(ar, lo, hi), a).value) == AttrOf(ar)
  {
    var head, tail := ar.(end := lo), ar.(start := hi);
    FindTwo(head, tail, a);
    FindTwo(tail, head, a);
    hide Find;
    if lo == ar.start && hi == ar.end {
      FindNone(a);
    }
  }

  lemma FindNone(a: nat)
    ensures Find([], a) == None
  {}

  lemma RoundedUp(length: nat, kind: Kind)
    ensures RoundUp(length, UnitOf(kind)) >= length && RoundUp(length, UnitOf(kind)) % PAGE_SIZE == 0
  {}

  lemma UnmapPieces(ar: Area, addr: nat, length: nat, a: nat)
    requires Sane(ar) && addr % PAGE_SIZE == 0 && length > 0
    ensures PiecesOf(ar, UnmapOne(ar, addr, length))
    ensures Contains(ar, a) ==>
              (Find(UnmapOne(ar, addr, length), a).Some? <==> !Removed(ar.kind, a, addr, length))
    ensures Find(UnmapOne(ar, addr, length), a).Some? ==>
      AttrOf(Find(UnmapOne(ar, addr, length), a).value) == AttrOf(ar)
  {
    hide *;
    RemovedIs(ar.kind, a, addr, length);
    UnmapRange(ar, a, addr, length);
    UnmapOutside(ar, addr, length);
    var x := RoundUp(length, UnitOf(ar.kind));
    var lo := if addr > ar.start then addr else ar.start;
    var hi := if addr + x < ar.end then addr + x else ar.end;
    if lo < hi {
      OutsidePieces(ar, lo, hi);
      OutsideFind(ar, lo, hi, a);
    } else {
      WholePiece(ar, a);
    }
  }

  /** The part of the area inside the range. */
  lemma UnmapRange(ar: Area, a: nat, addr: nat, length: nat)
    requires Sane(ar) && addr % PAGE_SIZE == 0
    ensures var x := RoundUp(length, UnitOf(ar.kind));
            var lo := if addr > ar.start then addr else ar.start;
            var hi := if addr + x < ar.end then addr + x else ar.end;
            && ar.start <= lo && hi <= ar.end && ar.start < ar.end && lo % PAGE_SIZE == 0 && hi % PAGE_SIZE == 0
            && (Contains(ar, a) ==> (lo <= a < hi <==> addr <= a < addr + x))
  {
    RoundedUp(length, ar.kind);
    hide RoundUp, UnitOf;
  }

  lemma UnmapOutside(ar: Area, addr: nat, length: nat)
    requires ar.start < ar.end && length > 0
    ensures var x := RoundUp(length, UnitOf(ar.kind));
            var lo := if addr > ar.start then addr else ar.start;
            var hi := if addr + x < ar.end then addr + x else ar.end;
            UnmapOne(ar, addr, length) == if lo < hi then Outside(ar, lo, hi) else [ar]
  {
    RoundedUp(length, ar.kind);
    hide RoundUp, UnitOf;
  }

  lemma WholePiece(ar: Area, a: nat)
    requires Sane(ar)
    ensures PiecesOf(ar, [ar]) && Find([ar], a) == if Contains(ar, a) then Some(ar) else None
  {
    FindTwo(ar, ar, a);
    hide Find;
  }

  /** `vm_area_unmap` is exact: an address stays mapped, with the same attributes, if and
      only if it was mapped and lies outside the range rounded to its own area's page size. */
  lemma UnmapExact(areas: seq<Area>, addr: nat, length: nat)
    requires WellFormed(areas) && addr % PAGE_SIZE == 0 && length > 0
    ensures WellFormed(UnmapAreas(areas, addr, length))
    ensures forall a: nat :: Lookup(UnmapAreas(areas, addr, length), a) ==
              match Lookup(areas, a)
              case None => None
              case Some(t) => if Removed(t.kind, a, addr, length) then None else Some(t)
  {
    var cut := ar => UnmapOne(ar, addr, length);
    forall ar | ar in areas
      ensures PiecesOf(ar, cut(ar))
    {
      UnmapPieces(ar, addr, length, 0);
    }
    RefineWellFormed(areas, cut);
    forall a: nat
      ensures Lookup(UnmapAreas(areas, addr, length), a) ==
              match Lookup(areas, a)
              case None => None
              case Some(t) => if Removed(t.kind, a, addr, length) then None else Some(t)
    {
      RefineFind(areas, cut, a);
      FindIn(areas, a);
      match Find(areas, a)
      case None =>
      case Some(ar) => UnmapPieces(ar, addr, length, a);
    }
  }

  // ---- mmap ----

  /** The two-endpoint test of `MAP_FIXED` and of the hint: the start of the request, or its
      last byte, falls in an area. */
  predicate Touches(ar: Area, addr: nat, size: nat) {
    (ar.start <= addr < ar.end) || (ar.start < addr + size <= ar.end)
  }

  predicate Clear(areas: seq<Area>, addr: nat, size: nat) {
    areas == [] || (!Touches(areas[0], addr, size) && Clear(areas[1..], addr, size))
  }

  /** The area lies strictly inside the request. */
  predicate Inside(ar: Area, addr: nat, size: nat) {
    addr < ar.start && ar.end < addr + size
  }

  predicate MissesOrInside(ar: Area, addr: nat, size: nat) {
    Disjoint(ar, Area(addr, addr + size, 0, Normal)) || Inside(ar, addr, size)
  }

  /** The test passes exactly when every area is disjoint from the request or strictly
      inside it; so it decides disjointness exactly when no area is strictly inside. */
  lemma {:induction false} ClearMeans(areas: seq<Area>, addr: nat, size: nat)
    requires size > 0 && forall ar :: ar in areas ==> Sane(ar)
    ensures Clear(areas, addr, size) <==> forall ar :: ar in areas ==> MissesOrInside(ar, addr, size)
  {
    if areas != [] {
      assert areas[0] in areas && forall ar :: ar in areas[1..] ==> ar in areas;
      ClearMeans(areas[1..], addr, size);
      assert !Touches(areas[0], addr, size) <==> MissesOrInside(areas[0], addr, size);
      assert areas == [areas[0]] + areas[1..];
    }
  }

  /** The difference of two 64-bit words. */
  function Gap(hi: nat, lo: nat): (d: nat)
    ensures lo <= hi <= TOP ==> d == hi - lo
  {
    (hi - lo) % 0x1_0000_0000_0000_0000
  }

  /** First fit: the end of the first node, counting the dummy, that is followed by a gap
      of `size` bytes or by nothing. */
  function FirstFit(prevEnd: nat, areas: seq<Area>, size: nat): nat
    decreases areas
  {
    if areas == [] || Gap(areas[0].start, prevEnd) >= size then prevEnd
    else FirstFit(areas[0].end, areas[1..], size)
  }

  ghost predicate AboveDummy(areas: seq<Area>) {
    forall ar :: ar in areas ==> DUMMY_END <= ar.start
  }

  ghost predicate Free(areas: seq<Area>, start: nat, size: nat) {
    forall ar :: ar in areas ==> Disjoint(ar, Area(start, start + size, 0, Normal))
  }

  lemma StillTaken(areas: seq<Area>, t: nat, size: nat)
    requires areas != [] && areas[0].start < areas[0].end
    requires (areas[0].start < t + size && t < areas[0].end) || !Free(areas[1..], t, size)
    ensures !Free(areas, t, size)
  {
    if areas[0].start < t + size && t < areas[0].end {
      assert areas[0] in areas && !Disjoint(areas[0], Area(t, t + size, 0, Normal));
    } else {
      var ar :| ar in areas[1..] && !Disjoint(ar, Area(t, t + size, 0, Normal));
      assert ar in areas;
    }
  }

  /** First fit finds the lowest start at or above the dummy's end whose range is free. */
  lemma {:induction false} FirstFitLowest(prevEnd: nat, areas: seq<Area>, size: nat)
    requires WellFormed(areas) && size > 0 && prevEnd % PAGE_SIZE == 0
    requires forall ar :: ar in areas ==> prevEnd <= ar.start
    ensures var s := FirstFit(prevEnd, areas, size);
            && s >= prevEnd && s % PAGE_SIZE == 0 && Free(areas, s, size)
            && forall t :: prevEnd <= t < s ==> !Free(areas, t, size)
    decreases areas
  {
    hide Gap;
    if areas != [] {
      Tail(areas);
      assert areas == [areas[0]] + areas[1..];
      assert Sane(areas[0]);
      hide Sorted, Merged;
      if areas[0].start - prevEnd < size {
        FirstFitLowest(areas[0].end, areas[1..], size);
        forall t | prevEnd <= t < FirstFit(prevEnd, areas, size)
          ensures !Free(areas, t, size)
        {
          StillTaken(areas, t, size);
        }
      }
    }
  }

  const MAP_FIXED := 1

  /** Where `vm_area_map` puts a request for `size` bytes, if it takes it. */
  function Placed(areas: seq<Area>, addr: nat, size: nat, flags: int): Option<nat> {
    if flags == MAP_FIXED then
      if addr == 0 || addr % PAGE_SIZE != 0 || !Clear(areas, addr, size) then None else Some(addr)
    else if addr == 0 then Some(FirstFit(DUMMY_END, areas, size))
    else if Clear(areas, RoundUp(addr, PAGE_SIZE), size) then Some(RoundUp(addr, PAGE_SIZE))
    else Some(DUMMY_END)
  }

  /** The list after `vm_area_map`. */
  function MapAreas(areas: seq<Area>, addr: nat, length: int, prot: nat, flags: int): seq<Area> {
    if length <= 0 then areas
    else
      var size := RoundUp(length, PAGE_SIZE);
      match Placed(areas, addr, size, flags)
      case None => areas
      case Some(start) => Insert(areas, Area(start, start + size, prot, Normal))
  }

  /** The call fails, or its range is free. */
  ghost predicate MapFree(areas: seq<Area>, addr: nat, length: int, flags: int) {
    length > 0 ==>
      match Placed(areas, addr, RoundUp(length, PAGE_SIZE), flags)
      case None => true
      case Some(start) => Free(areas, start, RoundUp(length, PAGE_SIZE))
  }

  ghost predicate MapFits(areas: seq<Area>, addr: nat, length: int, flags: int) {
    && MapFree(areas, addr, length, flags)
    && (length > 0 ==>
          match Placed(areas, addr, RoundUp(length, PAGE_SIZE), flags)
          case None => true
          case Some(start) => start + RoundUp(length, PAGE_SIZE) <= TOP)
  }

  /** A call keeps the list well formed if and only if it fails or its range is free and inside
      the address space. */
  lemma MapWellFormedIff(areas: seq<Area>, addr: nat, length: int, prot: nat, flags: int)
    requires WellFormed(areas)
    ensures WellFormed(MapAreas(areas, addr, length, prot, flags)) <==> MapFits(areas, addr, length, flags)
  {
    hide Insert, Clear, FirstFit, WellFormed;
    if length > 0 {
      var size := RoundUp(length, PAGE_SIZE);
      SaneAreas(areas);
      match Placed(areas, addr, size, flags)
      case None =>
      case Some(start) =>
        if flags != MAP_FIXED && addr == 0 {
          FirstFitAligned(DUMMY_END, areas, size);
        }
        assert start % PAGE_SIZE == 0;
        var node := Area(start, start + size, prot, Normal);
        InsertWellFormedIff(areas, node);
        assert Free(areas, start, size) <==> Apart(areas, node) by {
          assert forall ar :: Disjoint(ar, node) <==> Disjoint(ar, Area(start, start + size, 0, Normal));
        }
    }
  }

  lemma SaneAreas(areas: seq<Area>)
    requires WellFormed(areas)
    ensures forall ar :: ar in areas ==> Sane(ar)
  {}

  lemma {:induction false} FirstFitAligned(prevEnd: nat, areas: seq<Area>, size: nat)
    requires prevEnd % PAGE_SIZE == 0 && forall ar :: ar in areas ==> Sane(ar)
    ensures FirstFit(prevEnd, areas, size) % PAGE_SIZE == 0
    decreases areas
  {
    if areas != [] {
      assert areas[0] in areas && forall ar :: ar in areas[1..] ==> ar in areas;
      FirstFitAligned(areas[0].end, areas[1..], size);
    }
  }

  /** The largest length, in whole pages, that an `int` holds. */
  const MAX_LENGTH := 0x7FFF_F000

  /** With an area below the end of the dummy the first gap seems huge, and first fit stops there. */
  lemma FirstFitBelow(areas: seq<Area>, size: nat)
    requires WellFormed(areas) && !AboveDummy(areas) && size <= MAX_LENGTH
    ensures areas != [] && Gap(areas[0].start, DUMMY_END) >= size && FirstFit(DUMMY_END, areas, size) == DUMMY_END
  {
    assert forall ar :: ar in areas ==> areas[0].start <= ar.start by {
      Tail(areas);
      assert areas == [areas[0]] + areas[1..] && Sane(areas[0]);
    }
    assert areas[0].start < DUMMY_END;
  }

  // ---- what a request asks for, said of the addresses alone ----

  /** A fixed request that is refused. */
  ghost predicate FixedRefused(areas: seq<Area>, addr: nat, size: nat)
    requires size > 0
  {
    addr == 0 || addr % PAGE_SIZE != 0 || Lookup(areas, addr).Some? || Lookup(areas, addr + size - 1).Some?
  }

  /** Neither the first byte of the range is mapped nor the last. */
  ghost predicate EndsFree(areas: seq<Area>, start: nat, size: nat)
    requires size > 0
  {
    Lookup(areas, start).None? && Lookup(areas, start + size - 1).None?
  }

  /** The lowest start at or above the dummy's end whose range is free. */
  ghost predicate LowestFree(areas: seq<Area>, start: nat, size: nat) {
    start >= DUMMY_END && Free(areas, start, size) && forall t :: DUMMY_END <= t < start ==> !Free(areas, t, size)
  }

  /** A hint goes to its page, or right behind the dummy. */
  ghost predicate HintedAt(areas: seq<Area>, addr: nat, size: nat, start: nat)
    requires size > 0
  {
    exists at: nat :: Rounded(addr, PAGE_SIZE, at) && start == if EndsFree(areas, at, size) then at else DUMMY_END
  }

  /** The request is taken, as the `size` bytes from `start` on. */
  ghost predicate Taken(areas: seq<Area>, addr: nat, length: int, flags: int, size: nat, start: nat) {
    && length > 0 && Rounded(length, PAGE_SIZE, size)
    && if flags == MAP_FIXED then start == addr && !FixedRefused(areas, addr, size)
       else if addr != 0 then HintedAt(areas, addr, size, start)
       else if AboveDummy(areas) then LowestFree(areas, start, size)
       else start == DUMMY_END
  }

  lemma {:induction false} ClearIff(areas: seq<Area>, addr: nat, size: nat)
    requires size > 0
    ensures Clear(areas, addr, size) <==> EndsFree(areas, addr, size)
  {
    if areas != [] {
      ClearIff(areas[1..], addr, size);
    }
  }

  /** Whether and where a request is taken, for any list or, for first fit, a well-formed one. */
  lemma TakenIs(areas: seq<Area>, addr: nat, length: int, flags: int, size: nat, start: nat)
    requires length <= MAX_LENGTH && (flags == MAP_FIXED || addr != 0 || WellFormed(areas))
    ensures Taken(areas, addr, length, flags, size, start) <==>
            length > 0 && size == RoundUp(length, PAGE_SIZE) && Placed(areas, addr, size, flags) == Some(start)
  {
    if length > 0 {
      RoundUpIs(length, PAGE_SIZE);
      RoundUpIs(addr, PAGE_SIZE);
      var at, s := RoundUp(addr, PAGE_SIZE), RoundUp(length, PAGE_SIZE);
      assert Rounded(addr, PAGE_SIZE, at);
      hide RoundUp, Rounded, WellFormed, Lookup, Clear;
      ClearIff(areas, addr, s);
      ClearIff(areas, at, s);
      if flags != MAP_FIXED && addr == 0 {
        FirstFitIs(areas, s);
      }
    }
  }

  lemma FirstFitIs(areas: seq<Area>, size: nat)
    requires WellFormed(areas) && 0 < size <= MAX_LENGTH
    ensures if AboveDummy(areas) then LowestFree(areas, FirstFit(DUMMY_END, areas, size), size)
            else FirstFit(DUMMY_END, areas, size) == DUMMY_END
  {
    if AboveDummy(areas) {
      FirstFitLowest(DUMMY_END, areas, size);
    } else {
      FirstFitBelow(areas, size);
    }
  }

  /** `out` is `was` with the range added, where it was not mapped. */
  ghost predicate Added(was: seq<Area>, out: seq<Area>, start: nat, size: nat, prot: nat) {
    forall a: nat :: Lookup(out, a) ==
      if Lookup(was, a).Some? then Lookup(was, a)
      else if start <= a < start + size then Some(Attr(prot, Normal)) else None
  }

  /** A request that is not taken changes nothing.  One that is adds exactly its range, as normal
      pages, where nothing was mapped; and the list stays well formed if and only if the whole
      range was free and inside the address space. */
  lemma MapExact(areas: seq<Area>, addr: nat, length: int, prot: nat, flags: int)
    requires WellFormed(areas) && length <= MAX_LENGTH
    ensures var out := MapAreas(areas, addr, length, prot, flags);
            && ((forall size: nat, start: nat :: !Taken(areas, addr, length, flags, size, start)) ==> out == areas)
            && (forall size: nat, start: nat :: Taken(areas, addr, length, flags, size, start) ==>
                  && Added(areas, out, start, size, prot)
                  && (WellFormed(out) <==> Free(areas, start, size) && start + size <= TOP))
  {
    hide *;
    MapWellFormedIff(areas, addr, length, prot, flags);
    MapIs(areas, addr, length, prot, flags);
    forall size: nat, start: nat
      ensures Taken(areas, addr, length, flags, size, start) <==>
              length > 0 && size == RoundUp(length, PAGE_SIZE) && Placed(areas, addr, size, flags) == Some(start)
    {
      TakenIs(areas, addr, length, flags, size, start);
    }
    if length > 0 && Placed(areas, addr, RoundUp(length, PAGE_SIZE), flags).Some? {
      var size := RoundUp(length, PAGE_SIZE);
      var start := Placed(areas, addr, size, flags).value;
      assert Taken(areas, addr, length, flags, size, start);
      RangeAdded(areas, start, size, prot);
    }
  }

  lemma MapIs(areas: seq<Area>, addr: nat, length: int, prot: nat, flags: int)
    ensures PAGE_SIZE > 0 && (length > 0 ==> RoundUp(length, PAGE_SIZE) > 0)
    ensures var out := MapAreas(areas, addr, length, prot, flags);
            if length <= 0 then out == areas
            else
              var size := RoundUp(length, PAGE_SIZE);
              match Placed(areas, addr, size, flags)
              case None => out == areas
              case Some(start) =>
                && out == Insert(areas, Area(start, start + size, prot, Normal))
                && (MapFits(areas, addr, length, flags) <==> Free(areas, start, size) && start + size <= TOP)
  {
    hide Placed, Insert, Free;
  }

  lemma RangeAdded(areas: seq<Area>, start: nat, size: nat, prot: nat)
    requires WellFormed(areas) && size > 0
    ensures Added(areas, Insert(areas, Area(start, start + size, prot, Normal)), start, size, prot)
  {
    hide WellFormed, Insert, Lookup;
    forall a: nat
      ensures var out := Insert(areas, Area(start, start + size, prot, Normal));
              Lookup(out, a) == if Lookup(areas, a).Some? then Lookup(areas, a)
                                else if start <= a < start + size then Some(Attr(prot, Normal)) else None
    {
      InsertFinds(areas, Area(start, start + size, prot, Normal), a);
    }
  }

  /** When the range of a request is free: for first fit, if and only if no area starts below the
      end of the dummy or the range right behind the dummy is free; for a fixed address, and for a
      hint that goes where both ends are free, if and only if no area lies strictly inside.  Any
      other hint goes right behind the dummy, onto what is mapped there. */
  lemma MapFreeIff(areas: seq<Area>, addr: nat, length: int, flags: int, size: nat, start: nat)
    requires WellFormed(areas) && length <= MAX_LENGTH && Taken(areas, addr, length, flags, size, start)
    ensures flags != MAP_FIXED && addr == 0 ==>
              (Free(areas, start, size) <==> AboveDummy(areas) || Free(areas, DUMMY_END, size))
    ensures flags == MAP_FIXED || (addr != 0 && EndsFree(areas, start, size)) ==>
              (Free(areas, start, size) <==> forall ar :: ar in areas ==> !Inside(ar, start, size))
    ensures flags != MAP_FIXED && addr != 0 && !EndsFree(areas, start, size) ==>
              start == DUMMY_END && !Free(areas, start, size)
  {
    SaneAreas(areas);
    ClearIff(areas, start, size);
    ClearMeans(areas, start, size);
    hide Clear, WellFormed, Lookup, AboveDummy;
  }
}
