/** One address space in its two forms: what each system call does to both, as values. */
module AddressSpace {
  import opened Words
  import opened Tables
  import opened Areas
  import opened AreaOps
  import opened HugeOps
  import opened BreakOps
  import opened BreakLoss
  import opened Paging

  datatype State = State(areas: seq<Area>, space: Space)

  /** The kind of area, if any, that the list gives for page `v`. */
  function KindAt(areas: seq<Area>, v: nat): Option<Kind> {
    match Lookup(areas, v * PAGE_SIZE)
    case None => None
    case Some(t) => Some(t.kind)
  }

  const MMAP_END := 0x7_FE00_0000

  predicate InMmap(v: nat) { MMAP_START <= v * PAGE_SIZE <= MMAP_END }

  /** List and page table agree: a page has a huge leaf exactly when it lies in a huge area,
      and a page of the mmap range with a 4 KiB leaf lies in a normal area. */
  ghost predicate Agree(areas: seq<Area>, s: Space) {
    && (forall v: nat :: v < PAGES ==> (Map(s, v).Big? <==> KindAt(areas, v) == Some(HugePage)))
    && (forall v: nat :: v < PAGES && InMmap(v) && Map(s, v).Small? ==> KindAt(areas, v) == Some(Normal))
  }

  predicate InBlocks(ar: Area) {
    ar.kind == HugePage ==> ar.start % HUGE_PAGE_SIZE == 0 && ar.end % HUGE_PAGE_SIZE == 0
  }

  /** Huge areas consist of whole 2 MiB blocks. */
  ghost predicate AllInBlocks(areas: seq<Area>) {
    forall ar :: ar in areas ==> InBlocks(ar)
  }

  ghost predicate Inv(st: State) {
    WellFormed(st.areas) && AllInBlocks(st.areas) && Sound(st.space) && Agree(st.areas, st.space)
  }

  /** A new address space: no areas, an empty page table. */
  lemma NewSpaceInv(s: Space)
    requires Sound(s) && forall v: nat :: v < PAGES ==> Map(s, v) == Unmapped
    ensures Inv(State([], s))
  {}

  // ---- the calls ----

  datatype Call =
    | Fault(addr: nat, code: nat)
    | MapCall(addr: nat, length: int, prot: nat, flags: int)
    | UnmapCall(addr: nat, length: int)
    | MakeCall(addr: nat, size: nat, prot: nat, force: bool)
    | BreakCall(addr: nat, size: nat)

  /** `vm_area_pagefault`: a fault on an absent page of an area gets an entry of that area's
      kind; nothing else changes. */
  ghost predicate FaultStep(st: State, addr: nat, code: nat, st': State) {
    && st'.areas == st.areas
    && if code % 2 == 1 || Lookup(st.areas, addr).None? then st'.space == st.space
       else if Lookup(st.areas, addr).value.kind == Normal
       then MadeLeaf(st.space, st'.space, PageOf(addr), AcFlags(code))
       else MadeHuge(st.space, st'.space, PageOf(addr), AcFlags(code))
  }

  ghost predicate MapStep(st: State, addr: nat, length: int, prot: nat, flags: int, st': State) {
    st' == State(MapAreas(st.areas, addr, length, prot, flags), st.space)
  }

  /** The page lies in a normal area, in the part that the call removes. */
  ghost predicate RemovedNormal(areas: seq<Area>, v: nat, addr: nat, length: nat) {
    KindAt(areas, v) == Some(Normal) && Removed(Normal, v * PAGE_SIZE, addr, length)
  }

  /** Exactly the normal pages that leave the list lose their leaves. */
  ghost predicate RangeCleared(areas: seq<Area>, s: Space, s': Space, addr: nat, length: nat) {
    && s'.data == s.data
    && forall v: nat :: v < PAGES ==>
         Map(s', v) == if RemovedNormal(areas, v, addr, length) then Unmapped else Map(s, v)
  }

  ghost predicate UnmapStep(st: State, addr: nat, length: int, st': State) {
    if length <= 0 || addr % PAGE_SIZE != 0 then st' == st
    else st'.areas == UnmapAreas(st.areas, addr, length) && RangeCleared(st.areas, st.space, st'.space, addr, length)
  }

  /** The whole blocks inside a request. */
  function BlocksFrom(addr: nat): nat { RoundUp(addr, HUGE_PAGE_SIZE) }

  function BlocksTo(addr: nat, length: nat): nat { RoundDown(addr + length, HUGE_PAGE_SIZE) }

  /** A refused request changes nothing; an accepted one changes the list as `MakeHuge` says,
      backs exactly its whole blocks by 2 MiB frames, and leaves every resident page reading
      the same bytes. */
  ghost predicate MakeStep(st: State, addr: nat, length: nat, prot: nat, force: bool, st': State) {
    if Scan(st.areas, addr, length, prot, force) != Accepted then st' == st
    else
      var x, l := BlocksFrom(addr), BlocksTo(addr, length);
      && st'.areas == MakeHuge(st.areas, x, l, prot)
      && RangeBig(st.space, st'.space, x, l, AcFlags(prot))
      && KeepsReads(st.space, st'.space)
  }

  /** Exactly the huge pages of the request are now in 4 KiB frames, as writable as before. */
  ghost predicate Demoted(areas: seq<Area>, s: Space, s': Space, x: nat, l: nat) {
    forall v: nat :: v < PAGES ==>
      if x <= v * PAGE_SIZE < l && KindAt(areas, v) == Some(HugePage)
      then Map(s, v).Big? && Map(s', v).Small? && Map(s', v).flags == AcFlags(Map(s, v).flags)
      else Map(s', v) == Map(s, v)
  }

  predicate BreakRefused(addr: nat, length: nat) {
    addr == 0 || length == 0 || length % HUGE_PAGE_SIZE != 0 || addr % HUGE_PAGE_SIZE != 0
  }

  /** What `copy_hpp` does to a page: one in a 4 KiB frame stays, one in a 2 MiB frame goes to
      a 4 KiB frame, as writable as before, and an unmapped one may get a 4 KiB frame. */
  predicate Lowered(m: Mapping, m': Mapping) {
    match m
    case Small(_, _) => m' == m
    case Big(_, flags) => m'.Small? && m'.flags == AcFlags(flags)
    case Unmapped => !m'.Big?
  }

  /** It is done to exactly the pages that the loop hands over. */
  ghost predicate HandedDown(areas: seq<Area>, s: Space, s': Space, x: nat, l: nat) {
    forall v: nat :: v < PAGES ==>
      if HandedOver(areas, x, l, v * PAGE_SIZE) then Lowered(Map(s, v), Map(s', v)) else Map(s', v) == Map(s, v)
  }

  /** An accepted request changes the list as `Break` says, hands exactly the parts of its rounds
      to `copy_hpp`, and leaves every resident page reading the same bytes. */
  ghost predicate BreakStep(st: State, addr: nat, length: nat, st': State) {
    if BreakRefused(addr, length) then st' == st
    else
      && st'.areas == Break(st.areas, addr, addr + length)
      && HandedDown(st.areas, st.space, st'.space, addr, addr + length)
      && KeepsReads(st.space, st'.space)
  }

  ghost predicate Step(st: State, c: Call, st': State) {
    && Sound(st'.space)
    && match c
       case Fault(addr, code) => FaultStep(st, addr, code, st')
       case MapCall(addr, length, prot, flags) => MapStep(st, addr, length, prot, flags, st')
       case UnmapCall(addr, length) => UnmapStep(st, addr, length, st')
       case MakeCall(addr, length, prot, force) => MakeStep(st, addr, length, prot, force, st')
       case BreakCall(addr, length) => BreakStep(st, addr, length, st')
  }

  // ---- the calls for which the two forms stay together ----

  /** No huge area loses addresses. */
  ghost predicate SparesHuge(areas: seq<Area>, addr: nat, length: nat) {
    forall ar :: ar in areas && ar.kind == HugePage ==> UnmapOne(ar, addr, length) == [ar]
  }

  /** The accepted request has a full block, inside the 48-bit space, on which nothing is huge
      and whose end no area straddles. */
  ghost predicate MakeFits(areas: seq<Area>, addr: nat, length: nat) {
    var x, l := BlocksFrom(addr), BlocksTo(addr, length);
    && x < l <= TOP
    && NothingHuge(areas, x, l)
    && forall ar :: ar in areas ==> !Straddles(ar, x, l)
  }

  /** Losing what the list maps below `at` parts it from the page table nowhere: huge pages there
      are handed over and lie outside the mmap range, normal ones of that range are not resident. */
  ghost predicate Harmless(st: State, at: nat, x: nat) {
    forall v: nat :: v < PAGES && v * PAGE_SIZE < at ==> PageHarmless(st, x, v)
  }

  ghost predicate PageHarmless(st: State, x: nat, v: nat) {
    match KindAt(st.areas, v)
    case None => true
    case Some(HugePage) => x <= v * PAGE_SIZE && !InMmap(v)
    case Some(Normal) => InMmap(v) ==> !Map(st.space, v).Small?
  }

  /** The request cuts no area short, and what the list loses below the covered areas behind the
      first is harmless. */
  ghost predicate BreakSafe(st: State, x: nat, l: nat) {
    && (forall ar :: ar in st.areas ==> !TailCut(ar, x, l))
    && (forall k :: 0 < k < |st.areas| && Covered(st.areas[k], x, l) ==> Harmless(st, st.areas[k].start, x))
  }

  ghost predicate Fits(st: State, c: Call) {
    match c
    case Fault(addr, code) => addr < TOP
    case MapCall(addr, length, prot, flags) => MapFits(st.areas, addr, length, flags)
    case UnmapCall(addr, length) => length > 0 && addr % PAGE_SIZE == 0 ==> SparesHuge(st.areas, addr, length)
    case MakeCall(addr, length, prot, force) =>
      Scan(st.areas, addr, length, prot, force) == Accepted ==> MakeFits(st.areas, addr, length)
    case BreakCall(addr, length) =>
      !BreakRefused(addr, length) ==> BreakSafe(st, addr, addr + length)
  }

  // ---- huge areas stay made of whole blocks ----

  lemma {:induction false} InsertInBlocks(areas: seq<Area>, node: Area)
    requires InBlocks(node) && forall ar :: ar in areas ==> InBlocks(ar)
    ensures forall ar :: ar in Insert(areas, node) ==> InBlocks(ar)
  {
    if areas != [] {
      assert areas[0] in areas && forall ar :: ar in areas[1..] ==> ar in areas;
      assert |areas| > 1 ==> areas[1] in areas;
      if areas[0].start < node.end && |areas| > 1 && areas[1].start < node.end {
        InsertInBlocks(areas[1..], node);
      }
    }
  }

  lemma {:induction false} RefineInBlocks(areas: seq<Area>, cut: Area -> seq<Area>)
    requires forall ar, p :: ar in areas && p in cut(ar) ==> InBlocks(p)
    ensures forall p :: p in Refine(areas, cut) ==> InBlocks(p)
  {
    if areas != [] {
      assert areas[0] in areas && forall ar :: ar in areas[1..] ==> ar in areas;
      RefineInBlocks(areas[1..], cut);
    }
  }

  lemma RoundInBlocks(areas: seq<Area>, i: nat, x: nat, l: nat)
    requires x < l && x % HUGE_PAGE_SIZE == 0 && l % HUGE_PAGE_SIZE == 0
    requires i < |areas| && AllInBlocks(areas)
    ensures AllInBlocks(BreakRoundOf(areas, i, x, l).0)
  {
    hide Insert, Where;
    var cur := areas[i];
    assert cur in areas;
    if cur.kind == HugePage {
      if cur.start >= x && cur.end <= l {
        InsertInBlocks(areas[i + 1..], cur.(kind := Normal));
      } else if cur.start >= x && cur.start < l {
        assert forall ar :: ar in CutHead(areas, i, l) ==> ar in areas || ar == cur.(start := l);
        InsertInBlocks(CutHead(areas, i, l), HeadNode(cur, l));
      } else if cur.end > x && cur.end < l {
        assert forall ar :: ar in CutTail(areas, i, x) ==> ar in areas || ar == cur.(end := x);
        InsertInBlocks(CutTail(areas, i, x), TailNode(cur, l));
      }
    }
  }

  lemma {:induction false} BreakInBlocks(areas: seq<Area>, i: nat, x: nat, l: nat)
    requires x < l && x % HUGE_PAGE_SIZE == 0 && l % HUGE_PAGE_SIZE == 0 && AllInBlocks(areas)
    ensures AllInBlocks(BreakFrom(areas, i, x, l))
    decreases if i < |areas| then Acts(areas[i..], x, l) else 0, |areas| - i
  {
    if i < |areas| {
      RoundInBlocks(areas, i, x, l);
      RoundShrinks(areas, i, x, l);
      var (out, j) := BreakRoundOf(areas, i, x, l);
      hide BreakRoundOf, AllInBlocks;
      BreakInBlocks(out, j, x, l);
    }
  }

  lemma UnmapInBlocks(areas: seq<Area>, addr: nat, length: nat)
    requires AllInBlocks(areas) && SparesHuge(areas, addr, length)
    ensures AllInBlocks(UnmapAreas(areas, addr, length))
  {
    RefineInBlocks(areas, ar => UnmapOne(ar, addr, length));
  }

  lemma MakeInBlocks(areas: seq<Area>, x: nat, l: nat, prot: nat)
    requires AllInBlocks(areas) && x % HUGE_PAGE_SIZE == 0 && l % HUGE_PAGE_SIZE == 0
    ensures AllInBlocks(MakeHuge(areas, x, l, prot))
  {
    RefineInBlocks(areas, ar => CarveOne(ar, x, l));
    InsertInBlocks(Carve(areas, x, l), Area(x, l, prot, HugePage));
  }

  lemma MapInBlocks(areas: seq<Area>, addr: nat, length: int, prot: nat, flags: int)
    requires AllInBlocks(areas)
    ensures AllInBlocks(MapAreas(areas, addr, length, prot, flags))
  {
    hide Insert, Placed;
    if length > 0 {
      match Placed(areas, addr, RoundUp(length, PAGE_SIZE), flags)
      case None =>
      case Some(start) => InsertInBlocks(areas, Area(start, start + RoundUp(length, PAGE_SIZE), prot, Normal));
    }
  }

  lemma StepKeepsBlocks(st: State, c: Call, st': State)
    requires AllInBlocks(st.areas) && Step(st, c, st') && Fits(st, c)
    ensures AllInBlocks(st'.areas)
  {
    hide Sound, Scan, FaultStep, RangeCleared, HandedDown, RangeBig, KeepsReads, MapFits, BreakSafe,
         UnmapAreas, MapAreas, MakeHuge, AllInBlocks, SparesHuge, MakeFits, BlocksFrom, BlocksTo;
    match c
    case Fault(addr, code) => FaultKeepsAreas(st, addr, code, st');
    case MapCall(addr, length, prot, flags) => MapInBlocks(st.areas, addr, length, prot, flags);
    case UnmapCall(addr, length) =>
      if length > 0 && addr % PAGE_SIZE == 0 {
        UnmapInBlocks(st.areas, addr, length);
      }
    case MakeCall(addr, length, prot, force) =>
      BlockBounds(addr, length);
      if Scan(st.areas, addr, length, prot, force) == Accepted {
        MakeInBlocks(st.areas, BlocksFrom(addr), BlocksTo(addr, length), prot);
      }
    case BreakCall(addr, length) =>
      if !BreakRefused(addr, length) {
        BreakInBlocks(st.areas, 0, addr, addr + length);
      }
  }

  lemma FaultKeepsAreas(st: State, addr: nat, code: nat, st': State)
    requires FaultStep(st, addr, code, st')
    ensures st'.areas == st.areas
  {}

  // ---- each call keeps list and page table together ----

  /** Area boundaries are page boundaries. */
  lemma PageInOneArea(areas: seq<Area>, a: nat)
    requires WellFormed(areas)
    ensures Find(areas, a) == Find(areas, a / PAGE_SIZE * PAGE_SIZE)
  {
    var b := a / PAGE_SIZE * PAGE_SIZE;
    SaneAreas(areas);
    hide WellFormed, Find, Contains, Sane;
    FindIn(areas, a);
    FindIn(areas, b);
    if Find(areas, a).Some? {
      InSamePage(Find(areas, a).value, a);
      FindOnly(areas, Find(areas, a).value, b);
    } else if Find(areas, b).Some? {
      InSamePage(Find(areas, b).value, a);
    }
  }

  lemma InSamePage(ar: Area, a: nat)
    requires Sane(ar)
    ensures Contains(ar, a) <==> Contains(ar, a / PAGE_SIZE * PAGE_SIZE)
  {}

  lemma FaultKeeps(st: State, addr: nat, code: nat, st': State)
    requires Inv(st) && FaultStep(st, addr, code, st') && addr < TOP
    ensures Agree(st'.areas, st'.space)
  {
    hide WellFormed, Sound, Map, AllInBlocks, Find, Path;
    if code % 2 == 0 && Lookup(st.areas, addr).Some? {
      var v := PageOf(addr);
      PageInOneArea(st.areas, addr);
      assert KindAt(st.areas, v) == Some(Lookup(st.areas, addr).value.kind);
    }
  }

  lemma MapKeeps(st: State, addr: nat, length: int, prot: nat, flags: int, st': State)
    requires Inv(st) && MapStep(st, addr, length, prot, flags, st')
    ensures WellFormed(st'.areas) && Agree(st'.areas, st'.space) <==> MapFits(st.areas, addr, length, flags)
  {
    hide Sound, Map, AllInBlocks, Lookup, WellFormed, Insert, Placed, RoundUp;
    MapWellFormedIff(st.areas, addr, length, prot, flags);
    if length > 0 && MapFits(st.areas, addr, length, flags) {
      RoundUpIs(length, PAGE_SIZE);
      match Placed(st.areas, addr, RoundUp(length, PAGE_SIZE), flags)
      case None =>
      case Some(start) =>
        RangeAdded(st.areas, start, RoundUp(length, PAGE_SIZE), prot);
        FreeUnmapped(st.areas, start, RoundUp(length, PAGE_SIZE));
    }
  }

  lemma FreeUnmapped(areas: seq<Area>, start: nat, size: nat)
    requires Free(areas, start, size)
    ensures forall a: nat :: start <= a < start + size ==> Lookup(areas, a).None?
  {
    forall a: nat | start <= a < start + size
      ensures Lookup(areas, a).None?
    {
      FindIn(areas, a);
    }
  }

  /** An unmap keeps list and page table together if and only if no huge area loses
      addresses: those it loses keep their 2 MiB leaves. */
  lemma UnmapKeeps(st: State, addr: nat, length: nat, st': State)
    requires Inv(st) && UnmapStep(st, addr, length, st') && length > 0 && addr % PAGE_SIZE == 0
    ensures WellFormed(st'.areas)
    ensures Agree(st'.areas, st'.space) <==> SparesHuge(st.areas, addr, length)
  {
    hide Sound, Map, AllInBlocks, WellFormed, Removed;
    UnmapExact(st.areas, addr, length);
    if SparesHuge(st.areas, addr, length) {
      forall v: nat | v < PAGES && KindAt(st.areas, v) == Some(HugePage)
        ensures !Removed(HugePage, v * PAGE_SIZE, addr, length)
      {
        SparedStays(st.areas, addr, length, v * PAGE_SIZE);
      }
    } else {
      var v := LeftBehind(st.areas, addr, length);
      assert Map(st.space, v).Big? && KindAt(st'.areas, v) == None;
    }
  }

  /** A page of a huge area that the call takes from the list. */
  lemma LeftBehind(areas: seq<Area>, addr: nat, length: nat) returns (v: nat)
    requires WellFormed(areas) && length > 0 && addr % PAGE_SIZE == 0 && !SparesHuge(areas, addr, length)
    ensures v < PAGES && KindAt(areas, v) == Some(HugePage) && Removed(HugePage, v * PAGE_SIZE, addr, length)
  {
    var ar :| ar in areas && ar.kind == HugePage && UnmapOne(ar, addr, length) != [ar];
    assert Sane(ar);
    var a := if ar.start > addr then ar.start else addr;
    RoundedUp(length, HugePage);
    RemovedIs(HugePage, a, addr, length);
    FindOnly(areas, ar, a);
    v := PageOf(a);
    assert v * PAGE_SIZE == a;
  }

  lemma SparedStays(areas: seq<Area>, addr: nat, length: nat, a: nat)
    requires WellFormed(areas) && SparesHuge(areas, addr, length) && length > 0 && addr % PAGE_SIZE == 0
    requires Lookup(areas, a).Some? && Lookup(areas, a).value.kind == HugePage
    ensures !Removed(HugePage, a, addr, length)
  {
    FindIn(areas, a);
    var ar := Find(areas, a).value;
    assert Sane(ar);
    UnmapPieces(ar, addr, length, a);
    assert Find([ar], a) == Some(ar);
  }

  lemma BlockBounds(addr: nat, length: nat)
    ensures BlocksFrom(addr) % HUGE_PAGE_SIZE == 0 && BlocksFrom(addr) % PAGE_SIZE == 0
    ensures BlocksTo(addr, length) % HUGE_PAGE_SIZE == 0 && BlocksTo(addr, length) % PAGE_SIZE == 0
    ensures addr <= BlocksFrom(addr) && BlocksTo(addr, length) <= addr + length
  {}

  /** The request has a full block, inside the 48-bit space, and nothing on it is huge. */
  ghost predicate HasBlock(areas: seq<Area>, addr: nat, length: nat) {
    BlocksFrom(addr) < BlocksTo(addr, length) <= TOP && NothingHuge(areas, BlocksFrom(addr), BlocksTo(addr, length))
  }

  lemma FitsHasBlock(areas: seq<Area>, addr: nat, length: nat)
    requires MakeFits(areas, addr, length)
    ensures HasBlock(areas, addr, length)
  {}

  /** Such a request, once accepted, keeps the list well formed and in agreement with the page
      table if and only if no area straddles its end; and then it is exact. */
  lemma MakeKeeps(st: State, addr: nat, length: nat, prot: nat, force: bool, st': State)
    requires Inv(st) && MakeStep(st, addr, length, prot, force, st')
    requires Scan(st.areas, addr, length, prot, force) == Accepted && HasBlock(st.areas, addr, length)
    ensures WellFormed(st'.areas) && Agree(st'.areas, st'.space) <==> MakeFits(st.areas, addr, length)
    ensures MakeFits(st.areas, addr, length) ==>
              MadeHugeExactly(st.areas, st'.areas, BlocksFrom(addr), BlocksTo(addr, length), prot)
  {
    BlockBounds(addr, length);
    hide Sound, Map, AllInBlocks, WellFormed, Find, MakeHuge, Scan, KeepsReads, BlocksFrom, BlocksTo;
    MakeHugeExactIff(st.areas, BlocksFrom(addr), BlocksTo(addr, length), prot);
  }

  /** Without a full block the call can succeed and link an area that ends before it starts:
      here a page behind the dummy, in an empty list. */
  lemma MakeNoBlockBreaks()
    ensures Scan([], DUMMY_END, PAGE_SIZE, 1, false) == Accepted
    ensures var x, l := BlocksFrom(DUMMY_END), BlocksTo(DUMMY_END, PAGE_SIZE);
            MakeHuge([], x, l, 1) == [Area(0x1_8040_0000, 0x1_8020_0000, 1, HugePage)]
            && !WellFormed(MakeHuge([], x, l, 1))
  {
    var x, l := BlocksFrom(DUMMY_END), BlocksTo(DUMMY_END, PAGE_SIZE);
    assert x == 0x1_8040_0000 && l == 0x1_8020_0000;
    MakeNoBlockIff([], x, l, 1);
  }

  lemma BreakAligned(addr: nat, length: nat)
    requires !BreakRefused(addr, length)
    ensures addr < addr + length && addr % PAGE_SIZE == 0 && (addr + length) % PAGE_SIZE == 0
  {
    WholePages(addr);
    WholePages(length);
    PagesAdd(addr, length);
  }

  lemma WholePages(x: nat)
    requires x % HUGE_PAGE_SIZE == 0
    ensures x % PAGE_SIZE == 0
  {
    assert x == PAGE_SIZE * (SLOTS * (x / HUGE_PAGE_SIZE));
  }

  lemma PagesAdd(x: nat, y: nat)
    requires x % PAGE_SIZE == 0 && y % PAGE_SIZE == 0
    ensures (x + y) % PAGE_SIZE == 0
  {}

  /** A break keeps list and page table together if and only if it is safe; and when it fits
      the list, it is safe and exact. */
  lemma BreakKeeps(st: State, addr: nat, length: nat, st': State)
    requires Inv(st) && BreakStep(st, addr, length, st') && !BreakRefused(addr, length)
    ensures WellFormed(st'.areas) && Agree(st'.areas, st'.space) <==> BreakSafe(st, addr, addr + length)
    ensures BreakFits(st.areas, addr, addr + length) ==>
              BreakSafe(st, addr, addr + length) && BrokenExactly(st.areas, st'.areas, addr, addr + length)
  {
    hide *;
    var x, l := addr, addr + length;
    BreakAligned(addr, length);
    BreakFacts(st, addr, length, st');
    BreakExactIff(st.areas, x, l);
    if t: nat :| t < |st.areas| && TailCut(st.areas[t], x, l) {
      TailParts(st, st', t, x, l);
    } else {
      UncutBreakable(st.areas, x, l);
      BreakLeaves(st.areas, x, l);
      SafeIs(st, x, l);
      if t: nat :| t < |st.areas| && ExactTail(st.areas[t], x, l) {
        TailAgrees(st, st', t, x, l);
      } else {
        var at := LostUpTo(st, st', x, l);
        LossAgrees(st, st', at, x, l);
      }
    }
  }

  lemma BreakFacts(st: State, addr: nat, length: nat, st': State)
    requires Inv(st) && BreakStep(st, addr, length, st') && !BreakRefused(addr, length)
    ensures WellFormed(st.areas) && addr < addr + length && st'.areas == Break(st.areas, addr, addr + length)
    ensures HandedDown(st.areas, st.space, st'.space, addr, addr + length)
  {}

  lemma UncutBreakable(areas: seq<Area>, x: nat, l: nat)
    requires WellFormed(areas) && x < l && x % PAGE_SIZE == 0 && l % PAGE_SIZE == 0
    requires forall t: nat :: t < |areas| ==> !TailCut(areas[t], x, l)
    ensures Breakable(areas, x, l)
  {
    hide WellFormed, TailCut;
  }

  /** A cut short area leaves a huge page behind that the list no longer maps. */
  lemma TailParts(st: State, st': State, t: nat, x: nat, l: nat)
    requires Inv(st) && x < l && x % PAGE_SIZE == 0 && t < |st.areas| && TailCut(st.areas[t], x, l)
    requires st'.areas == Break(st.areas, x, l) && HandedDown(st.areas, st.space, st'.space, x, l)
    ensures !Agree(st'.areas, st'.space) && !BreakSafe(st, x, l) && !BreakFits(st.areas, x, l)
  {
    TailPage(st.areas, t, x, l);
    hide Sound, Map, WellFormed, AllInBlocks, Break, HandedOver, Find;
    assert st.areas[t] in st.areas;
    assert Map(st'.space, x / PAGE_SIZE).Big? && KindAt(st'.areas, x / PAGE_SIZE) == None;
  }

  lemma TailPage(areas: seq<Area>, t: nat, x: nat, l: nat)
    requires WellFormed(areas) && x < l && x % PAGE_SIZE == 0 && t < |areas| && TailCut(areas[t], x, l)
    ensures x / PAGE_SIZE < PAGES && x / PAGE_SIZE * PAGE_SIZE == x && !HandedOver(areas, x, l, x)
    ensures KindAt(areas, x / PAGE_SIZE) == Some(HugePage) && KindAt(Break(areas, x, l), x / PAGE_SIZE) == None
  {
    TailCutHands(areas, t, x, l);
    BreakTailLoses(areas, t, x, l, x);
    assert Sane(areas[t]);
    hide WellFormed, HandedOver, Break, Find;
  }

  /** An area that ends with the request and starts below it: nothing changes. */
  lemma TailAgrees(st: State, st': State, t: nat, x: nat, l: nat)
    requires Inv(st) && x < l && t < |st.areas| && ExactTail(st.areas[t], x, l)
    requires st'.areas == Break(st.areas, x, l) && HandedDown(st.areas, st.space, st'.space, x, l)
    ensures WellFormed(st'.areas) && Agree(st'.areas, st'.space) && !CoversLater(st.areas, x, l)
  {
    BreakMissesTail(st.areas, t, x, l);
    StandsApart(st.areas, t);
    forall v: nat | v < PAGES
      ensures Map(st'.space, v) == Map(st.space, v)
    {
      ExactTailHands(st.areas, t, x, l, v * PAGE_SIZE);
    }
    hide Sound, Map, WellFormed, AllInBlocks, KindAt, HandedOver;
  }

  /** Below which address the list loses what it maps. */
  lemma LostUpTo(st: State, st': State, x: nat, l: nat) returns (at: nat)
    requires Breakable(st.areas, x, l) && st'.areas == Break(st.areas, x, l)
    requires forall t: nat :: t < |st.areas| ==> !ExactTail(st.areas[t], x, l)
    ensures at <= l && LostBelow(st.areas, st'.areas, at, x, l)
    ensures BreakSafe(st, x, l) <==> Harmless(st, at, x)
  {
    BreakLeaves(st.areas, x, l);
    SafeIs(st, x, l);
    if CoversLater(st.areas, x, l) {
      var m := LastLater(st.areas, x, l);
      at := st.areas[m].start;
      StandsApart(st.areas, m);
      HarmlessBelow(st, m, x, l);
      hide WellFormed, Break, LostBelow, Harmless;
    } else {
      at := 0;
      BreakExactIff(st.areas, x, l);
      hide WellFormed, Break, Lookup, BreakFits;
    }
  }

  lemma SafeIs(st: State, x: nat, l: nat)
    requires Breakable(st.areas, x, l)
    ensures BreakSafe(st, x, l) <==>
            forall k :: 0 < k < |st.areas| && Covered(st.areas[k], x, l) ==> Harmless(st, st.areas[k].start, x)
    ensures !CoversLater(st.areas, x, l) ==> BreakSafe(st, x, l)
    ensures BreakFits(st.areas, x, l) ==> BreakSafe(st, x, l)
  {
    hide Harmless;
    if BreakFits(st.areas, x, l) {
      FitsLosesNothing(st.areas, x, l);
    }
    hide WellFormed;
  }

  lemma HarmlessBelow(st: State, m: nat, x: nat, l: nat)
    requires WellFormed(st.areas) && m > 0 && LastCovered(st.areas, m, x, l)
    ensures Harmless(st, st.areas[m].start, x) <==>
            forall k :: 0 < k < |st.areas| && Covered(st.areas[k], x, l) ==> Harmless(st, st.areas[k].start, x)
  {
    StandsApart(st.areas, m);
    hide WellFormed, PageHarmless;
  }

  /** What the list loses leaves it in agreement with the page table if and only if that is harmless. */
  lemma LossAgrees(st: State, st': State, at: nat, x: nat, l: nat)
    requires Inv(st) && at <= l && LostBelow(st.areas, st'.areas, at, x, l)
    requires HandedDown(st.areas, st.space, st'.space, x, l)
    requires forall t: nat :: t < |st.areas| ==> !TailCut(st.areas[t], x, l) && !ExactTail(st.areas[t], x, l)
    ensures Agree(st'.areas, st'.space) <==> Harmless(st, at, x)
  {
    AgreePages(st'.areas, st'.space);
    AgreePages(st.areas, st.space);
    hide WellFormed, Sound, AllInBlocks, Agree, Map, LostBelow, HandedDown, PageHarmless, PageAgrees, TailCut,
      ExactTail;
    forall v: nat | v < PAGES
      ensures PageAgrees(st'.areas, st'.space, v) <==> (v * PAGE_SIZE < at ==> PageHarmless(st, x, v))
    {
      KindHanded(st.areas, x, l, v);
      KindLost(st.areas, st'.areas, at, x, l, v);
      HandedAt(st.areas, st.space, st'.space, x, l, v);
      PageLoss(st, st', at, x, l, v);
    }
  }

  lemma PageLoss(st: State, st': State, at: nat, x: nat, l: nat, v: nat)
    requires PageAgrees(st.areas, st.space, v) && at <= l
    requires var a, kind := v * PAGE_SIZE, KindAt(st.areas, v);
             && KindAt(st'.areas, v) == LostKind(kind, a, at, x, l)
             && if x <= a < l && kind == Some(HugePage) then Lowered(Map(st.space, v), Map(st'.space, v))
                else Map(st'.space, v) == Map(st.space, v)
    ensures PageAgrees(st'.areas, st'.space, v) <==> (v * PAGE_SIZE < at ==> PageHarmless(st, x, v))
  {
    hide Map, KindAt, InMmap, AcFlags;
  }

  /** What a break that loses what is below `at` leaves of a kind. */
  function LostKind(kind: Option<Kind>, a: nat, at: nat, x: nat, l: nat): Option<Kind> {
    if a < at then None else if x <= a < l && kind == Some(HugePage) then Some(Normal) else kind
  }

  lemma KindLost(areas: seq<Area>, out: seq<Area>, at: nat, x: nat, l: nat, v: nat)
    requires LostBelow(areas, out, at, x, l)
    ensures KindAt(out, v) == LostKind(KindAt(areas, v), v * PAGE_SIZE, at, x, l)
  {
    hide Lookup;
    assert Lookup(out, v * PAGE_SIZE) ==
           if v * PAGE_SIZE < at then None else Broken(Lookup(areas, v * PAGE_SIZE), v * PAGE_SIZE, x, l);
  }

  lemma KindHanded(areas: seq<Area>, x: nat, l: nat, v: nat)
    requires WellFormed(areas)
    requires forall t: nat :: t < |areas| ==> !TailCut(areas[t], x, l) && !ExactTail(areas[t], x, l)
    ensures HandedOver(areas, x, l, v * PAGE_SIZE) <==> x <= v * PAGE_SIZE < l && KindAt(areas, v) == Some(HugePage)
  {
    hide TailCut, ExactTail, HandedOver, WellFormed, Find;
    HandedIff(areas, x, l, v * PAGE_SIZE);
  }

  lemma HandedAt(areas: seq<Area>, s: Space, s': Space, x: nat, l: nat, v: nat)
    requires HandedDown(areas, s, s', x, l) && v < PAGES
    ensures if HandedOver(areas, x, l, v * PAGE_SIZE) then Lowered(Map(s, v), Map(s', v)) else Map(s', v) == Map(s, v)
  {
    hide Map, HandedOver;
  }

  ghost predicate PageAgrees(areas: seq<Area>, s: Space, v: nat) {
    && (Map(s, v).Big? <==> KindAt(areas, v) == Some(HugePage))
    && (InMmap(v) && Map(s, v).Small? ==> KindAt(areas, v) == Some(Normal))
  }

  lemma AgreePages(areas: seq<Area>, s: Space)
    ensures Agree(areas, s) <==> forall v: nat :: v < PAGES ==> PageAgrees(areas, s, v)
  {
    hide Map, KindAt;
    if forall v: nat :: v < PAGES ==> PageAgrees(areas, s, v) {
      forall v: nat | v < PAGES
        ensures Map(s, v).Big? <==> KindAt(areas, v) == Some(HugePage)
        ensures InMmap(v) && Map(s, v).Small? ==> KindAt(areas, v) == Some(Normal)
      {
        assert PageAgrees(areas, s, v);
      }
    }
  }

  /** When the request fits, exactly its huge pages go to 4 KiB frames. */
  lemma FitsDemotes(st: State, addr: nat, length: nat, st': State)
    requires Inv(st) && BreakStep(st, addr, length, st') && !BreakRefused(addr, length)
    requires BreakFits(st.areas, addr, addr + length)
    ensures Demoted(st.areas, st.space, st'.space, addr, addr + length)
  {
    hide Inv, HandedOver, HandedDown, TailCut, ExactTail, Map, KindAt, BreakStep, BreakFits, AcFlags;
    var x, l := addr, addr + length;
    BreakFacts(st, addr, length, st');
    FitsNoTail(st.areas, x, l);
    forall v: nat | v < PAGES
      ensures if x <= v * PAGE_SIZE < l && KindAt(st.areas, v) == Some(HugePage)
              then Map(st.space, v).Big? && Map(st'.space, v).Small? &&
                   Map(st'.space, v).flags == AcFlags(Map(st.space, v).flags)
              else Map(st'.space, v) == Map(st.space, v)
    {
      KindHanded(st.areas, x, l, v);
      HandedAt(st.areas, st.space, st'.space, x, l, v);
      HugeMapped(st, v);
    }
  }

  lemma HugeMapped(st: State, v: nat)
    requires Inv(st) && v < PAGES
    ensures KindAt(st.areas, v) == Some(HugePage) ==> Map(st.space, v).Big?
  {
    hide Sound, Map, KindAt, WellFormed;
  }

  lemma FitsNoTail(areas: seq<Area>, x: nat, l: nat)
    requires BreakFits(areas, x, l) && x < l
    ensures forall t: nat :: t < |areas| ==> !TailCut(areas[t], x, l) && !ExactTail(areas[t], x, l)
  {
    forall t: nat | t < |areas|
      ensures !TailCut(areas[t], x, l) && !ExactTail(areas[t], x, l)
    {
      assert EndsIn(areas[t], x, l) ==> t == 0 && x <= areas[0].start;
    }
  }

  /** Every call that fits keeps the invariant. */
  lemma StepKeeps(st: State, c: Call, st': State)
    requires Inv(st) && Step(st, c, st') && Fits(st, c)
    ensures Inv(st')
  {
    hide WellFormed, AllInBlocks, Sound, Agree, FaultStep, MapStep, MakeFits, MapFits, SparesHuge, BreakFits,
      RangeCleared, Demoted, RangeBig, KeepsReads, Scan;
    StepKeepsBlocks(st, c, st');
    match c
    case Fault(addr, code) =>
      FaultKeepsAreas(st, addr, code, st');
      FaultKeeps(st, addr, code, st');
    case MapCall(addr, length, prot, flags) => MapKeeps(st, addr, length, prot, flags, st');
    case UnmapCall(addr, length) =>
      if length > 0 && addr % PAGE_SIZE == 0 {
        UnmapKeeps(st, addr, length, st');
      }
    case MakeCall(addr, length, prot, force) =>
      if Scan(st.areas, addr, length, prot, force) == Accepted {
        FitsHasBlock(st.areas, addr, length);
        MakeKeeps(st, addr, length, prot, force, st');
      }
    case BreakCall(addr, length) =>
      if !BreakRefused(addr, length) {
        BreakKeeps(st, addr, length, st');
      }
  }

  /** For maps, unmaps and breaks, and for requests for huge pages with a full block on which
      nothing is huge, that condition is the exact one: the invariant survives if and only if
      the call fits. */
  lemma StepKeepsIff(st: State, c: Call, st': State)
    requires Inv(st) && Step(st, c, st')
    requires c.MapCall? || c.UnmapCall? || c.BreakCall? || (c.MakeCall? && HasBlock(st.areas, c.addr, c.size))
    ensures Inv(st') <==> Fits(st, c)
  {
    hide WellFormed, AllInBlocks, Sound, Agree, MapStep, UnmapStep, MakeStep, BreakStep, MapFits, SparesHuge, MakeFits,
      BreakSafe, HasBlock;
    if Fits(st, c) {
      StepKeeps(st, c, st');
    } else if c.MapCall? {
      MapKeeps(st, c.addr, c.length, c.prot, c.flags, st');
    } else if c.UnmapCall? {
      UnmapKeeps(st, c.addr, c.length, st');
    } else if c.MakeCall? {
      MakeKeeps(st, c.addr, c.size, c.prot, c.force, st');
    } else {
      BreakKeeps(st, c.addr, c.size, st');
    }
  }

  // ---- what each call does, page by page ----

  /** A fault without a protection error on a page of a normal area makes it resident: where it was,
      or in a frame that was free, as writable as the fault asks.  Every other page stays; a page of
      a huge area is resident already; and any other fault changes nothing. */
  lemma FaultMeans(st: State, addr: nat, code: nat, st': State)
    requires Inv(st) && Step(st, Fault(addr, code), st') && addr < TOP
    ensures st'.areas == st.areas && (code % 2 == 1 || Lookup(st.areas, addr).None? ==> st' == st)
    ensures var v := addr / PAGE_SIZE;
            var (m, m') := (Map(st.space, v), Map(st'.space, v));
            && (forall u: nat :: u < PAGES && u != v ==> Map(st'.space, u) == Map(st.space, u))
            && (!m.Unmapped? ==> m' == m)
            && (code % 2 == 0 && Lookup(st.areas, addr).Some? ==>
                  if Lookup(st.areas, addr).value.kind == HugePage then m.Big?
                  else m'.Small? && (m.Unmapped? ==> m'.frame in st.space.freePages && m'.flags == AcFlags(code)))
  {
    hide WellFormed, Sound, Map, Path, AllInBlocks, Find, AcFlags;
    var v := PageOf(addr);
    PageInOneArea(st.areas, addr);
    assert Lookup(st.areas, addr).Some? ==> KindAt(st.areas, v) == Some(Lookup(st.areas, addr).value.kind);
  }

  /** An unmap takes from the list what `UnmapExact` says, and unmaps exactly the normal pages of
      the range. */
  lemma UnmapMeans(st: State, addr: nat, length: int, st': State)
    requires Inv(st) && Step(st, UnmapCall(addr, length), st')
    ensures length <= 0 || addr % PAGE_SIZE != 0 ==> st' == st
    ensures length > 0 && addr % PAGE_SIZE == 0 ==>
              && (forall a: nat :: Lookup(st'.areas, a) ==
                    match Lookup(st.areas, a)
                    case None => None
                    case Some(t) => if Removed(t.kind, a, addr, length) then None else Some(t))
              && (forall v: nat :: v < PAGES ==>
                    Map(st'.space, v) ==
                    if KindAt(st.areas, v) == Some(Normal) && addr <= v * PAGE_SIZE < addr + length then Unmapped
                    else Map(st.space, v))
  {
    hide Inv, WellFormed, Sound, Map, AllInBlocks, KindAt, Lookup, UnmapAreas, Removed;
    if length > 0 && addr % PAGE_SIZE == 0 {
      InvList(st);
      UnmapExact(st.areas, addr, length);
      forall v: nat | v < PAGES
        ensures Map(st'.space, v) ==
                if KindAt(st.areas, v) == Some(Normal) && addr <= v * PAGE_SIZE < addr + length then Unmapped
                else Map(st.space, v)
      {
        RemovedPage(v, addr, length);
      }
    }
  }

  lemma InvList(st: State)
    requires Inv(st)
    ensures WellFormed(st.areas)
  {}

  lemma RemovedPage(v: nat, addr: nat, length: nat)
    ensures Removed(Normal, v * PAGE_SIZE, addr, length) <==> addr <= v * PAGE_SIZE < addr + length
  {
    assert v * PAGE_SIZE / PAGE_SIZE == v;
  }

  /** A request for huge pages that is accepted and fits backs exactly its whole 2 MiB blocks by
      2 MiB frames, as writable as it asks, and the list says so. */
  lemma MakeMeans(st: State, addr: nat, length: nat, prot: nat, force: bool, st': State, x: nat, l: nat)
    requires Inv(st) && Step(st, MakeCall(addr, length, prot, force), st')
    requires Fits(st, MakeCall(addr, length, prot, force))
    requires Rounded(addr, HUGE_PAGE_SIZE, x) && l % HUGE_PAGE_SIZE == 0 && l <= addr + length < l + HUGE_PAGE_SIZE
    ensures Scan(st.areas, addr, length, prot, force) != Accepted ==> st' == st
    ensures Scan(st.areas, addr, length, prot, force) == Accepted ==>
              && (forall a: nat :: Lookup(st'.areas, a) ==
                    if x <= a < l then Some(Attr(prot, HugePage)) else Lookup(st.areas, a))
              && (forall v: nat :: v < PAGES ==>
                    if x <= v * PAGE_SIZE < l
                    then Map(st'.space, v).Big? && Map(st'.space, v).flags == AcFlags(prot)
                    else Map(st'.space, v) == Map(st.space, v))
              && (forall v: nat :: v < PAGES && Read(st.space, v).Some? ==> Read(st'.space, v) == Read(st.space, v))
  {
    hide Inv, Sound, BlocksFrom, BlocksTo, MakeHuge, Map, Read, Lookup, Scan, AcFlags, MakeFits;
    BlocksAre(addr, length, x, l);
    if Scan(st.areas, addr, length, prot, force) == Accepted {
      FitsHasBlock(st.areas, addr, length);
      MakeKeeps(st, addr, length, prot, force, st');
    }
  }

  /** The whole blocks of a request. */
  lemma BlocksAre(addr: nat, length: nat, x: nat, l: nat)
    requires Rounded(addr, HUGE_PAGE_SIZE, x) && l % HUGE_PAGE_SIZE == 0 && l <= addr + length < l + HUGE_PAGE_SIZE
    ensures BlocksFrom(addr) == x && BlocksTo(addr, length) == l
  {
    hide RoundUp, RoundDown, Rounded;
    RoundUpIs(addr, HUGE_PAGE_SIZE);
    RoundDownIs(addr + length, HUGE_PAGE_SIZE);
    NextMultiple(RoundDown(addr + length, HUGE_PAGE_SIZE), l, HUGE_PAGE_SIZE);
  }

  /** A break that fits the list turns exactly the huge pages of its range into normal ones, each in
      a 4 KiB frame of its own and as writable as before. */
  lemma BreakMeans(st: State, addr: nat, length: nat, st': State)
    requires Inv(st) && Step(st, BreakCall(addr, length), st') && BreakFits(st.areas, addr, addr + length)
    ensures addr == 0 || length == 0 || length % HUGE_PAGE_SIZE != 0 || addr % HUGE_PAGE_SIZE != 0 ==> st' == st
    ensures addr > 0 && length > 0 && length % HUGE_PAGE_SIZE == 0 && addr % HUGE_PAGE_SIZE == 0 ==>
              && (forall a: nat :: Lookup(st'.areas, a) ==
                    match Lookup(st.areas, a)
                    case Some(Attr(flags, HugePage)) =>
                      Some(Attr(flags, if addr <= a < addr + length then Normal else HugePage))
                    case t => t)
              && (forall v: nat :: v < PAGES ==>
                    if addr <= v * PAGE_SIZE < addr + length && KindAt(st.areas, v) == Some(HugePage)
                    then Map(st'.space, v).Small? && Map(st'.space, v).flags == AcFlags(Map(st.space, v).flags)
                    else Map(st'.space, v) == Map(st.space, v))
              && (forall v: nat :: v < PAGES && Read(st.space, v).Some? ==> Read(st'.space, v) == Read(st.space, v))
  {
    if !BreakRefused(addr, length) {
      BreakKeeps(st, addr, length, st');
      FitsDemotes(st, addr, length, st');
      hide Inv, Map, Read, KindAt, Break, BreakFits, Lookup, AcFlags, HandedDown;
      forall a: nat
        ensures Lookup(st'.areas, a) == match Lookup(st.areas, a)
                                        case Some(Attr(flags, HugePage)) =>
                                          Some(Attr(flags, if addr <= a < addr + length then Normal else HugePage))
                                        case t => t
      {
        assert Lookup(st'.areas, a) == Broken(Lookup(st.areas, a), a, addr, addr + length);
      }
    }
  }

  // ---- what stays readable ----

  /** The call takes page `v` away. */
  ghost predicate TakesAway(st: State, c: Call, v: nat) {
    c.UnmapCall? && c.length > 0 && c.addr % PAGE_SIZE == 0 && RemovedNormal(st.areas, v, c.addr, c.length)
  }

  /** A resident page that a call does not take away reads the same bytes after it, whatever
      frames they have moved to. */
  lemma StepKeepsReads(st: State, c: Call, st': State, v: nat)
    requires Step(st, c, st') && v < PAGES && Read(st.space, v).Some? && !TakesAway(st, c, v)
    ensures Read(st'.space, v) == Read(st.space, v)
  {
    hide Sound, Map, Path, Scan, BreakFits;
    match c
    case Fault(addr, code) =>
      if code % 2 == 0 && Lookup(st.areas, addr).Some? && Lookup(st.areas, addr).value.kind == HugePage {
        MadeHugeExtends(st.space, st'.space, PageOf(addr), AcFlags(code));
      }
    case MapCall(addr, length, prot, flags) =>
    case UnmapCall(addr, length) =>
    case MakeCall(addr, length, prot, force) =>
    case BreakCall(addr, length) =>
  }

  // ---- runs ----

  /** A run of calls that fit, from state to state. */
  ghost predicate Run(states: seq<State>, calls: seq<Call>) {
    && |states| == |calls| + 1
    && forall i :: 0 <= i < |calls| ==> Step(states[i], calls[i], states[i + 1]) && Fits(states[i], calls[i])
  }

  lemma {:induction false} RunKeeps(states: seq<State>, calls: seq<Call>, n: nat)
    requires Run(states, calls) && Inv(states[0]) && n < |states|
    ensures Inv(states[n])
  {
    hide Inv, Step, Fits;
    if n > 0 {
      RunKeeps(states, calls, n - 1);
      StepKeeps(states[n - 1], calls[n - 1], states[n]);
    }
  }

  /** At every point of every run: a page has a huge leaf exactly when its area is huge, a
      4 KiB leaf of the mmap range lies in a normal area, no frame backs two pages, no
      2 MiB frame two blocks, and no frame behind a page is free. */
  lemma RunSafe(states: seq<State>, calls: seq<Call>, n: nat, u: nat, v: nat)
    requires Run(states, calls) && Inv(states[0]) && n < |states| && u < PAGES && v < PAGES
    ensures var (areas, s) := (states[n].areas, states[n].space);
            var (m, k) := (Map(s, u), Map(s, v));
            && WellFormed(areas)
            && (m.Big? <==> KindAt(areas, u) == Some(HugePage))
            && (InMmap(u) && m.Small? ==> KindAt(areas, u) == Some(Normal))
            && (m.Small? && k.Small? && m.frame == k.frame ==> u == v)
            && (m.Big? && k.Big? && m.frame == k.frame ==> u / SLOTS == v / SLOTS)
            && (m.Small? ==> m.frame !in s.freePages)
            && (m.Big? ==> m.frame !in s.freeHuges)
            && (m.Small? && k.Big? ==> m.frame / SLOTS != k.frame)
  {
    RunKeeps(states, calls, n);
    var s := states[n].space;
    NoSharing(s.mem, s.root, s.owner, u, v);
    MappedInUse(s, u);
    MappedInUse(s, v);
  }

  /** Over a whole run, a page that was resident and is never taken away reads the same. */
  lemma {:induction false} RunKeepsReads(states: seq<State>, calls: seq<Call>, n: nat, v: nat)
    requires Run(states, calls) && n < |states| && v < PAGES && Read(states[0].space, v).Some?
    requires forall i :: 0 <= i < n ==> !TakesAway(states[i], calls[i], v)
    ensures Read(states[n].space, v) == Read(states[0].space, v)
  {
    hide Step, Fits, Read, TakesAway;
    if n > 0 {
      RunKeepsReads(states, calls, n - 1, v);
      StepKeepsReads(states[n - 1], calls[n - 1], states[n], v);
    }
  }

  /** What the list alone needs: an unmap may take anything, and a break may lose mappings, as
      long as it cuts no area short. */
  ghost predicate ListFits(st: State, c: Call) {
    match c
    case UnmapCall(addr, length) => true
    case BreakCall(addr, length) => !BreakRefused(addr, length) ==>
      forall ar :: ar in st.areas ==> !TailCut(ar, addr, addr + length)
    case _ => Fits(st, c)
  }

  lemma FitsList(st: State, c: Call)
    requires Fits(st, c)
    ensures ListFits(st, c)
  {}

  ghost predicate ListRun(states: seq<State>, calls: seq<Call>) {
    && |states| == |calls| + 1
    && forall i :: 0 <= i < |calls| ==> Step(states[i], calls[i], states[i + 1]) && ListFits(states[i], calls[i])
  }

  /** Every run of calls that fit is one. */
  lemma RunIsListRun(states: seq<State>, calls: seq<Call>)
    requires Run(states, calls)
    ensures ListRun(states, calls)
  {
    hide Step, Fits, ListFits;
    forall i | 0 <= i < |calls|
      ensures ListFits(states[i], calls[i])
    {
      FitsList(states[i], calls[i]);
    }
  }

  lemma ListStepKeeps(st: State, c: Call, st': State)
    requires WellFormed(st.areas) && Step(st, c, st') && ListFits(st, c)
    ensures WellFormed(st'.areas)
  {
    hide WellFormed, Sound, FaultStep, RangeCleared, HandedDown, RangeBig, KeepsReads, Scan, Straddles, Break,
      MadeHugeExactly, MakeHuge, UnmapAreas, MapAreas, Lookup, Removed, MapFits, TailCut;
    match c
    case Fault(addr, code) => FaultKeepsAreas(st, addr, code, st');
    case MapCall(addr, length, prot, flags) =>
      assert WellFormed(MapAreas(st.areas, addr, length, prot, flags)) by {
        MapWellFormedIff(st.areas, addr, length, prot, flags);
      }
    case UnmapCall(addr, length) =>
      if length > 0 && addr % PAGE_SIZE == 0 {
        assert WellFormed(UnmapAreas(st.areas, addr, length)) by {
          UnmapExact(st.areas, addr, length);
        }
      }
    case MakeCall(addr, length, prot, force) =>
      BlockBounds(addr, length);
      if Scan(st.areas, addr, length, prot, force) == Accepted {
        assert WellFormed(MakeHuge(st.areas, BlocksFrom(addr), BlocksTo(addr, length), prot)) by {
          MakeHugeExactIff(st.areas, BlocksFrom(addr), BlocksTo(addr, length), prot);
        }
      }
    case BreakCall(addr, length) =>
      if !BreakRefused(addr, length) {
        assert WellFormed(Break(st.areas, addr, addr + length)) by {
          BreakAligned(addr, length);
          BreakLeaves(st.areas, addr, addr + length);
        }
      }
  }

  lemma {:induction false} ListRunWellFormed(states: seq<State>, calls: seq<Call>, n: nat)
    requires ListRun(states, calls) && WellFormed(states[0].areas) && n < |states|
    ensures WellFormed(states[n].areas)
  {
    hide Step, ListFits, WellFormed;
    if n > 0 {
      ListRunWellFormed(states, calls, n - 1);
      ListStepKeeps(states[n - 1], calls[n - 1], states[n]);
    }
  }

  // ---- the node counter ----

  /** How many nodes the call cuts off from the list without freeing them. */
  function LostBy(st: State, c: Call): nat {
    if c.BreakCall? && !BreakRefused(c.addr, c.size) then LostFrom(st.areas, 0, c.addr, c.addr + c.size) else 0
  }

  /** The counter of nodes moves with the list, but keeps the nodes that the call cuts off. */
  ghost predicate Counts(st: State, count: int, c: Call, st': State, count': int) {
    count' - |st'.areas| == count - |st.areas| + LostBy(st, c)
  }

  /** A break that covers a huge area behind the first. */
  ghost predicate CutsOff(st: State, c: Call) {
    c.BreakCall? && !BreakRefused(c.addr, c.size) && CoversLater(st.areas, c.addr, c.addr + c.size)
  }

  lemma CutsOffIff(st: State, c: Call)
    requires WellFormed(st.areas)
    ensures LostBy(st, c) > 0 <==> CutsOff(st, c)
  {
    if c.BreakCall? && !BreakRefused(c.addr, c.size) {
      LosesNodesIff(st.areas, c.addr, c.addr + c.size);
    }
    hide WellFormed, LostFrom, CoversLater;
  }

  /** A break that fits the list cuts nothing off. */
  lemma FitsCutsNothing(st: State, addr: nat, size: nat)
    requires WellFormed(st.areas) && (!BreakRefused(addr, size) ==> BreakFits(st.areas, addr, addr + size))
    ensures LostBy(st, BreakCall(addr, size)) == 0
  {
    CutsOffIff(st, BreakCall(addr, size));
    if !BreakRefused(addr, size) {
      FitsLosesNothing(st.areas, addr, addr + size);
    }
    hide WellFormed, LostFrom, CoversLater, BreakFits;
  }

  ghost predicate CountRun(states: seq<State>, counts: seq<int>, calls: seq<Call>) {
    && ListRun(states, calls) && |counts| == |states|
    && forall i :: 0 <= i < |calls| ==> Counts(states[i], counts[i], calls[i], states[i + 1], counts[i + 1])
  }

  /** Over every run the counter, which counts the dummy too, is the length of the list plus one
      if and only if no break so far has covered a huge area behind the first; else it is more. */
  lemma {:induction false} RunCounts(states: seq<State>, counts: seq<int>, calls: seq<Call>, n: nat)
    requires CountRun(states, counts, calls) && WellFormed(states[0].areas) && n < |states|
    requires counts[0] == |states[0].areas| + 1
    ensures counts[n] >= |states[n].areas| + 1
    ensures counts[n] == |states[n].areas| + 1 <==> forall i :: 0 <= i < n ==> !CutsOff(states[i], calls[i])
  {
    hide Step, ListFits, WellFormed, LostBy, CutsOff;
    if n > 0 {
      RunCounts(states, counts, calls, n - 1);
      ListRunWellFormed(states, calls, n - 1);
      CutsOffIff(states[n - 1], calls[n - 1]);
      assert Counts(states[n - 1], counts[n - 1], calls[n - 1], states[n], counts[n]);
    }
  }

  // ---- breaking and remaking ----

  /** Breaking whole blocks of one huge area and asking to make them huge again, with the
      same protection: once that is accepted, the list is restored node for node, the blocks
      are in 2 MiB frames again, and every page that was resident reads the same. */
  lemma BreakMakeRestores(st: State, st1: State, st2: State, addr: nat, length: nat, prot: nat, force: bool)
    requires Inv(st) && addr + length <= TOP && !BreakRefused(addr, length)
    requires forall a: nat :: addr <= a < addr + length ==> Lookup(st.areas, a) == Some(Attr(prot, HugePage))
    requires BreakStep(st, addr, length, st1) && BreakFits(st.areas, addr, addr + length)
    requires MakeStep(st1, addr, length, prot, force, st2) && Scan(st1.areas, addr, length, prot, force) == Accepted
    ensures st2.areas == st.areas
    ensures forall v: nat :: v < PAGES ==>
              if addr <= v * PAGE_SIZE < addr + length then Map(st2.space, v).Big?
                else Map(st2.space, v) == Map(st.space, v)
    ensures KeepsReads(st.space, st2.space)
  {
    hide WellFormed, Sound, Map, Read, Break, Scan, BreakFits, Find, Lookup, BlocksFrom, BlocksTo, RangeBig,
      KeepsReads, Demoted, Inv, BreakStep, BrokenExactly, OutsideSame, MakeHuge;
    BlocksAreExact(addr, length);
    BrokenFacts(st, st1, addr, length, prot);
    RemadeMaps(st.space, st1.space, st2.space, addr, addr + length, AcFlags(prot));
  }

  /** In the window in which the list begins it is accepted. */
  lemma BreakMakeAccepted(st: State, st1: State, addr: nat, length: nat, prot: nat, force: bool)
    requires Inv(st) && addr + length <= TOP && !BreakRefused(addr, length)
    requires forall a: nat :: addr <= a < addr + length ==> Lookup(st.areas, a) == Some(Attr(prot, HugePage))
    requires BreakStep(st, addr, length, st1) && BreakFits(st.areas, addr, addr + length)
    requires AllInWindow(st.areas)
    ensures Scan(st1.areas, addr, length, prot, force) == Accepted
  {
    hide WellFormed, Sound, Scan, BreakFits, Find, Lookup, Inv, BreakStep, AllInWindow, BrokenExactly,
      OutsideSame, MakeHuge;
    BrokenFacts(st, st1, addr, length, prot);
    MappedInWindow(st.areas, addr);
    MappedInWindow(st.areas, addr + length - 1);
    BreakStaysInWindow(st.areas, st1.areas, addr, addr + length);
    RemakeAccepted(st.areas, st1.areas, addr, length, prot, force);
  }

  /** So there breaking and remaking needs nothing else. */
  lemma BreakMakeInWindow(st: State, st1: State, st2: State, addr: nat, length: nat, prot: nat, force: bool)
    requires Inv(st) && addr + length <= TOP && !BreakRefused(addr, length)
    requires forall a: nat :: addr <= a < addr + length ==> Lookup(st.areas, a) == Some(Attr(prot, HugePage))
    requires BreakStep(st, addr, length, st1) && BreakFits(st.areas, addr, addr + length)
    requires MakeStep(st1, addr, length, prot, force, st2) && AllInWindow(st.areas)
    ensures Scan(st1.areas, addr, length, prot, force) == Accepted
    ensures st2.areas == st.areas && KeepsReads(st.space, st2.space)
  {
    hide *;
    BreakMakeAccepted(st, st1, addr, length, prot, force);
    BreakMakeRestores(st, st1, st2, addr, length, prot, force);
  }

  lemma BrokenFacts(st: State, st1: State, addr: nat, length: nat, prot: nat)
    requires Inv(st) && addr + length <= TOP && !BreakRefused(addr, length)
    requires forall a: nat :: addr <= a < addr + length ==> Lookup(st.areas, a) == Some(Attr(prot, HugePage))
    requires BreakStep(st, addr, length, st1) && BreakFits(st.areas, addr, addr + length)
    ensures WellFormed(st1.areas) && BrokenExactly(st.areas, st1.areas, addr, addr + length) && length > 0
    ensures OutsideSame(st.space, st1.space, addr, addr + length)
    ensures MakeHuge(st1.areas, addr, addr + length, prot) == st.areas
  {
    hide WellFormed, Sound, Map, Break, BreakFits, Find, MakeHuge;
    BreakAligned(addr, length);
    BreakExactIff(st.areas, addr, addr + length);
    BreakThenMakeHuge(st.areas, addr, addr + length, prot);
  }

  /** Pages outside the range map as before, and every resident page reads the same. */
  ghost predicate OutsideSame(s: Space, s': Space, x: nat, l: nat) {
    && KeepsReads(s, s')
    && forall v: nat :: v < PAGES && !(x <= v * PAGE_SIZE < l) ==> Map(s', v) == Map(s, v)
  }

  lemma RemadeMaps(s: Space, s1: Space, s2: Space, x: nat, l: nat, flags: nat)
    requires OutsideSame(s, s1, x, l) && RangeBig(s1, s2, x, l, flags) && KeepsReads(s1, s2)
    ensures KeepsReads(s, s2)
    ensures forall v: nat :: v < PAGES ==>
              if x <= v * PAGE_SIZE < l then Map(s2, v).Big? else Map(s2, v) == Map(s, v)
  {
    hide Map, Read;
  }

  lemma BlocksAreExact(addr: nat, length: nat)
    requires !BreakRefused(addr, length)
    ensures BlocksFrom(addr) == addr && BlocksTo(addr, length) == addr + length
  {
    hide RoundUp, RoundDown;
    RoundUpIs(addr, HUGE_PAGE_SIZE);
    RoundDownIs(addr + length, HUGE_PAGE_SIZE);
  }

  lemma MappedInWindow(areas: seq<Area>, a: nat)
    requires AllInWindow(areas) && Lookup(areas, a).Some?
    ensures InWindow(a) && InWindow(a + 1)
  {
    FindIn(areas, a);
  }

  /** Breaking maps no address that was not mapped. */
  lemma BreakStaysInWindow(areas: seq<Area>, broken: seq<Area>, x: nat, l: nat)
    requires AllInWindow(areas) && WellFormed(broken) && BrokenExactly(areas, broken, x, l)
    ensures AllInWindow(broken)
  {
    SaneAreas(broken);
    forall ar | ar in broken
      ensures InWindow(ar.start) && InWindow(ar.end)
    {
      FindOnly(broken, ar, ar.start);
      FindOnly(broken, ar, ar.end - 1);
      hide WellFormed, AllInWindow, Find;
      assert Lookup(broken, ar.start).Some? && Lookup(broken, ar.end - 1).Some?;
      MappedInWindow(areas, ar.start);
      MappedInWindow(areas, ar.end - 1);
    }
  }

  /** What was broken whole can be made huge again. */
  lemma RemakeAccepted(areas: seq<Area>, broken: seq<Area>, addr: nat, length: nat, prot: nat, force: bool)
    requires WellFormed(broken) && AllInWindow(broken) && length > 0
    requires InWindow(addr) && InWindow(addr + length) && BrokenExactly(areas, broken, addr, addr + length)
    requires forall a: nat :: addr <= a < addr + length ==> Lookup(areas, a) == Some(Attr(prot, HugePage))
    ensures Scan(broken, addr, length, prot, force) == Accepted
  {
    hide WellFormed, Scan, Lookup, AllInWindow, GapFound;
    assert forall a: nat :: addr <= a < addr + length ==> Lookup(broken, a) == Some(Attr(prot, Normal));
    NoGapFound(broken, addr, addr + length);
    ScanExact(broken, addr, length, prot, force);
  }
}
