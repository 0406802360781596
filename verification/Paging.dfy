/** The page table in place: the kernel's walks, allocations and slot writes. */
module Paging {
  import opened Words
  import opened Tables

  type Bytes = seq<bv8>

  /** Physical memory in 4 KiB frames; a 2 MiB frame `h` is frames `h * 512` and on. */
  const FRAMES := 0x8_0000

  /** A page table with the memory behind it, as a value. */
  datatype Space = Space(
    root: nat,
    mem: Memory,
    data: seq<Bytes>,
    freeTables: set<nat>,
    freePages: set<nat>,
    freeHuges: set<nat>,
    owner: map<Frame, Place>)

  /** The allocator's regions do not overlap. */
  predicate InRegion(fr: Frame) {
    match fr
    case Table(n) => 0x2000 <= n < 0x6400
    case Page(n) => 0x6400 <= n < 0x4_0000
    case Huge(n) => 0x200 <= n < 0x400
  }

  /** The tables form a tree, frames keep to their regions, and a frame in use is not free. */
  ghost predicate Sound(s: Space) {
    && Tree(s.mem, s.root, s.owner)
    && |s.data| == FRAMES
    && (forall fr :: fr in s.owner ==> InRegion(fr))
    && (forall n :: n in s.freeTables ==>
          InRegion(Table(n)) && Table(n) !in s.owner && n in s.mem && Empty(s.mem[n]))
    && (forall n :: n in s.freePages ==> InRegion(Page(n)) && Page(n) !in s.owner)
    && (forall n :: n in s.freeHuges ==> InRegion(Huge(n)) && Huge(n) !in s.owner)
  }

  function Map(s: Space, v: nat): Mapping {
    Translate(s.mem, s.root, v)
  }

  function Path(s: Space, v: nat, level: nat): Option<nat> {
    Walk(s.mem, s.root, v, level)
  }

  /** What a program reads in page `v`. */
  function Read(s: Space, v: nat): Option<Bytes> {
    match Map(s, v)
    case Unmapped => None
    case Small(p, _) => if p < |s.data| then Some(s.data[p]) else None
    case Big(h, _) => if h * SLOTS + v % SLOTS < |s.data| then Some(s.data[h * SLOTS + v % SLOTS]) else None
  }

  /** Frames behind translations are in use, inside memory, and not free. */
  lemma MappedInUse(s: Space, v: nat)
    requires Sound(s) && v < PAGES
    ensures var m := Map(s, v);
            && (m.Small? ==> m.frame !in s.freePages && 0x6400 <= m.frame < 0x4_0000
                             && Read(s, v) == Some(s.data[m.frame]))
            && (m.Big? ==> m.frame !in s.freeHuges && 0x200 <= m.frame < 0x400
                           && Read(s, v) == Some(s.data[m.frame * SLOTS + v % SLOTS]))
  {
    TranslatePlace(s.mem, s.root, s.owner, v);
  }

  // ---- what the operations may change ----

  ghost predicate SameMap(s: Space, s': Space) {
    forall u: nat :: u < PAGES ==> Map(s', u) == Map(s, u)
  }

  /** Page `v` now maps to `m`; nothing else has moved. */
  ghost predicate OnlyPage(s: Space, s': Space, v: nat, m: Mapping) {
    forall u: nat :: u < PAGES ==> Map(s', u) == if u == v then m else Map(s, u)
  }

  /** The pages of the byte range [`lo`, `hi`) are now unmapped; nothing else has moved. */
  ghost predicate OnlyRange(s: Space, s': Space, lo: nat, hi: nat) {
    forall u: nat :: u < PAGES ==> Map(s', u) == if lo <= u * PAGE_SIZE < hi then Unmapped else Map(s, u)
  }

  /** The frames behind the pages of the byte range [`lo`, `hi`) are free again. */
  ghost predicate Released(s: Space, s': Space, lo: nat, hi: nat) {
    forall u: nat :: u < PAGES && lo <= u * PAGE_SIZE < hi && Map(s, u).Small? ==> Map(s, u).frame in s'.freePages
  }

  /** Block `b` is now backed by the 2 MiB frame `h`; nothing else has moved. */
  ghost predicate OnlyBlock(s: Space, s': Space, b: nat, h: nat, flags: nat) {
    forall u: nat :: u < PAGES ==> Map(s', u) == if u / SLOTS == b then Big(h, flags) else Map(s, u)
  }

  /** Page `k` of block `b` is now backed by `pages[k]`; nothing else has moved. */
  ghost predicate OnlyPages(s: Space, s': Space, b: nat, pages: seq<nat>, flags: nat)
    requires |pages| == SLOTS
  {
    forall u: nat :: u < PAGES ==>
      Map(s', u) == if u / SLOTS == b then Small(pages[u % SLOTS], flags) else Map(s, u)
  }

  /** Every page that was resident reads the same bytes. */
  ghost predicate KeepsReads(s: Space, s': Space) {
    forall u: nat :: u < PAGES && Read(s, u).Some? ==> Read(s', u) == Read(s, u)
  }

  /** The pages of [`lo`, `hi`) are now in 2 MiB frames; nothing else has moved. */
  ghost predicate RangeBig(s: Space, s': Space, lo: nat, hi: nat, flags: nat) {
    forall u: nat :: u < PAGES ==>
      if lo <= u * PAGE_SIZE < hi then Map(s', u).Big? && Map(s', u).flags == flags else Map(s', u) == Map(s, u)
  }

  /** The pages of [`lo`, `hi`) are now in 4 KiB frames, as writable as before; nothing else has moved. */
  ghost predicate RangeSmall(s: Space, s': Space, lo: nat, hi: nat) {
    forall u: nat :: u < PAGES ==>
      if lo <= u * PAGE_SIZE < hi
      then Map(s, u).Big? && Map(s', u).Small? && Map(s', u).flags == AcFlags(Map(s, u).flags)
      else Map(s', u) == Map(s, u)
  }

  /** After `copy_hpp` on whole blocks from `lo` to `hi`: a page in a 2 MiB frame is in a 4 KiB
      frame, as writable as before; one in a 4 KiB frame is where it was; and one that was not
      there is still not there or has a frame.  Nothing else has moved. */
  ghost predicate RangeDemoted(s: Space, s': Space, lo: nat, hi: nat, prot: nat) {
    forall u: nat :: u < PAGES ==>
      if lo <= u * PAGE_SIZE < hi then PageDemoted(Map(s, u), Map(s', u), prot) else Map(s', u) == Map(s, u)
  }

  predicate PageDemoted(m: Mapping, m': Mapping, prot: nat) {
    if m.Small? then m' == m
    else (m'.Small? && m'.flags == DemotedFlags(m, prot)) || (m.Unmapped? && m'.Unmapped?)
  }

  ghost predicate AllBig(s: Space, lo: nat, hi: nat) {
    forall u: nat :: u < PAGES && lo <= u * PAGE_SIZE < hi ==> Map(s, u).Big?
  }

  /** When all were in 2 MiB frames, all are in 4 KiB frames now. */
  lemma DemotedAllBig(s: Space, s': Space, lo: nat, hi: nat, prot: nat)
    requires RangeDemoted(s, s', lo, hi, prot) && AllBig(s, lo, hi)
    ensures RangeSmall(s, s', lo, hi)
  {
    hide Map, AcFlags;
  }

  ghost predicate SamePaths(s: Space, s': Space) {
    forall u: nat, k: nat :: u < PAGES && k <= 3 ==> Path(s', u, k) == Path(s, u, k)
  }

  /** Page tables were taken, at most `n` of them, and none was given back. */
  ghost predicate TookTables(s: Space, s': Space, n: nat) {
    s'.freeTables <= s.freeTables && |s'.freeTables| + n >= |s.freeTables|
  }

  /** Page `v`, if it was unmapped, has a frame from the free ones; nothing else has changed. */
  ghost predicate MadeLeaf(s: Space, s': Space, v: nat, flags: nat) {
    && s'.data == s.data && s'.freeHuges == s.freeHuges
    && (if Map(s, v).Unmapped?
        then exists p :: p in s.freePages && s'.freePages == s.freePages - {p} && OnlyPage(s, s', v, Small(p, flags))
        else SameMap(s, s') && s'.freePages == s.freePages)
  }

  /** Nothing of the block of page `v` is in use: its level-2 slot is absent. */
  ghost predicate BlockAbsent(s: Space, v: nat) {
    Path(s, v, 3).None? && !Map(s, v).Big?
  }

  /** The block of page `v`, if it was absent, has a free 2 MiB frame; nothing else has changed. */
  ghost predicate MadeHuge(s: Space, s': Space, v: nat, flags: nat) {
    && s'.data == s.data && s'.freePages == s.freePages
    && (if BlockAbsent(s, v)
        then exists h :: h in s.freeHuges && s'.freeHuges == s.freeHuges - {h} && OnlyBlock(s, s', v / SLOTS, h, flags)
        else SameMap(s, s') && s'.freeHuges == s.freeHuges && Path(s', v, 3) == Path(s, v, 3))
  }

  // ---- one slot write each, on values ----

  ghost function Linked(s: Space, v: nat, level: nat, f: nat, t: nat, flags: nat): Space
    requires f in s.mem && Slot(v, level) < |s.mem[f]|
  {
    s.(mem := Written(s.mem, f, Slot(v, level), SmallWord(t, flags)),
       owner := Put(s.owner, Table(t), Place(level + 1, Prefix(v, level + 1))))
  }

  lemma LinkSound(s: Space, v: nat, level: nat, f: nat, t: nat, flags: nat)
    requires Sound(s) && v < PAGES && level < 3 && Path(s, v, level) == Some(f)
    requires f in s.mem && |s.mem[f]| == SLOTS && !Present(s.mem[f][Slot(v, level)])
    requires InRegion(Table(t)) && Table(t) !in s.owner && t !in s.freeTables && t in s.mem && Empty(s.mem[t])
    requires flags < 8 && Present(flags)
    ensures var s' := Linked(s, v, level, f, t, flags);
            Sound(s') && SameMap(s, s') && Path(s', v, level) == Some(f) && Path(s', v, level + 1) == Some(t)
            && (level < 2 ==> Path(s', v, 3) == Path(s, v, 3))
  {
    WalkOnPath(s.mem, s.root, s.owner, v, level);
    LinkTable(s.mem, s.root, s.owner, v, level, f, t, s.mem[t], flags);
    assert s.mem[t := s.mem[t]] == s.mem;
  }

  /** Taking a free table and hanging it below `f`. */
  lemma DescendSound(s: Space, v: nat, level: nat, f: nat, t: nat, flags: nat)
    requires Sound(s) && v < PAGES && level < 3 && Path(s, v, level) == Some(f)
    requires f in s.mem && |s.mem[f]| == SLOTS && !Present(s.mem[f][Slot(v, level)])
    requires t in s.freeTables && flags < 8 && Present(flags)
    ensures var s' := Linked(s.(freeTables := s.freeTables - {t}), v, level, f, t, flags);
            && s' == s.(freeTables := s.freeTables - {t},
                        mem := Written(s.mem, f, Slot(v, level), SmallWord(t, flags)),
                        owner := Put(s.owner, Table(t), Place(level + 1, Prefix(v, level + 1))))
            && Sound(s') && Path(s', v, level) == Some(f) && Path(s', v, level + 1) == Some(t)
            && (level < 2 ==> Path(s', v, 3) == Path(s, v, 3))
            && SameMap(s, s') && TookTables(s, s', 1)
  {
    TakeTable(s, t);
    var s1 := s.(freeTables := s.freeTables - {t});
    SameWithin(s, s1);
    hide Sound, Map, Path, Present, Slot, Prefix, SmallWord;
    LinkSound(s1, v, level, f, t, flags);
  }

  lemma SameWithin(s: Space, s1: Space)
    requires s1 == s.(freeTables := s1.freeTables)
    ensures forall u: nat, k: nat :: Path(s1, u, k) == Path(s, u, k)
  {}

  ghost function WithLeaf(s: Space, v: nat, f: nat, p: nat, flags: nat): Space
    requires f in s.mem && Slot(v, 3) < |s.mem[f]|
  {
    s.(mem := Written(s.mem, f, Slot(v, 3), SmallWord(p, flags)),
       owner := Put(s.owner, Page(p), Place(4, v)))
  }

  lemma LeafSound(s: Space, v: nat, f: nat, p: nat, flags: nat)
    requires Sound(s) && v < PAGES && Path(s, v, 3) == Some(f) && f in s.mem && |s.mem[f]| == SLOTS
    requires InRegion(Page(p)) && Page(p) !in s.owner && p !in s.freePages
    requires flags < 8 && Present(flags)
    ensures var s' := WithLeaf(s, v, f, p, flags);
            Sound(s') && OnlyPage(s, s', v, Small(p, flags)) && SamePaths(s, s')
  {
    WalkOnPath(s.mem, s.root, s.owner, v, 3);
    WriteLeaf(s.mem, s.root, s.owner, v, f, p, flags);
  }

  /** Taking a free page and hanging it as the leaf of page `v`. */
  lemma TakeLeaf(s: Space, v: nat, f: nat, p: nat, flags: nat)
    requires Sound(s) && v < PAGES && Path(s, v, 3) == Some(f) && f in s.mem && |s.mem[f]| == SLOTS
    requires p in s.freePages && flags < 8 && Present(flags)
    ensures var s' := s.(freePages := s.freePages - {p},
                         mem := Written(s.mem, f, Slot(v, 3), SmallWord(p, flags)),
                         owner := Put(s.owner, Page(p), Place(4, v)));
            Sound(s') && OnlyPage(s, s', v, Small(p, flags)) && SamePaths(s, s')
  {
    TakePage(s, p);
    hide Sound, Map, Path, Present, Slot, SmallWord;
    LeafSound(s.(freePages := s.freePages - {p}), v, f, p, flags);
  }

  ghost function WithoutLeaf(s: Space, v: nat, f: nat): Space
    requires f in s.mem && Slot(v, 3) < |s.mem[f]| && Present(s.mem[f][Slot(v, 3)])
  {
    var w := s.mem[f][Slot(v, 3)];
    s.(mem := Written(s.mem, f, Slot(v, 3), Cleared(w)),
       owner := s.owner - {Page(Pfn(w))},
       freePages := s.freePages + {Pfn(w)})
  }

  lemma ClearSound(s: Space, v: nat, f: nat)
    requires Sound(s) && v < PAGES && Path(s, v, 3) == Some(f) && f in s.mem && |s.mem[f]| == SLOTS
    requires Present(s.mem[f][Slot(v, 3)])
    ensures var s' := WithoutLeaf(s, v, f);
            && Map(s, v) == Small(Pfn(s.mem[f][Slot(v, 3)]), Flags(s.mem[f][Slot(v, 3)]))
            && Sound(s') && OnlyPage(s, s', v, Unmapped) && SamePaths(s, s')
  {
    WalkOnPath(s.mem, s.root, s.owner, v, 3);
    ClearLeaf(s.mem, s.root, s.owner, v, f);
    MappedInUse(s, v);
    TranslatePlace(s.mem, s.root, s.owner, v);
  }

  ghost function WithHuge(s: Space, v: nat, f: nat, h: nat, flags: nat): Space
    requires f in s.mem && Slot(v, 2) < |s.mem[f]|
  {
    s.(mem := Written(s.mem, f, Slot(v, 2), HugeWord(h, flags)),
       owner := Put(s.owner, Huge(h), Place(3, v / SLOTS)))
  }

  lemma HugeSound(s: Space, v: nat, f: nat, h: nat, flags: nat)
    requires Sound(s) && v < PAGES && Path(s, v, 2) == Some(f) && f in s.mem && |s.mem[f]| == SLOTS
    requires InRegion(Huge(h)) && Huge(h) !in s.owner && h !in s.freeHuges
    requires flags < 8 && Present(flags)
    ensures var s' := WithHuge(s, v, f, h, flags);
            Sound(s') && OnlyBlock(s, s', v / SLOTS, h, flags) && Path(s', v, 2) == Some(f)
  {
    WalkOnPath(s.mem, s.root, s.owner, v, 2);
    WriteHugeLeaf(s.mem, s.root, s.owner, v, f, h, flags);
  }

  /** Taking a free 2 MiB frame and hanging it as the leaf of the block of page `v`. */
  lemma TakeHugeLeaf(s: Space, v: nat, f: nat, h: nat, flags: nat)
    requires Sound(s) && v < PAGES && Path(s, v, 2) == Some(f) && f in s.mem && |s.mem[f]| == SLOTS
    requires h in s.freeHuges && flags < 8 && Present(flags)
    ensures var s' := s.(freeHuges := s.freeHuges - {h},
                         mem := Written(s.mem, f, Slot(v, 2), HugeWord(h, flags)),
                         owner := Put(s.owner, Huge(h), Place(3, v / SLOTS)));
            Sound(s') && OnlyBlock(s, s', v / SLOTS, h, flags) && Path(s', v, 2) == Some(f)
  {
    TakeHuge(s, h);
    hide Sound, Map, Path, Present, Slot, HugeWord;
    HugeSound(s.(freeHuges := s.freeHuges - {h}), v, f, h, flags);
  }

  /** The 2 MiB leaf `h` of page `v` gives way to table `g`, whose leaves are already written. */
  ghost function Split(s: Space, v: nat, f: nat, h: nat, g: nat, pages: seq<nat>, flags: nat): Space
    requires f in s.mem && Slot(v, 2) < |s.mem[f]|
    requires Table(g) !in s.owner && Distinct(pages)
    requires forall j :: 0 <= j < |pages| ==> Page(pages[j]) !in s.owner
  {
    s.(mem := Written(s.mem, f, Slot(v, 2), SmallWord(g, flags)),
       owner := PutBlock(s.owner, g, pages, v / SLOTS),
       freeHuges := s.freeHuges + {h})
  }

  lemma SplitSound(s: Space, v: nat, f: nat, h: nat, g: nat, pages: seq<nat>, flags: nat, was: nat)
    requires Sound(s) && v < PAGES && Path(s, v, 2) == Some(f) && f in s.mem && |s.mem[f]| == SLOTS
    requires Map(s, v) == Big(h, was)
    requires InRegion(Table(g)) && Table(g) !in s.owner && g !in s.freeTables
    requires flags < 8 && Present(flags)
    requires |pages| == SLOTS && Distinct(pages)
    requires forall j :: 0 <= j < SLOTS ==>
               InRegion(Page(pages[j])) && Page(pages[j]) !in s.owner && pages[j] !in s.freePages
    requires g in s.mem && |s.mem[g]| == SLOTS
    requires forall j :: 0 <= j < SLOTS ==> s.mem[g][j] == SmallWord(pages[j], flags)
    ensures var s' := Split(s, v, f, h, g, pages, flags);
            Sound(s') && OnlyPages(s, s', v / SLOTS, pages, flags)
  {
    hide PutBlock, Tree, Walk, Translate;
    WalkOnPath(s.mem, s.root, s.owner, v, 2);
    TranslatePlace(s.mem, s.root, s.owner, v);
    SplitHugeLeaf(s.mem, s.root, s.owner, v, f, g, s.mem[g], pages, flags);
    assert s.mem[g := s.mem[g]] == s.mem;
    PutBlockTakes(s.owner, g, pages, v / SLOTS);
    SplitKeepsRegions(s.owner, PutBlock(s.owner, g, pages, v / SLOTS), g, pages, v / SLOTS, h);
  }

  lemma SplitKeepsRegions(owner: map<Frame, Place>, owner': map<Frame, Place>, g: nat, pages: seq<nat>, b: nat, h: nat)
    requires forall fr :: fr in owner ==> InRegion(fr)
    requires InRegion(Table(g)) && |pages| == SLOTS && forall j :: 0 <= j < SLOTS ==> InRegion(Page(pages[j]))
    requires TakesBlock(owner, owner', g, pages, b)
    requires Huge(h) in owner && owner[Huge(h)] == Place(3, b)
    ensures forall fr :: fr in owner' ==> InRegion(fr)
    ensures Huge(h) !in owner'
    ensures forall fr :: fr in owner' ==> fr in owner || fr == Table(g) || (fr.Page? && fr.n in pages)
  {}

  /** What the walk finds one level down is decided by one slot. */
  lemma PathTable(s: Space, v: nat, level: nat)
    requires Sound(s) && v < PAGES && level <= 3 && Path(s, v, level).Some?
    ensures var f := Path(s, v, level).value;
            && Table(f) in s.owner && f in s.mem && |s.mem[f]| == SLOTS
            && var w := s.mem[f][Slot(v, level)];
               && (level < 3 ==>
                     Path(s, v, level + 1) ==
                     if Present(w) && !(level == 2 && HugeBit(w)) then Some(Pfn(w)) else None)
               && (level == 2 ==> (Map(s, v).Big? <==> Present(w) && HugeBit(w)))
               && (level == 2 && Map(s, v).Big? ==> Map(s, v) == Big(HugePfn(w), Flags(w)))
               && (level == 3 ==> Map(s, v) == if Present(w) then Small(Pfn(w), Flags(w)) else Unmapped)
  {
    WalkOnPath(s.mem, s.root, s.owner, v, level);
    LeafDecides(s.mem, s.root, v);
  }

  lemma Grows(a: set<nat>, x: nat)
    ensures |a + {x}| >= |a|
  {
    if x in a {
      assert a + {x} == a;
    }
  }

  lemma MemorySize(s: Space)
    requires Sound(s)
    ensures |s.data| == FRAMES
  {}

  lemma RootPath(s: Space, v: nat)
    ensures Path(s, v, 0) == Some(s.root)
  {}

  lemma NoPathNoLeaf(s: Space, v: nat)
    ensures Path(s, v, 1).None? ==> Path(s, v, 2).None?
    ensures Path(s, v, 2).None? ==> Path(s, v, 3).None?
    ensures Path(s, v, 3).None? && !Map(s, v).Big? ==> Map(s, v) == Unmapped
  {}

  lemma TakeHuge(s: Space, h: nat)
    requires Sound(s) && h in s.freeHuges
    ensures var s' := s.(freeHuges := s.freeHuges - {h});
            && Sound(s') && InRegion(Huge(h)) && Huge(h) !in s.owner
            && SameMap(s, s') && forall u: nat, k: nat :: Path(s', u, k) == Path(s, u, k)
  {}

  /** Taking a frame off a free list changes no translation. */
  lemma TakePage(s: Space, p: nat)
    requires Sound(s) && p in s.freePages
    ensures var s' := s.(freePages := s.freePages - {p});
            && Sound(s') && InRegion(Page(p)) && Page(p) !in s.owner
            && SameMap(s, s') && forall u: nat, k: nat :: Path(s', u, k) == Path(s, u, k)
  {}

  /** Filling a table that hangs nowhere is invisible. */
  lemma ScratchSound(s: Space, g: nat, table: seq<nat>)
    requires Sound(s) && Table(g) !in s.owner && g !in s.freeTables
    ensures var s' := s.(mem := s.mem[g := table]);
            && Sound(s') && SameMap(s, s')
            && forall u: nat, k: nat :: u < PAGES && k <= 3 ==> Path(s', u, k) == Path(s, u, k)
  {
    var s' := s.(mem := s.mem[g := table]);
    forall u: nat, k: nat | u < PAGES && k <= 3
      ensures Path(s', u, k) == Path(s, u, k)
    {
      WalkReadsOwned(s.mem, s'.mem, s.root, s.owner, u, k);
    }
    forall u: nat | u < PAGES
      ensures Map(s', u) == Map(s, u)
    {
      WalkReadsOwned(s.mem, s'.mem, s.root, s.owner, u, 2);
      WalkReadsOwned(s.mem, s'.mem, s.root, s.owner, u, 3);
      WalkOnPath(s.mem, s.root, s.owner, u, 2);
      WalkOnPath(s.mem, s.root, s.owner, u, 3);
    }
    forall h, j | Table(h) in s'.owner && 0 <= j < SLOTS && Present(Entry(s'.mem, h, j))
      ensures Hangs(s'.owner, h, j, Entry(s'.mem, h, j))
    {
      assert Entry(s'.mem, h, j) == Entry(s.mem, h, j);
    }
  }

  /** An emptied level-3 table can be freed when a 2 MiB leaf takes its slot. */
  lemma HugeOverTable(s: Space, v: nat, f: nat, g: nat, h: nat, flags: nat)
    requires Sound(s) && v < PAGES && f in s.mem && |s.mem[f]| == SLOTS
    requires Path(s, v, 2) == Some(f) && Path(s, v, 3) == Some(g)
    requires g in s.mem && Empty(s.mem[g])
    requires InRegion(Huge(h)) && Huge(h) !in s.owner && h !in s.freeHuges
    requires flags < 8 && Present(flags)
    ensures var s' := WithHuge(s, v, f, h, flags).(freeTables := s.freeTables + {g});
            Sound(s') && OnlyBlock(s, s', v / SLOTS, h, flags)
  {
    hide Tree, Walk, Translate;
    HugeSound(s, v, f, h, flags);
    WalkOnPath(s.mem, s.root, s.owner, v, 2);
    WalkOnPath(s.mem, s.root, s.owner, v, 3);
    var s1 := WithHuge(s, v, f, h, flags);
    assert SameMap(s1, s1.(freeTables := s.freeTables + {g}));
  }

  /** `s'` is `s` with the first `n` pages of the block starting at `v` unmapped. */
  ghost predicate EmptiedUpTo(s: Space, s': Space, v: nat, n: nat) {
    && s'.freeTables == s.freeTables && s'.freeHuges == s.freeHuges
    && (forall u: nat :: v <= u < v + n && Map(s, u).Small? ==> Map(s, u).frame in s'.freePages)
    && forall u: nat :: u < PAGES ==> Map(s', u) == if v <= u < v + n then Unmapped else Map(s, u)
  }

  /** The first `n` pages of the block starting at `v`, where resident in `s`, have been
      copied into the 2 MiB frame `h`; no other memory has changed. */
  ghost predicate GatheredUpTo(s: Space, s': Space, v: nat, h: nat, n: nat)
    requires n <= SLOTS
  {
    && |s.data| == |s'.data| == FRAMES && h * SLOTS + SLOTS <= FRAMES
    && (forall x :: 0 <= x < FRAMES && !(h * SLOTS <= x < h * SLOTS + n) ==> s'.data[x] == s.data[x])
    && (forall u: nat :: v <= u < v + n && Map(s, u).Small? && Map(s, u).frame < FRAMES ==>
          s'.data[h * SLOTS + (u - v)] == s.data[Map(s, u).frame])
  }

  /** Pages of one block keep their leaves in one table. */
  lemma SiblingLeaf(s: Space, v: nat, j: nat, g: nat)
    requires Sound(s) && v < PAGES && v % SLOTS == 0 && j < SLOTS && Path(s, v, 3) == Some(g)
    ensures v + j < PAGES && g in s.mem && |s.mem[g]| == SLOTS
    ensures Map(s, v + j) == if Present(s.mem[g][j]) then Small(Pfn(s.mem[g][j]), Flags(s.mem[g][j])) else Unmapped
  {
    SiblingSlot(v, j);
    hide Sound, Prefix, Slot, Map, Present;
    WalkShared(s.mem, s.root, v + j, v, 3);
    PathTable(s, v + j, 3);
  }

  lemma SiblingSlot(v: nat, j: nat)
    requires v < PAGES && v % SLOTS == 0 && j < SLOTS
    ensures v + j < PAGES && Slot(v + j, 3) == j && Prefix(v + j, 3) == Prefix(v, 3)
  {}

  /** A level-3 table whose block has no page left holds no present entry. */
  lemma BlockEmpty(s: Space, v: nat, g: nat)
    requires Sound(s) && v < PAGES && v % SLOTS == 0 && Path(s, v, 3) == Some(g)
    requires forall u: nat :: v <= u < v + SLOTS ==> Map(s, u).Unmapped?
    ensures g in s.mem && Empty(s.mem[g])
  {
    SiblingLeaf(s, v, 0, g);
    forall j | 0 <= j < SLOTS
      ensures !Present(s.mem[g][j])
    {
      SiblingLeaf(s, v, j, g);
      assert Map(s, v + j).Unmapped?;
    }
  }

  /** Copying one frame over another changes only what memory holds. */
  lemma CopySound(s: Space, dst: nat, src: nat)
    requires Sound(s) && dst < FRAMES && src < FRAMES
    ensures var s' := s.(data := s.data[dst := s.data[src]]);
            Sound(s') && SameMap(s, s') && SamePaths(s, s')
  {}

  ghost predicate Gathering(s: Space, s': Space, v: nat, h: nat, n: nat)
    requires n <= SLOTS
  {
    && Sound(s') && SamePaths(s, s') && s.freePages <= s'.freePages
    && InRegion(Huge(h)) && Huge(h) !in s'.owner
    && EmptiedUpTo(s, s', v, n) && GatheredUpTo(s, s', v, h, n)
  }

  lemma GatherStart(s: Space, v: nat, h: nat)
    requires Sound(s) && InRegion(Huge(h)) && Huge(h) !in s.owner
    ensures SLOTS > 0 && Gathering(s, s, v, h, 0)
  {
    hide Tree, Map, Path;
  }

  lemma GatherGap(s: Space, s': Space, v: nat, h: nat, j: nat)
    requires j < SLOTS && Gathering(s, s', v, h, j) && v + j < PAGES && Map(s', v + j).Unmapped?
    ensures Gathering(s, s', v, h, j + 1)
  {
    hide Sound, Map, Path;
  }

  /** Copying a resident page into the 2 MiB frame, and clearing its leaf. */
  lemma GatherOne(s: Space, s1: Space, s2: Space, s3: Space, v: nat, h: nat, j: nat, p: nat)
    requires j < SLOTS && Gathering(s, s1, v, h, j) && v + j < PAGES && Sound(s3)
    requires Map(s1, v + j).Small? && Map(s1, v + j).frame == p < h * SLOTS && h * SLOTS + j < |s1.data|
    requires s2 == s1.(data := s1.data[h * SLOTS + j := s1.data[p]])
    requires OnlyPage(s2, s3, v + j, Unmapped) && SamePaths(s2, s3) && s3.freePages == s2.freePages + {p}
    requires s3.data == s2.data && s3.freeTables == s2.freeTables && s3.freeHuges == s2.freeHuges
    requires forall fr :: fr in s3.owner ==> fr in s2.owner
    ensures Gathering(s, s3, v, h, j + 1)
  {
    CopySound(s1, h * SLOTS + j, p);
    EmptiedOne(s, s1, s2, s3, v, j, p);
    GatheredOne(s, s1, s3, v, h, j, p);
    SameOn(s, s1, s2);
    SameOn(s, s2, s3);
    hide Sound, Map, Path, EmptiedUpTo, GatheredUpTo, SamePaths;
  }

  lemma EmptiedOne(s: Space, s1: Space, s2: Space, s3: Space, v: nat, j: nat, p: nat)
    requires EmptiedUpTo(s, s1, v, j) && SameMap(s1, s2) && OnlyPage(s2, s3, v + j, Unmapped)
    requires v + j < PAGES && Map(s1, v + j).Small? && Map(s1, v + j).frame == p
    requires s3.freePages == s1.freePages + {p} && s3.freeTables == s1.freeTables && s3.freeHuges == s1.freeHuges
    ensures EmptiedUpTo(s, s3, v, j + 1)
  {
    hide Map;
    assert Map(s, v + j) == Map(s1, v + j);
  }

  lemma GatheredOne(s: Space, s1: Space, s3: Space, v: nat, h: nat, j: nat, p: nat)
    requires j < SLOTS && GatheredUpTo(s, s1, v, h, j) && EmptiedUpTo(s, s1, v, j) && v + j < PAGES
    requires Map(s1, v + j).Small? && Map(s1, v + j).frame == p < h * SLOTS && h * SLOTS + j < |s1.data|
    requires s3.data == s1.data[h * SLOTS + j := s1.data[p]]
    ensures GatheredUpTo(s, s3, v, h, j + 1)
  {
    hide Map;
    assert Map(s, v + j) == Map(s1, v + j);
  }

  lemma GatherRoom(s: Space, s': Space, v: nat, h: nat, g: nat, j: nat)
    requires j < SLOTS && Gathering(s, s', v, h, j) && v < PAGES && v % SLOTS == 0 && Path(s, v, 3) == Some(g)
    ensures Sound(s') && Path(s', v, 3) == Some(g) && |s'.data| == FRAMES && 0x4_0000 <= h * SLOTS < FRAMES - j
    ensures PAGE_SIZE > 0 && PageOf((v + j) * PAGE_SIZE) == v + j
  {
    hide Tree, Map, Path;
  }

  lemma GatherEnd(s: Space, s': Space, v: nat, h: nat, g: nat)
    requires Gathering(s, s', v, h, SLOTS) && v < PAGES && v % SLOTS == 0 && Path(s, v, 3) == Some(g)
    ensures Sound(s') && SamePaths(s, s') && s.freePages <= s'.freePages
    ensures EmptiedUpTo(s, s', v, SLOTS) && GatheredUpTo(s, s', v, h, SLOTS)
    ensures Huge(h) !in s'.owner && g in s'.mem && Empty(s'.mem[g])
  {
    hide Sound, Map, Path;
    BlockEmpty(s', v, g);
  }

  /** `s1` maps what `s` maps, and perhaps page `v` besides. */
  ghost predicate Extends(s: Space, s1: Space, v: nat) {
    s1.data == s.data
    && forall u: nat :: u < PAGES && (u != v || !Map(s, u).Unmapped?) ==> Map(s1, u) == Map(s, u)
  }

  /** Promotion keeps reads: what was resident in the block was gathered, in order, into `h`. */
  lemma PromotionKeepsReads(s: Space, s1: Space, s2: Space, s': Space, v: nat, h: nat, flags: nat)
    requires Sound(s) && Sound(s1) && Sound(s') && v < PAGES && v % SLOTS == 0
    requires Extends(s, s1, v) && !Map(s, v).Big? && h in s.freeHuges
    requires GatheredUpTo(s1, s2, v, h, SLOTS) && s'.data == s2.data
    requires EmptiedUpTo(s1, s2, v, SLOTS) && OnlyBlock(s2, s', v / SLOTS, h, flags)
    ensures KeepsReads(s, s') && OnlyBlock(s, s', v / SLOTS, h, flags)
  {
    hide Sound, Map, Read;
    MappedInUse(s', v);
    forall u: nat | u < PAGES
      ensures Map(s', u) == if u / SLOTS == v / SLOTS then Big(h, flags) else Map(s, u)
      ensures Read(s, u).Some? ==> Read(s', u) == Read(s, u)
    {
      assert u / SLOTS == v / SLOTS <==> v <= u < v + SLOTS;
      MappedInUse(s, u);
      MappedInUse(s', u);
      if Map(s, u).Unmapped? {
        UnmappedUnread(s, u);
      } else if u / SLOTS == v / SLOTS {
        if Map(s, u).Big? {
          BigBlock(s, u, v);
        }
        assert u % SLOTS == u - v;
        assert Map(s1, u) == Map(s, u);
      }
    }
  }

  lemma UnmappedUnread(s: Space, u: nat)
    requires Map(s, u).Unmapped?
    ensures Read(s, u).None?
  {}

  /** A 2 MiB leaf maps its whole block. */
  lemma BigBlock(s: Space, u: nat, v: nat)
    requires Map(s, u).Big? && u / SLOTS == v / SLOTS
    ensures Map(s, v) == Map(s, u)
  {
    PrefixSplits(u, 2);
    PrefixSplits(v, 2);
    WalkShared(s.mem, s.root, u, v, 2);
  }

  /** The pages of a 2 MiB-aligned block. */
  lemma BlockPages(addr: nat)
    requires addr % HUGE_PAGE_SIZE == 0 && addr < PAGES * PAGE_SIZE
    ensures PageOf(addr) * PAGE_SIZE == addr && PageOf(addr) % SLOTS == 0
    ensures forall u: nat :: u / SLOTS == PageOf(addr) / SLOTS <==> addr <= u * PAGE_SIZE < addr + HUGE_PAGE_SIZE
  {}

  lemma ExtendRangeBig(s: Space, s1: Space, s2: Space, start: nat, i: nat, h: nat, flags: nat)
    requires start <= i < PAGES * PAGE_SIZE && start % HUGE_PAGE_SIZE == 0 && i % HUGE_PAGE_SIZE == 0
    requires RangeBig(s, s1, start, i, flags) && OnlyBlock(s1, s2, PageOf(i) / SLOTS, h, flags)
    requires KeepsReads(s, s1) && KeepsReads(s1, s2)
    ensures RangeBig(s, s2, start, i + HUGE_PAGE_SIZE, flags) && KeepsReads(s, s2)
  {
    hide Map, Read, PageOf;
    BlockPages(i);
  }

  /** The pages named in `pages` hold, in order, the first bytes of the 2 MiB frame `h`;
      no other memory has changed. */
  ghost predicate Scattered(s: Space, s': Space, h: nat, pages: seq<nat>) {
    && |s.data| == |s'.data| == FRAMES && |pages| <= SLOTS && InRegion(Huge(h))
    && (forall x :: 0 <= x < FRAMES && x !in pages ==> s'.data[x] == s.data[x])
    && (forall j :: 0 <= j < |pages| ==> InRegion(Page(pages[j])) && s'.data[pages[j]] == s.data[h * SLOTS + j])
  }

  lemma ScatterOne(s: Space, s1: Space, h: nat, pages: seq<nat>, p: nat)
    requires Scattered(s, s1, h, pages) && |pages| < SLOTS && InRegion(Page(p)) && p !in pages
    ensures Scattered(s, s1.(data := s1.data[p := s1.data[h * SLOTS + |pages|]]), h, pages + [p])
  {}

  /** Where the copying of the 2 MiB frame `h` over `pages`, with their leaves in table `g`, stands. */
  ghost predicate Scattering(s: Space, s': Space, h: nat, g: nat, flags: nat, pages: seq<nat>) {
    && Sound(s') && SameMap(s, s') && SamePaths(s, s')
    && s' == s.(mem := s'.mem, data := s'.data, freePages := s'.freePages)
    && Table(g) !in s.owner && g !in s.freeTables && InRegion(Huge(h))
    && s'.freePages <= s.freePages && |s'.freePages| + |pages| == |s.freePages|
    && |pages| <= SLOTS && Distinct(pages) && (forall p :: p in pages ==> p in s.freePages && p !in s'.freePages)
    && g in s'.mem && |s'.mem[g]| == SLOTS
    && (forall j :: 0 <= j < |pages| ==> s'.mem[g][j] == SmallWord(pages[j], flags))
    && (forall f :: f in s.mem && f != g ==> f in s'.mem && s'.mem[f] == s.mem[f])
    && Scattered(s, s', h, pages)
  }

  lemma ScatterStart(s: Space, h: nat, g: nat, flags: nat)
    requires Sound(s) && InRegion(Huge(h)) && Table(g) !in s.owner && g !in s.freeTables
    requires g in s.mem && |s.mem[g]| == SLOTS
    ensures Scattering(s, s, h, g, flags, [])
  {
    hide Map, Path, Tree, SmallWord;
  }

  lemma ScatterRoom(s: Space, s': Space, h: nat, g: nat, flags: nat, pages: seq<nat>)
    requires Scattering(s, s', h, g, flags, pages) && |pages| < SLOTS && |s.freePages| >= SLOTS
    ensures g in s'.mem && |s'.mem[g]| == SLOTS && s'.freePages != {} && h * SLOTS + |pages| < FRAMES
    ensures |s'.data| == FRAMES && forall p :: p in s'.freePages ==> p < FRAMES && p !in pages && p in s.freePages
  {}

  /** Copying one frame into a free page, and writing its leaf. */
  lemma ScatterSound(s: Space, src: nat, g: nat, j: nat, w: nat, p: nat)
    requires Sound(s) && src < FRAMES && p in s.freePages
    requires Table(g) !in s.owner && g !in s.freeTables && g in s.mem && j < |s.mem[g]|
    ensures p < FRAMES && |s.data| == FRAMES
    ensures var s' := s.(freePages := s.freePages - {p}, data := s.data[p := s.data[src]],
                         mem := Written(s.mem, g, j, w));
            Sound(s') && SameMap(s, s') && SamePaths(s, s')
  {
    TakePage(s, p);
    var s1 := s.(freePages := s.freePages - {p});
    MemorySize(s1);
    CopySound(s1, p, src);
    var s2 := s1.(data := s1.data[p := s1.data[src]]);
    ScratchSound(s2, g, s.mem[g][j := w]);
    hide Sound, Map, Path;
  }

  lemma PagesNext(all: set<nat>, left: set<nat>, pages: seq<nat>, p: nat)
    requires left <= all && |left| + |pages| == |all| && p in left && Distinct(pages)
    requires forall q :: q in pages ==> q in all && q !in left
    ensures left - {p} <= all && |left - {p}| + |pages + [p]| == |all| && Distinct(pages + [p])
    ensures forall q :: q in pages + [p] ==> q in all && q !in left - {p}
  {}

  lemma LeavesNext(mem: Memory, g: nat, pages: seq<nat>, flags: nat, p: nat)
    requires g in mem && |mem[g]| == SLOTS && |pages| < SLOTS
    requires forall j :: 0 <= j < |pages| ==> mem[g][j] == SmallWord(pages[j], flags)
    ensures var mem' := Written(mem, g, |pages|, SmallWord(p, flags));
            && g in mem' && |mem'[g]| == SLOTS && (forall f :: f in mem && f != g ==> f in mem' && mem'[f] == mem[f])
            && (forall j :: 0 <= j < |pages + [p]| ==> mem'[g][j] == SmallWord((pages + [p])[j], flags))
  {
    hide SmallWord;
  }

  lemma SameOn(s: Space, s1: Space, s2: Space)
    requires SamePaths(s, s1) && SamePaths(s1, s2)
    ensures SamePaths(s, s2)
    ensures SameMap(s, s1) && SameMap(s1, s2) ==> SameMap(s, s2)
  {
    hide Map, Path;
  }

  lemma ScatterNext(s: Space, s1: Space, h: nat, g: nat, flags: nat, pages: seq<nat>, p: nat)
    requires Scattering(s, s1, h, g, flags, pages) && |pages| < SLOTS && p in s1.freePages
    ensures g in s1.mem && |pages| < |s1.mem[g]| && p < |s1.data| && h * SLOTS + |pages| < |s1.data|
    ensures var s2 := s1.(freePages := s1.freePages - {p}, data := s1.data[p := s1.data[h * SLOTS + |pages|]],
                          mem := Written(s1.mem, g, |pages|, SmallWord(p, flags)));
            Scattering(s, s2, h, g, flags, pages + [p])
  {
    hide Sound, SameMap, SamePaths, SmallWord, Scattered, Distinct, Written, InRegion;
    ScatteredRoom(s, s1, h, pages);
    ScatterSound(s1, h * SLOTS + |pages|, g, |pages|, SmallWord(p, flags), p);
    TakePage(s1, p);
    ScatterOne(s, s1, h, pages, p);
    PagesNext(s.freePages, s1.freePages, pages, p);
    LeavesNext(s1.mem, g, pages, flags, p);
    var s2 := s1.(freePages := s1.freePages - {p}, data := s1.data[p := s1.data[h * SLOTS + |pages|]],
                  mem := Written(s1.mem, g, |pages|, SmallWord(p, flags)));
    SameOn(s, s1, s2);
    ScatteredData(s, s1.(data := s2.data), s2, h, pages + [p]);
  }

  lemma ScatteredRoom(s: Space, s1: Space, h: nat, pages: seq<nat>)
    requires Scattered(s, s1, h, pages) && |pages| < SLOTS
    ensures |s1.data| == FRAMES && h * SLOTS + |pages| < FRAMES
  {}

  lemma ScatteredData(s: Space, s1: Space, s2: Space, h: nat, pages: seq<nat>)
    requires Scattered(s, s1, h, pages) && s2.data == s1.data
    ensures Scattered(s, s2, h, pages)
  {}

  lemma ScatterEnd(s: Space, s': Space, h: nat, g: nat, flags: nat, pages: seq<nat>)
    requires Scattering(s, s', h, g, flags, pages) && |pages| == SLOTS
    ensures Sound(s') && SameMap(s, s') && SamePaths(s, s') && Scattered(s, s', h, pages) && Distinct(pages)
    ensures s'.freePages <= s.freePages && |s'.freePages| + SLOTS >= |s.freePages|
    ensures forall p :: p in pages ==> p in s.freePages && p !in s'.freePages
    ensures g in s'.mem && |s'.mem[g]| == SLOTS
    ensures forall j :: 0 <= j < SLOTS ==> s'.mem[g][j] == SmallWord(pages[j], flags)
    ensures forall f :: f in s.mem && f != g ==> f in s'.mem && s'.mem[f] == s.mem[f]
  {}

  lemma TakeTable(s: Space, g: nat)
    requires Sound(s) && g in s.freeTables
    ensures var s' := s.(freeTables := s.freeTables - {g});
            && Sound(s') && InRegion(Table(g)) && Table(g) !in s.owner && g in s.mem && |s.mem[g]| == SLOTS
            && SameMap(s, s') && forall u: nat, k: nat :: Path(s', u, k) == Path(s, u, k)
  {}

  lemma ScatterFresh(s: Space, pages: seq<nat>)
    requires Sound(s) && forall p :: p in pages ==> p in s.freePages
    ensures forall j :: 0 <= j < |pages| ==> InRegion(Page(pages[j])) && Page(pages[j]) !in s.owner
  {}

  /** The flags of the leaves that replace a 2 MiB leaf. */
  function DemotedFlags(m: Mapping, prot: nat): nat {
    AcFlags(if m.Big? then m.flags else AcFlags(prot))
  }

  /** Block `b` is now backed by 4 KiB frames; nothing else has moved. */
  ghost predicate BlockSmall(s: Space, s': Space, b: nat, flags: nat) {
    forall u: nat :: u < PAGES ==>
      if u / SLOTS == b then Map(s', u).Small? && Map(s', u).flags == flags else Map(s', u) == Map(s, u)
  }

  /** Demotion keeps reads: the block's bytes were scattered, in order, over `pages`. */
  lemma DemotionKeepsReads(s: Space, s2: Space, s': Space, v: nat, h: nat, pages: seq<nat>, flags: nat)
    requires Sound(s) && Sound(s') && v < PAGES && v % SLOTS == 0
    requires Map(s, v).Big? && Map(s, v).frame == h
    requires SameMap(s, s2) && Scattered(s, s2, h, pages) && |pages| == SLOTS
    requires forall p :: p in pages ==> p in s.freePages
    requires s'.data == s2.data && OnlyPages(s2, s', v / SLOTS, pages, flags)
    ensures KeepsReads(s, s') && BlockSmall(s, s', v / SLOTS, flags)
  {
    hide Sound, Map, Read, Path;
    forall u: nat | u < PAGES
      ensures if u / SLOTS == v / SLOTS then Map(s', u) == Small(pages[u % SLOTS], flags) else Map(s', u) == Map(s, u)
      ensures Read(s, u).Some? ==> Read(s', u) == Read(s, u)
    {
      MappedInUse(s, u);
      MappedInUse(s', u);
      if Map(s, u).Unmapped? {
        UnmappedUnread(s, u);
      }
      if u / SLOTS == v / SLOTS {
        BigBlock(s, v, u);
      }
    }
  }

  lemma Through(s: Space, s1: Space, s': Space)
    requires s1 == s.(freeTables := s1.freeTables)
    ensures SameMap(s, s1) && (KeepsReads(s1, s') ==> KeepsReads(s, s'))
    ensures forall b, flags :: BlockSmall(s1, s', b, flags) ==> BlockSmall(s, s', b, flags)
  {
    assert forall u: nat :: u < PAGES ==> Map(s1, u) == Map(s, u) && Read(s1, u) == Read(s, u);
  }

  lemma ThroughBlock(s: Space, s1: Space, s': Space, b: nat, flags: nat)
    requires ExtendsBlock(s, s1, b) && KeepsReads(s1, s')
    ensures KeepsReads(s, s')
    ensures BlockSmall(s1, s', b, flags) ==> BlockSmall(s, s', b, flags)
  {
    hide Map;
    forall u: nat | u < PAGES && Read(s, u).Some?
      ensures Read(s1, u) == Read(s, u)
    {}
  }

  lemma BigHasNoTable(s: Space, v: nat)
    requires Map(s, v).Big?
    ensures Path(s, v, 3).None?
  {}

  /** `s1` maps what `s` maps, and perhaps more of block `b`. */
  ghost predicate ExtendsBlock(s: Space, s1: Space, b: nat) {
    s1.data == s.data
    && forall u: nat :: u < PAGES && (u / SLOTS != b || !Map(s, u).Unmapped?) ==> Map(s1, u) == Map(s, u)
  }

  lemma MadeHugeExtends(s: Space, s1: Space, v: nat, flags: nat)
    requires v < PAGES && MadeHuge(s, s1, v, flags)
    ensures ExtendsBlock(s, s1, v / SLOTS)
    ensures BlockAbsent(s, v) ==> Map(s1, v).Big? && Map(s1, v).flags == flags
    ensures !BlockAbsent(s, v) ==> SameMap(s, s1) && Path(s1, v, 3) == Path(s, v, 3)
  {
    hide Map, Path;
    if BlockAbsent(s, v) {
      forall u: nat | u < PAGES && u / SLOTS == v / SLOTS
        ensures Map(s, u).Unmapped?
      {
        AbsentBlock(s, v, u);
      }
    }
  }

  lemma AbsentBlock(s: Space, v: nat, u: nat)
    requires BlockAbsent(s, v) && u / SLOTS == v / SLOTS
    ensures Map(s, u).Unmapped?
  {
    if Map(s, u).Big? {
      BigBlock(s, u, v);
    }
    WalkShared(s.mem, s.root, u, v, 3);
    LeafDecides(s.mem, s.root, u);
  }

  lemma AcFlagsOfWord(w: nat)
    ensures AcFlags(w) == AcFlags(Flags(w))
  {
    var q, r := w / 8, w % 8;
    DivMod(w, 2, 4 * q + r / 2, r % 2);
    DivMod(4 * q + r / 2, 2, 2 * q + r / 2 / 2, r / 2 % 2);
  }

  /** The whole blocks from `lo` to `hi`. */
  function Blocks(lo: nat, hi: nat): nat { if lo < hi then (hi - lo) / HUGE_PAGE_SIZE else 0 }

  lemma BlocksNext(i: nat, end: nat)
    requires i < end && i % HUGE_PAGE_SIZE == 0 && end % HUGE_PAGE_SIZE == 0
    ensures (i + HUGE_PAGE_SIZE) % HUGE_PAGE_SIZE == 0 && i + HUGE_PAGE_SIZE <= end
    ensures Blocks(i, end) == Blocks(i + HUGE_PAGE_SIZE, end) + 1
  {}

  lemma BlocksLeft(start: nat, end: nat, done: nat)
    requires start % HUGE_PAGE_SIZE == 0 && end % HUGE_PAGE_SIZE == 0
    ensures (start + done * HUGE_PAGE_SIZE) % HUGE_PAGE_SIZE == 0
    ensures start + done * HUGE_PAGE_SIZE < end ==> done + 1 <= Blocks(start, end)
    ensures start + done * HUGE_PAGE_SIZE <= end || done == 0 ==> done <= Blocks(start, end)
  {}

  /** What one round of `copy_hpp` does to each page of its block. */
  lemma BlockDemoted(s: Space, s1: Space, v: nat, u: nat, prot: nat)
    requires u < PAGES && v < PAGES && u / SLOTS == v / SLOTS
    requires if Path(s, v, 3).Some? then SameMap(s, s1) else BlockSmall(s, s1, v / SLOTS, DemotedFlags(Map(s, v), prot))
    ensures PageDemoted(Map(s, u), Map(s1, u), prot)
  {
    if Map(s, u).Big? {
      BigBlock(s, u, v);
      BigHasNoTable(s, v);
    }
    if Map(s, v).Big? {
      BigBlock(s, v, u);
    }
    PrefixSplits(u, 2);
    PrefixSplits(v, 2);
    WalkShared(s.mem, s.root, u, v, 3);
    LeafDecides(s.mem, s.root, u);
    hide Map, Path, AcFlags;
  }

  lemma ExtendRangeDemoted(s: Space, s1: Space, s2: Space, start: nat, i: nat, prot: nat)
    requires start <= i < PAGES * PAGE_SIZE && start % HUGE_PAGE_SIZE == 0 && i % HUGE_PAGE_SIZE == 0
    requires RangeDemoted(s, s1, start, i, prot)
    requires if Path(s1, PageOf(i), 3).Some? then SameMap(s1, s2)
             else BlockSmall(s1, s2, PageOf(i) / SLOTS, DemotedFlags(Map(s1, PageOf(i)), prot))
    requires KeepsReads(s, s1) && KeepsReads(s1, s2)
    ensures RangeDemoted(s, s2, start, i + HUGE_PAGE_SIZE, prot) && KeepsReads(s, s2)
  {
    hide Map, Path, Read, PageOf, AcFlags, PageDemoted, DemotedFlags;
    BlockPages(i);
    forall u: nat | u < PAGES && i <= u * PAGE_SIZE < i + HUGE_PAGE_SIZE
      ensures PageDemoted(Map(s, u), Map(s2, u), prot)
    {
      BlockDemoted(s1, s2, PageOf(i), u, prot);
    }
  }

  /** The pages of [`lo`, `hi`) now have 4 KiB leaves with these flags; nothing else has moved. */
  ghost predicate RangeInstalled(s: Space, s': Space, lo: nat, hi: nat, flags: nat) {
    forall u: nat :: u < PAGES ==>
      if lo <= u * PAGE_SIZE < hi then Map(s', u).Small? && Map(s', u).flags == flags else Map(s', u) == Map(s, u)
  }

  lemma EmptyRoot(s: Space)
    requires s.root in s.mem && Empty(s.mem[s.root])
    ensures forall v: nat :: v < PAGES ==> Map(s, v) == Unmapped
  {
    forall v: nat | v < PAGES
      ensures Walk(s.mem, s.root, v, 1) == None && Walk(s.mem, s.root, v, 2) == None
    {}
  }

  lemma SameSpace(s: Space)
    ensures SameMap(s, s) && SamePaths(s, s) && forall n: nat :: TookTables(s, s, n)
  {}

  lemma MapSame(s: Space, s': Space, v: nat)
    requires SameMap(s, s') && v < PAGES
    ensures Map(s', v) == Map(s, v)
  {}

  /** One more step down. */
  lemma Onward(s: Space, s1: Space, s2: Space, n: nat)
    requires SameMap(s, s1) && TookTables(s, s1, n) && SameMap(s1, s2) && TookTables(s1, s2, 1)
    ensures SameMap(s, s2) && TookTables(s, s2, n + 1)
    ensures |s2.freeTables| + n + 1 >= |s.freeTables| && forall v: nat :: v < PAGES ==> Map(s2, v) == Map(s, v)
  {}

  /** A leaf hung behind the way down. */
  lemma LeafHung(s: Space, s1: Space, s2: Space, v: nat, p: nat, flags: nat)
    requires SameMap(s, s1) && TookTables(s, s1, 3) && v < PAGES
    requires OnlyPage(s1, s2, v, Small(p, flags)) && SamePaths(s1, s2) && s2.freeTables == s1.freeTables
    ensures OnlyPage(s, s2, v, Small(p, flags)) && TookTables(s, s2, 3)
    ensures forall k: nat :: k <= 3 ==> Path(s2, v, k) == Path(s1, v, k)
  {}

  lemma AbsentIs(s: Space, v: nat)
    ensures BlockAbsent(s, v) <==> Path(s, v, 3).None? && !Map(s, v).Big?
  {}

  lemma HugeMade(s: Space, s1: Space, s2: Space, v: nat, h: nat, flags: nat)
    requires BlockAbsent(s, v) && SameMap(s, s1) && TookTables(s, s1, 2) && h in s.freeHuges
    requires OnlyBlock(s1, s2, v / SLOTS, h, flags) && s2.freeTables == s1.freeTables
    requires s2.data == s.data && s2.freePages == s.freePages && s2.freeHuges == s.freeHuges - {h}
    ensures MadeHuge(s, s2, v, flags) && TookTables(s, s2, 2)
  {
    hide BlockAbsent, Map;
  }

  lemma HugeKept(s: Space, s': Space, v: nat, flags: nat)
    requires !BlockAbsent(s, v) && SameMap(s, s') && Path(s', v, 3) == Path(s, v, 3)
    requires s'.data == s.data && s'.freePages == s.freePages && s'.freeHuges == s.freeHuges
    ensures MadeHuge(s, s', v, flags)
  {}

  lemma LeafMade(s: Space, s': Space, v: nat, p: nat, flags: nat)
    requires Map(s, v).Unmapped? && OnlyPage(s, s', v, Small(p, flags))
    requires s'.data == s.data && s'.freeHuges == s.freeHuges && p in s.freePages && s'.freePages == s.freePages - {p}
    ensures MadeLeaf(s, s', v, flags)
  {}

  lemma LeafKept(s: Space, s': Space, v: nat, flags: nat)
    requires !Map(s, v).Unmapped? && SameMap(s, s')
    requires s'.data == s.data && s'.freeHuges == s.freeHuges && s'.freePages == s.freePages
    ensures MadeLeaf(s, s', v, flags)
  {}

  class PageTable {
    const root: nat
    var mem: Memory
    var data: seq<Bytes>
    var freeTables: set<nat>
    var freePages: set<nat>
    var freeHuges: set<nat>
    ghost var owner: map<Frame, Place>

    /** The state as a value. */
    ghost function Now(): Space
      reads this
    {
      Space(root, mem, data, freeTables, freePages, freeHuges, owner)
    }

    lemma NowIs()
      ensures Now() == Space(root, mem, data, freeTables, freePages, freeHuges, owner)
    {}

    /** An empty page table, with these frames free. */
    constructor (root: nat, tables: set<nat>, pages: set<nat>, huges: set<nat>)
      requires InRegion(Table(root)) && root !in tables
      requires (forall n :: n in tables ==> InRegion(Table(n))) && (forall n :: n in pages ==> InRegion(Page(n)))
      requires forall n :: n in huges ==> InRegion(Huge(n))
      ensures Sound(Now()) && forall v: nat :: v < PAGES ==> Map(Now(), v) == Unmapped
      ensures freeTables == tables && freePages == pages && freeHuges == huges
    {
      this.root := root;
      mem := map n | n in tables + {root} :: seq(SLOTS, _ => 0);
      data := seq(FRAMES, _ => []);
      freeTables, freePages, freeHuges := tables, pages, huges;
      owner := map[Table(root) := Place(0, 0)];
      new;
      EmptyRoot(Now());
    }

    /** One level of the descent: follow slot `Slot(v, level)` of table `f`, hanging a
        new table there when it is absent. */
    method Descend(f: nat, v: nat, level: nat, flags: nat) returns (g: nat)
      requires Sound(Now()) && v < PAGES && level < 3 && flags < 8 && Present(flags)
      requires Path(Now(), v, level) == Some(f)
      requires level == 2 ==> !Map(Now(), v).Big?
      requires freeTables != {}
      modifies this`mem, this`freeTables, this`owner
      ensures Sound(Now()) && Path(Now(), v, level) == Some(f) && Path(Now(), v, level + 1) == Some(g)
      ensures level < 2 ==> Path(Now(), v, 3) == old(Path(Now(), v, 3))
      ensures SameMap(old(Now()), Now()) && TookTables(old(Now()), Now(), 1)
      ensures old(Path(Now(), v, level + 1)).Some? ==> Now() == old(Now())
    {
      hide *;
      ghost var s := Now();
      NowIs();
      SameSpace(s);
      PathTable(s, v, level);
      var w := mem[f][Slot(v, level)];
      if Present(w) {
        g := Pfn(w);
      } else {
        // os_pfn_alloc(OS_PT_REG)
        g :| g in freeTables;
        DescendSound(s, v, level, f, g, flags);
        freeTables := freeTables - {g};
        owner := Put(owner, Table(g), Place(level + 1, Prefix(v, level + 1)));
        mem := Written(mem, f, Slot(v, level), SmallWord(g, flags));
        NowIs();
      }
    }

    /** `make_entry` with a 4 KiB mapping: the tables down to the page of `addr`, and its
        leaf unless it is there.  Returns the level-2 slot. */
    method MakeSmallEntry(addr: nat, code: nat) returns (f: nat, i: nat)
      requires Sound(Now()) && !Map(Now(), PageOf(addr)).Big?
      requires |freeTables| >= 3 && freePages != {}
      modifies this`mem, this`freeTables, this`freePages, this`owner
      ensures Sound(Now()) && MadeLeaf(old(Now()), Now(), PageOf(addr), AcFlags(code))
      ensures TookTables(old(Now()), Now(), 3)
      ensures i == Slot(PageOf(addr), 2) && Path(Now(), PageOf(addr), 2) == Some(f)
      ensures Path(Now(), PageOf(addr), 3).Some?
    {
      hide *;
      NowIs();
      ghost var s := Now();
      var v, flags := PageOf(addr), AcFlags(code);
      RootPath(s, v);
      SameSpace(s);
      var pud := Descend(root, v, 0, flags);
      ghost var s1 := Now();
      Onward(s, s, s1, 0);
      NowIs();
      f := Descend(pud, v, 1, flags);
      ghost var s2 := Now();
      Onward(s, s1, s2, 1);
      NowIs();
      i := Slot(v, 2);
      var pte := Descend(f, v, 2, flags);
      ghost var s3 := Now();
      Onward(s, s2, s3, 2);
      NowIs();
      PathTable(s3, v, 3);
      if !Present(mem[pte][Slot(v, 3)]) {
        // os_pfn_alloc(USER_REG)
        var p :| p in freePages;
        TakeLeaf(s3, v, pte, p, flags);
        freePages := freePages - {p};
        owner := Put(owner, Page(p), Place(4, v));
        mem := Written(mem, pte, Slot(v, 3), SmallWord(p, flags));
        NowIs();
        LeafHung(s, s3, Now(), v, p, flags);
        LeafMade(s, Now(), v, p, flags);
      } else {
        LeafKept(s, s3, v, flags);
      }
    }

    /** `make_entry` with a 2 MiB mapping: a huge leaf for the block of `addr`, unless its
        level-2 slot is already in use.  Returns that slot. */
    method MakeHugeEntry(addr: nat, code: nat) returns (f: nat, i: nat)
      requires Sound(Now())
      requires |freeTables| >= 2 && (!Map(Now(), PageOf(addr)).Big? ==> freeHuges != {})
      modifies this`mem, this`freeTables, this`freeHuges, this`owner
      ensures Sound(Now()) && MadeHuge(old(Now()), Now(), PageOf(addr), AcFlags(code))
      ensures TookTables(old(Now()), Now(), 2)
      ensures i == Slot(PageOf(addr), 2) && Path(Now(), PageOf(addr), 2) == Some(f)
    {
      hide *;
      NowIs();
      ghost var s := Now();
      var v, flags := PageOf(addr), AcFlags(code);
      RootPath(s, v);
      SameSpace(s);
      var pud := Descend(root, v, 0, flags);
      ghost var s1 := Now();
      Onward(s, s, s1, 0);
      NowIs();
      f := Descend(pud, v, 1, flags);
      ghost var s2 := Now();
      Onward(s, s1, s2, 1);
      NowIs();
      i := Slot(v, 2);
      PathTable(s2, v, 2);
      AbsentIs(s, v);
      if !Present(mem[f][i]) {
        // os_hugepage_alloc
        var h :| h in freeHuges;
        TakeHugeLeaf(s2, v, f, h, flags);
        freeHuges := freeHuges - {h};
        owner := Put(owner, Huge(h), Place(3, v / SLOTS));
        mem := Written(mem, f, i, HugeWord(h, flags));
        NowIs();
        HugeMade(s, s2, Now(), v, h, flags);
      } else {
        HugeKept(s, s2, v, flags);
      }
    }

    /** One level of the walk of `free`: the next table, if slot `Slot(v, level)` is present. */
    method Follow(f: nat, v: nat, level: nat) returns (g: Option<nat>)
      requires Sound(Now()) && v < PAGES && level < 3 && Path(Now(), v, level) == Some(f)
      requires level == 2 ==> !Map(Now(), v).Big?
      ensures g == Path(Now(), v, level + 1)
    {
      PathTable(Now(), v, level);
      var w := mem[f][Slot(v, level)];
      g := if Present(w) then Some(Pfn(w)) else None;
    }

    /** `free` with a 4 KiB mapping: clear the leaf of the page of `addr`, if there is one. */
    method FreeSmall(addr: nat)
      requires Sound(Now()) && !Map(Now(), PageOf(addr)).Big?
      modifies this`mem, this`freePages, this`owner
      ensures Sound(Now()) && SamePaths(old(Now()), Now())
      ensures OnlyPage(old(Now()), Now(), PageOf(addr), Unmapped)
      ensures forall fr :: fr in owner ==> fr in old(owner)
      ensures freePages == old(freePages) + match old(Map(Now(), PageOf(addr))) case Small(p, _) => {p} case _ => {}
    {
      hide Sound, Map, Path, Slot, Prefix, PageOf;
      var v := PageOf(addr);
      NoPathNoLeaf(Now(), v);
      RootPath(Now(), v);
      var pud := Follow(root, v, 0);
      if pud.None? { return; }
      var pmd := Follow(pud.value, v, 1);
      if pmd.None? { return; }
      var pte := Follow(pmd.value, v, 2);
      if pte.None? { return; }
      var f := pte.value;
      PathTable(Now(), v, 3);
      var w := mem[f][Slot(v, 3)];
      if Present(w) {
        ClearSound(Now(), v, f);
        mem := Written(mem, f, Slot(v, 3), Cleared(w));
        owner := owner - {Page(Pfn(w))};
        // os_pfn_free(USER_REG)
        freePages := freePages + {Pfn(w)};
      }
    }

    /** `free` with a 2 MiB mapping walks two levels and then returns: it never clears. */
    method FreeHuge(addr: nat)
      requires Sound(Now())
    {
      hide Sound, Map, Path, Slot, Prefix, PageOf;
      RootPath(Now(), PageOf(addr));
      var pud := Follow(root, PageOf(addr), 0);
      if pud.None? { return; }
      var pmd := Follow(pud.value, PageOf(addr), 1);
    }

    /** `free_range`: unmap the 4 KiB pages of a range; a range of huge pages stays as it is. */
    method FreeRange(start: nat, end: nat, kind: Kind)
      requires Sound(Now()) && start % PAGE_SIZE == 0 && end % PAGE_SIZE == 0 && end <= PAGES * PAGE_SIZE
      requires kind == Normal ==> forall v: nat :: start <= v * PAGE_SIZE < end ==> !Map(Now(), v).Big?
      modifies this`mem, this`freePages, this`owner
      ensures Sound(Now()) && old(freePages) <= freePages
      ensures kind == Normal ==> OnlyRange(old(Now()), Now(), start, end)
      ensures kind == Normal ==> Released(old(Now()), Now(), start, end)
      ensures kind == HugePage ==> Now() == old(Now())
    {
      hide Sound, Map, Path;
      var i := start;
      if kind == Normal {
        while i < end
          invariant start <= i && i % PAGE_SIZE == 0 && (i <= end || i == start)
          invariant Sound(Now()) && old(freePages) <= freePages
          invariant OnlyRange(old(Now()), Now(), start, i) && Released(old(Now()), Now(), start, i)
        {
          ghost var s := Now();
          assert PageOf(i) * PAGE_SIZE == i;
          FreeSmall(i);
          assert forall u: nat :: u * PAGE_SIZE < i + PAGE_SIZE && u * PAGE_SIZE >= i ==> u == PageOf(i);
          i := i + PAGE_SIZE;
        }
      } else {
        while i < end
          invariant Now() == old(Now())
        {
          FreeHuge(i);
          i := i + HUGE_PAGE_SIZE;
        }
      }
    }

    /** `install_page_table`: like `MakeSmallEntry`, but the leaf is always replaced. */
    method InstallPageTable(addr: nat, code: nat) returns (p: nat)
      requires Sound(Now()) && !Map(Now(), PageOf(addr)).Big?
      requires |freeTables| >= 3 && freePages != {}
      modifies this`mem, this`freeTables, this`freePages, this`owner
      ensures Sound(Now()) && OnlyPage(old(Now()), Now(), PageOf(addr), Small(p, AcFlags(code)))
      ensures p in old(freePages) && freePages == old(freePages) - {p}
      ensures TookTables(old(Now()), Now(), 3)
    {
      hide *;
      NowIs();
      ghost var s := Now();
      var v, flags := PageOf(addr), AcFlags(code);
      RootPath(s, v);
      SameSpace(s);
      var pud := Descend(root, v, 0, flags);
      ghost var s1 := Now();
      Onward(s, s, s1, 0);
      NowIs();
      var pmd := Descend(pud, v, 1, flags);
      ghost var s2 := Now();
      Onward(s, s1, s2, 1);
      NowIs();
      var pte := Descend(pmd, v, 2, flags);
      ghost var s3 := Now();
      Onward(s, s2, s3, 2);
      NowIs();
      PathTable(s3, v, 3);
      // os_pfn_alloc(USER_REG)
      p :| p in freePages;
      TakeLeaf(s3, v, pte, p, flags);
      freePages := freePages - {p};
      owner := Put(owner, Page(p), Place(4, v));
      mem := Written(mem, pte, Slot(v, 3), SmallWord(p, flags));
      NowIs();
      LeafHung(s, s3, Now(), v, p, flags);
    }

    /** The inner loop of `copy_php`: move the resident pages of the block of page `v`,
        whose leaves are in table `g`, into the 2 MiB frame `h`. */
    method GatherPages(v: nat, f: nat, g: nat, h: nat)
      requires Sound(Now()) && v < PAGES && v % SLOTS == 0
      requires Path(Now(), v, 2) == Some(f) && Path(Now(), v, 3) == Some(g)
      requires InRegion(Huge(h)) && Huge(h) !in owner && h !in freeHuges
      modifies this`mem, this`freePages, this`owner, this`data
      ensures Sound(Now()) && SamePaths(old(Now()), Now()) && old(freePages) <= freePages
      ensures EmptiedUpTo(old(Now()), Now(), v, SLOTS) && GatheredUpTo(old(Now()), Now(), v, h, SLOTS)
      ensures Huge(h) !in owner && g in mem && Empty(mem[g])
    {
      hide *;
      var j := 0;
      ghost var s := Now();
      NowIs();
      GatherStart(s, v, h);
      while j < SLOTS
        invariant j <= SLOTS && Gathering(s, Now(), v, h, j)
      {
        ghost var s1 := Now();
        NowIs();
        GatherRoom(s, s1, v, h, g, j);
        SiblingLeaf(s1, v, j, g);
        var w := mem[g][j];
        if Present(w) {
          var p := Pfn(w);
          MappedInUse(s1, v + j);
          CopySound(s1, h * SLOTS + j, p);
          data := data[h * SLOTS + j := data[p]];
          ghost var s2 := Now();
          NowIs();
          MapSame(s1, s2, v + j);
          FreeSmall((v + j) * PAGE_SIZE);
          NowIs();
          GatherOne(s, s1, s2, Now(), v, h, j, p);
        } else {
          GatherGap(s, s1, v, h, j);
        }
        j := j + 1;
      }
      NowIs();
      GatherEnd(s, Now(), v, h, g);
    }

    /** One round of `copy_php`: back the block of `addr` by a fresh 2 MiB frame. */
    method PromoteBlock(addr: nat, prot: nat) returns (h: nat)
      requires Sound(Now()) && addr % HUGE_PAGE_SIZE == 0 && addr < PAGES * PAGE_SIZE
      requires !Map(Now(), PageOf(addr)).Big?
      requires |freeTables| >= 3 && freePages != {} && freeHuges != {}
      modifies this`mem, this`data, this`freeTables, this`freePages, this`freeHuges, this`owner
      ensures Sound(Now()) && KeepsReads(old(Now()), Now())
      ensures OnlyBlock(old(Now()), Now(), PageOf(addr) / SLOTS, h, AcFlags(prot))
      ensures old(freePages) <= freePages && freeHuges == old(freeHuges) - {h}
      ensures |freeTables| + 3 >= |old(freeTables)|
    {
      hide Sound, Map, Path, Slot, Prefix, Read;
      ghost var s := Now();
      var v := PageOf(addr);
      assert v % SLOTS == 0;
      var f, i := MakeSmallEntry(addr, prot);
      PathTable(Now(), v, 2);
      var g := Pfn(mem[f][i]);
      // os_hugepage_alloc
      h :| h in freeHuges;
      TakeHuge(Now(), h);
      freeHuges := freeHuges - {h};
      ghost var s1 := Now();
      assert Extends(s, s1, v);
      GatherPages(v, f, g, h);
      ghost var s2 := Now();
      PathTable(Now(), v, 2);
      HugeOverTable(Now(), v, f, g, h, AcFlags(prot));
      // os_pfn_free(OS_PT_REG)
      Grows(freeTables, g);
      freeTables := freeTables + {g};
      owner := Put(owner, Huge(h), Place(3, v / SLOTS));
      mem := Written(mem, f, i, HugeWord(h, AcFlags(prot)));
      PromotionKeepsReads(s, s1, s2, Now(), v, h, AcFlags(prot));
    }

    /** `copy_php`: move the pages of a range of whole blocks into 2 MiB frames. */
    method CopyToHuge(start: nat, end: nat, prot: nat)
      requires Sound(Now()) && start % HUGE_PAGE_SIZE == 0 && end % HUGE_PAGE_SIZE == 0 && end <= PAGES * PAGE_SIZE
      requires forall u: nat :: start <= u * PAGE_SIZE < end ==> !Map(Now(), u).Big?
      requires |freeTables| >= 3 * Blocks(start, end) && |freeHuges| >= Blocks(start, end)
      requires start < end ==> freePages != {}
      modifies this`mem, this`data, this`freeTables, this`freePages, this`freeHuges, this`owner
      ensures Sound(Now()) && KeepsReads(old(Now()), Now())
      ensures RangeBig(old(Now()), Now(), start, end, AcFlags(prot))
    {
      hide Sound, Map, Read, AcFlags, Blocks;
      var i := start;
      while i < end
        invariant start <= i && i % HUGE_PAGE_SIZE == 0 && (i <= end || i == start)
        invariant Sound(Now()) && KeepsReads(old(Now()), Now())
        invariant RangeBig(old(Now()), Now(), start, i, AcFlags(prot))
        invariant |freeTables| >= 3 * Blocks(i, end) && |freeHuges| >= Blocks(i, end)
        invariant i < end ==> freePages != {}
      {
        ghost var s := Now();
        BlockPages(i);
        BlocksNext(i, end);
        var h := PromoteBlock(i, prot);
        ExtendRangeBig(old(Now()), s, Now(), start, i, h, AcFlags(prot));
        i := i + HUGE_PAGE_SIZE;
      }
    }

    /** The inner loop of `copy_hpp`: copy the 2 MiB frame `h` into 512 fresh pages and fill
        table `g`, which hangs nowhere yet, with their leaves. */
    method ScatterPages(h: nat, g: nat, flags: nat) returns (pages: seq<nat>)
      requires Sound(Now()) && InRegion(Huge(h)) && flags < 8
      requires Table(g) !in owner && g !in freeTables && g in mem && |mem[g]| == SLOTS
      requires |freePages| >= SLOTS
      modifies this`mem, this`freePages, this`data
      ensures Sound(Now()) && SameMap(old(Now()), Now()) && SamePaths(old(Now()), Now())
      ensures freePages <= old(freePages) && |freePages| + SLOTS >= |old(freePages)|
      ensures |pages| == SLOTS && Distinct(pages) && forall p :: p in pages ==> p in old(freePages) && p !in freePages
      ensures g in mem && |mem[g]| == SLOTS && forall j :: 0 <= j < SLOTS ==> mem[g][j] == SmallWord(pages[j], flags)
      ensures forall f :: f in old(mem) && f != g ==> f in mem && mem[f] == old(mem)[f]
      ensures Scattered(old(Now()), Now(), h, pages)
    {
      hide *;
      pages := [];
      ghost var s := Now();
      NowIs();
      ScatterStart(s, h, g, flags);
      while |pages| < SLOTS
        invariant |pages| <= SLOTS && Scattering(s, Now(), h, g, flags, pages)
      {
        var j := |pages|;
        NowIs();
        ScatterRoom(s, Now(), h, g, flags, pages);
        // os_pfn_alloc(USER_REG)
        var p :| p in freePages;
        ScatterNext(s, Now(), h, g, flags, pages, p);
        freePages := freePages - {p};
        data := data[p := data[h * SLOTS + j]];
        mem := Written(mem, g, j, SmallWord(p, flags));
        pages := pages + [p];
        NowIs();
      }
      NowIs();
      ScatterEnd(s, Now(), h, g, flags, pages);
    }

    /** Replace the 2 MiB leaf in slot `i` of table `f` by a table of 512 leaves. */
    method SplitLeaf(v: nat, f: nat, i: nat)
      requires Sound(Now()) && v < PAGES && v % SLOTS == 0
      requires Path(Now(), v, 2) == Some(f) && i == Slot(v, 2) && Map(Now(), v).Big?
      requires freeTables != {} && |freePages| >= SLOTS
      modifies this`mem, this`data, this`freeTables, this`freePages, this`freeHuges, this`owner
      ensures Sound(Now()) && KeepsReads(old(Now()), Now())
      ensures BlockSmall(old(Now()), Now(), v / SLOTS, AcFlags(old(Map(Now(), v)).flags))
      ensures |freeTables| + 1 >= |old(freeTables)| && |freePages| + SLOTS >= |old(freePages)|
      ensures freeHuges == old(freeHuges) + {old(Map(Now(), v)).frame}
    {
      hide Sound, Map, Path, Slot, Prefix, Read, AcFlags, PutBlock, SmallWord, Scattered, KeepsReads, BlockSmall,
        OnlyPages;
      ghost var s := Now();
      PathTable(s, v, 2);
      MappedInUse(s, v);
      var w := mem[f][i];
      AcFlagsOfWord(w);
      var h, flags := HugePfn(w), AcFlags(w);
      // os_pfn_alloc(OS_PT_REG)
      var g :| g in freeTables;
      TakeTable(s, g);
      freeTables := freeTables - {g};
      ghost var s1 := Now();
      var pages := ScatterPages(h, g, flags);
      ghost var s2 := Now();
      ScatterFresh(s1, pages);
      SplitSound(s2, v, f, h, g, pages, flags, Flags(w));
      // os_hugepage_free
      freeHuges := freeHuges + {h};
      owner := PutBlock(owner, g, pages, v / SLOTS);
      mem := Written(mem, f, i, SmallWord(g, flags));
      DemotionKeepsReads(s1, s2, Now(), v, h, pages, flags);
      Through(s, s1, Now());
    }

    /** One round of `copy_hpp`: back the block of `addr` by 512 fresh pages, making a 2 MiB
        leaf first if nothing was there.  A block that already has a table stays as it is. */
    method DemoteBlock(addr: nat, prot: nat)
      requires Sound(Now()) && addr % HUGE_PAGE_SIZE == 0 && addr < PAGES * PAGE_SIZE
      requires |freeTables| >= 3 && |freePages| >= SLOTS
      requires !Map(Now(), PageOf(addr)).Big? ==> freeHuges != {}
      modifies this`mem, this`data, this`freeTables, this`freePages, this`freeHuges, this`owner
      ensures Sound(Now()) && KeepsReads(old(Now()), Now())
      ensures if old(Path(Now(), PageOf(addr), 3)).Some? then SameMap(old(Now()), Now())
              else BlockSmall(old(Now()), Now(), PageOf(addr) / SLOTS, DemotedFlags(old(Map(Now(), PageOf(addr))),
                prot))
      ensures |freeTables| + 3 >= |old(freeTables)| && |freePages| + SLOTS >= |old(freePages)|
      ensures old(freeHuges) <= freeHuges
    {
      hide Sound, Map, Path, Slot, Prefix, Read, AcFlags;
      ghost var s := Now();
      var v := PageOf(addr);
      assert v % SLOTS == 0;
      var f, i := MakeHugeEntry(addr, prot);
      PathTable(Now(), v, 2);
      var w := mem[f][i];
      ghost var s1 := Now();
      MadeHugeExtends(s, s1, v, AcFlags(prot));
      if Map(s, v).Big? { BigHasNoTable(s, v); }
      if Present(w) && HugeBit(w) {
        SplitLeaf(v, f, i);
        ThroughBlock(s, s1, Now(), v / SLOTS, AcFlags(Map(s1, v).flags));
      } else {
        FreeHuge(addr);
        ThroughBlock(s, s1, s1, v / SLOTS, 0);
      }
    }

    /** `copy_hpp` over whole blocks; a block that is not there at all needs a 2 MiB frame for
        a moment. */
    method CopyToSmall(start: nat, end: nat, prot: nat)
      requires Sound(Now()) && start % HUGE_PAGE_SIZE == 0 && end % HUGE_PAGE_SIZE == 0 && end <= PAGES * PAGE_SIZE
      requires AllBig(Now(), start, end) || freeHuges != {}
      requires |freeTables| >= 3 * Blocks(start, end) && |freePages| >= SLOTS * Blocks(start, end)
      modifies this`mem, this`data, this`freeTables, this`freePages, this`freeHuges, this`owner
      ensures Sound(Now()) && KeepsReads(old(Now()), Now())
      ensures RangeDemoted(old(Now()), Now(), start, end, prot)
      ensures |freeTables| + 3 * Blocks(start, end) >= |old(freeTables)|
      ensures |freePages| + SLOTS * Blocks(start, end) >= |old(freePages)|
      ensures old(freeHuges) <= freeHuges && (start >= end ==> Now() == old(Now()))
    {
      hide Sound, Map, Path, Read, AcFlags, PageDemoted, DemotedFlags, Blocks;
      var i := start;
      ghost var done := 0;
      while i < end
        invariant i == start + done * HUGE_PAGE_SIZE && (i <= end || done == 0)
        invariant Sound(Now()) && KeepsReads(old(Now()), Now())
        invariant RangeDemoted(old(Now()), Now(), start, i, prot)
        invariant |freeTables| + 3 * done >= |old(freeTables)| && |freePages| + SLOTS * done >= |old(freePages)|
        invariant old(freeHuges) <= freeHuges && (i == start ==> Now() == old(Now()))
      {
        ghost var s := Now();
        BlockPages(i);
        BlocksLeft(start, end, done);
        DemoteBlock(i, prot);
        ExtendRangeDemoted(old(Now()), s, Now(), start, i, prot);
        i := i + HUGE_PAGE_SIZE;
        done := done + 1;
      }
      BlocksLeft(start, end, done);
    }

    /** The stack branch of `do_page_fault`, below `nextFree`: extend the stack a page at a
        time down to the faulting page, whose leaf is then installed once more. */
    method GrowStack(nextFree: nat, cr2: nat, code: nat) returns (next: nat)
      requires Sound(Now()) && cr2 < nextFree <= PAGES * PAGE_SIZE && nextFree % PAGE_SIZE == 0
      requires forall u: nat :: cr2 / PAGE_SIZE <= u < nextFree / PAGE_SIZE ==> !Map(Now(), u).Big?
      requires |freeTables| >= 3 * (nextFree / PAGE_SIZE - cr2 / PAGE_SIZE + 1)
      requires |freePages| >= nextFree / PAGE_SIZE - cr2 / PAGE_SIZE + 1
      modifies this`mem, this`freeTables, this`freePages, this`owner
      ensures Sound(Now()) && next == cr2 / PAGE_SIZE * PAGE_SIZE && data == old(data)
      ensures RangeInstalled(old(Now()), Now(), next, nextFree, AcFlags(code))
    {
      hide Sound, Map, AcFlags;
      var base := cr2 / PAGE_SIZE * PAGE_SIZE;
      next := nextFree;
      while next != base
        invariant base <= next <= nextFree && next % PAGE_SIZE == 0
        invariant Sound(Now()) && data == old(data)
        invariant RangeInstalled(old(Now()), Now(), next, nextFree, AcFlags(code))
        invariant |freeTables| >= 3 * (next / PAGE_SIZE - base / PAGE_SIZE + 1)
        invariant |freePages| >= next / PAGE_SIZE - base / PAGE_SIZE + 1
        decreases next - base
      {
        next := next - PAGE_SIZE;
        assert PageOf(next) * PAGE_SIZE == next;
        var p := InstallPageTable(next, code);
      }
      assert PageOf(next) * PAGE_SIZE == next;
      var p := InstallPageTable(next, code);
    }
  }
}
