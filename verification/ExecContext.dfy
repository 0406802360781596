/** The system calls, working in place on the list and the page table together. */
module ExecContext {
  import opened Words
  import opened Tables
  import opened Areas
  import opened AreaOps
  import opened HugeOps
  import opened BreakOps
  import opened BreakLoss
  import opened Paging
  import opened AreaList
  import opened AddressSpace

  /** A fixed segment: its bounds and the end of its used part. */
  datatype Segment = Segment(start: nat, end: nat, nextFree: nat)

  /** `error_code |= 0x2` */
  function WithWrite(code: nat): (c: nat)
    ensures c % 2 == code % 2 && c / 2 % 2 == 1
  {
    if code / 2 % 2 == 1 then code else code + 2
  }

  /** There are frames for the stack down to the page of `cr2`, and no huge page and nothing of
      the mmap range is in the way. */
  ghost predicate CanGrow(s: Space, nextFree: nat, cr2: nat) {
    && nextFree <= TOP && nextFree % PAGE_SIZE == 0
    && (forall u: nat :: cr2 / PAGE_SIZE <= u < nextFree / PAGE_SIZE ==> !InMmap(u) && !Map(s, u).Big?)
    && |s.freeTables| >= 3 * (nextFree / PAGE_SIZE - cr2 / PAGE_SIZE + 1)
    && |s.freePages| >= nextFree / PAGE_SIZE - cr2 / PAGE_SIZE + 1
  }

  ghost predicate OnlySmall(s: Space, v: nat) { !InMmap(v) && !Map(s, v).Big? }

  /** What a fault at `cr2` in one of the fixed segments needs: its used part lies outside the mmap
      range and has no huge page, and the stack can grow. */
  ghost predicate CanServe(data: Segment, rodata: Segment, stack: Segment, s: Space, cr2: nat) {
    if data.start <= cr2 <= data.end then cr2 < data.nextFree ==> OnlySmall(s, PageOf(cr2))
    else if rodata.start <= cr2 <= rodata.end then cr2 < rodata.nextFree ==> OnlySmall(s, PageOf(cr2))
    else stack.start <= cr2 <= stack.end && cr2 < stack.nextFree ==> CanGrow(s, stack.nextFree, cr2)
  }

  /** Page `v` got a free frame with these flags, and nothing else changed. */
  ghost predicate Installed(s: Space, s': Space, v: nat, flags: nat) {
    exists p :: p in s.freePages && OnlyPage(s, s', v, Small(p, flags))
  }

  lemma InstallKeeps(st: State, s: Space, v: nat, p: nat, flags: nat)
    requires Inv(st) && Sound(s) && OnlyPage(st.space, s, v, Small(p, flags)) && OnlySmall(st.space, v)
    ensures Inv(State(st.areas, s)) && (p in st.space.freePages ==> Installed(st.space, s, v, flags))
  {
    hide Sound, Map, WellFormed, AllInBlocks;
  }

  lemma FaultIs(st: State, addr: nat, code: nat, st': State)
    requires Step(st, Fault(addr, code), st')
    ensures FaultStep(st, addr, code, st') && st'.areas == st.areas
    ensures code % 2 == 1 || Lookup(st.areas, addr).None? ==> st' == st
  {
    hide Map, Lookup;
  }

  lemma GrowKeeps(st: State, s: Space, cr2: nat, nextFree: nat)
    requires Inv(st) && Sound(s) && RangeInstalled(st.space, s, cr2 / PAGE_SIZE * PAGE_SIZE, nextFree, 7)
    requires CanGrow(st.space, nextFree, cr2)
    ensures Inv(State(st.areas, s))
    ensures forall u: nat :: u < PAGES ==>
              if cr2 / PAGE_SIZE * PAGE_SIZE <= u * PAGE_SIZE < nextFree then Map(s, u).Small? && Map(s, u).flags == 7
              else Map(s, u) == Map(st.space, u)
  {
    hide Sound, Map, WellFormed, AllInBlocks;
  }

  lemma ServeIs(data: Segment, rodata: Segment, stack: Segment, s: Space, cr2: nat)
    ensures PAGE_SIZE > 0
    ensures CanServe(data, rodata, stack, s, cr2) ==>
              var inData, inRodata := data.start <= cr2 <= data.end, rodata.start <= cr2 <= rodata.end;
              && (inData && cr2 < data.nextFree ==> OnlySmall(s, PageOf(cr2)))
              && (!inData && inRodata && cr2 < rodata.nextFree ==> OnlySmall(s, PageOf(cr2)))
              && (!inData && !inRodata && stack.start <= cr2 <= stack.end && cr2 < stack.nextFree ==>
                    CanGrow(s, stack.nextFree, cr2))
    ensures OnlySmall(s, PageOf(cr2)) ==> !Map(s, PageOf(cr2)).Big?
    ensures CanGrow(s, stack.nextFree, cr2) ==>
              var n := stack.nextFree / PAGE_SIZE - cr2 / PAGE_SIZE + 1;
              && stack.nextFree <= PAGES * PAGE_SIZE && stack.nextFree % PAGE_SIZE == 0
              && (forall u: nat :: cr2 / PAGE_SIZE <= u < stack.nextFree / PAGE_SIZE ==> !Map(s, u).Big?)
              && |s.freeTables| >= 3 * n && |s.freePages| >= n
  {
    hide Map;
  }

  lemma FlagsAre(code: nat)
    ensures AcFlags(WithWrite(code)) == 7 && (code / 2 % 2 == 0 ==> AcFlags(code) == 5)
  {}

  class ExecContext {
    const list: VmAreaList
    const pt: PageTable
    /** The segments `MM_SEG_DATA`, `MM_SEG_RODATA` and `MM_SEG_STACK`. */
    var dataSeg: Segment
    var rodataSeg: Segment
    var stackSeg: Segment

    constructor (list: VmAreaList, pt: PageTable, dataSeg: Segment, rodataSeg: Segment, stackSeg: Segment)
      ensures this.list == list && this.pt == pt
      ensures this.dataSeg == dataSeg && this.rodataSeg == rodataSeg && this.stackSeg == stackSeg
    {
      this.list, this.pt := list, pt;
      this.dataSeg, this.rodataSeg, this.stackSeg := dataSeg, rodataSeg, stackSeg;
    }

    /** `do_page_fault`; the result says whether the fault was handled without a signal.  The
        used parts of the fixed segments lie outside the mmap range. */
    method DoPageFault(cr2: nat, code: nat) returns (handled: bool)
      requires list.Valid() && Inv(Now()) && cr2 < TOP
      requires code % 2 == 0 ==> CanServe(dataSeg, rodataSeg, stackSeg, pt.Now(), cr2)
      requires |pt.freeTables| >= 3 && pt.freePages != {}
      modifies pt, this`stackSeg
      ensures list.Valid() && Inv(Now()) && dataSeg == old(dataSeg) && rodataSeg == old(rodataSeg)
      ensures var stack := old(stackSeg);
              var inData, inRodata := dataSeg.start <= cr2 <= dataSeg.end, rodataSeg.start <= cr2 <= rodataSeg.end;
              var inStack, inMmap := stack.start <= cr2 <= stack.end, MMAP_START <= cr2 <= MMAP_END;
              var protection, write := code % 2 == 1, code / 2 % 2 == 1;
              && (protection ==> !handled)
              && (inData && cr2 >= dataSeg.nextFree ==> !handled)
              && (!inData && inRodata && (write || cr2 >= rodataSeg.nextFree) ==> !handled)
              && (!inData && !inRodata && inStack && cr2 >= stack.nextFree ==> !handled)
              && (!inData && !inRodata && !inStack && !inMmap ==> !handled)
              && (!handled ==> Now() == old(Now()) && stackSeg == stack)
              && (!protection && inData && cr2 < dataSeg.nextFree ==>
                    handled && stackSeg == stack && Installed(old(pt.Now()), pt.Now(), PageOf(cr2), AcFlags(code)))
              && (!protection && !inData && inRodata && !write && cr2 < rodataSeg.nextFree ==>
                    handled && stackSeg == stack && Installed(old(pt.Now()), pt.Now(), PageOf(cr2), 5))
              && (!protection && !inData && !inRodata && inStack && cr2 < stack.nextFree ==>
                    && handled && stackSeg == stack.(nextFree := cr2 / PAGE_SIZE * PAGE_SIZE)
                    && (forall u: nat :: u < PAGES ==>
                          if stackSeg.nextFree <= u * PAGE_SIZE < stack.nextFree
                          then Map(pt.Now(), u).Small? && Map(pt.Now(), u).flags == 7
                          else Map(pt.Now(), u) == Map(old(pt.Now()), u)))
              && (!protection && !inData && !inRodata && !inStack && inMmap ==>
                    && stackSeg == stack && FaultStep(old(Now()), cr2, code, Now())
                    && (handled <==> Lookup(list.areas, cr2).Some?))
    {
      hide *;
      ghost var st := Now();
      NowIs();
      pt.NowIs();
      InvSound(st);
      FlagsAre(code);
      ServeIs(dataSeg, rodataSeg, stackSeg, pt.Now(), cr2);
      if code % 2 == 1 {
        return false;
      }
      if dataSeg.start <= cr2 <= dataSeg.end {
        if cr2 < dataSeg.nextFree {
          var p := pt.InstallPageTable(cr2, code);
          NowIs();
          InstallKeeps(st, pt.Now(), PageOf(cr2), p, AcFlags(code));
          return true;
        }
        return false;
      }
      if rodataSeg.start <= cr2 <= rodataSeg.end {
        if cr2 < rodataSeg.nextFree && code / 2 % 2 == 0 {
          var p := pt.InstallPageTable(cr2, code);
          NowIs();
          InstallKeeps(st, pt.Now(), PageOf(cr2), p, AcFlags(code));
          return true;
        }
        return false;
      }
      if stackSeg.start <= cr2 <= stackSeg.end {
        if cr2 < stackSeg.nextFree {
          var next := pt.GrowStack(stackSeg.nextFree, cr2, WithWrite(code));
          NowIs();
          GrowKeeps(st, pt.Now(), cr2, stackSeg.nextFree);
          stackSeg := stackSeg.(nextFree := next);
          return true;
        }
        return false;
      }
      if MMAP_START <= cr2 <= MMAP_END {
        var ret := PageFault(cr2, code);
        NowIs();
        FaultIs(st, cr2, code, Now());
        return ret > 0;
      }
      return false;
    }

    ghost function Now(): State
      reads list, pt
    {
      State(list.areas, pt.Now())
    }

    /** `vm_area_pagefault` */
    method PageFault(addr: nat, code: nat) returns (ret: int)
      requires list.Valid() && Inv(Now()) && addr < TOP
      requires |pt.freeTables| >= 3 && pt.freePages != {}
      modifies pt
      ensures list.Valid() && Step(old(Now()), Fault(addr, code), Now()) && Inv(Now())
      ensures ret == if code % 2 == 1 || Lookup(list.areas, addr).None? then -1 else 1
      ensures Counts(old(Now()), old(list.numVmArea), Fault(addr, code), Now(), list.numVmArea)
    {
      hide Sound, Map, WellFormed, AllInBlocks;
      ghost var st := Now();
      var v := list.FindArea(addr);
      if v == null || code % 2 == 1 {
        StepKeeps(st, Fault(addr, code), Now());
        return -1;
      }
      FaultKind(st, addr);
      if v.mappingType == Normal {
        var f, i := pt.MakeSmallEntry(addr, code);
      } else {
        var f, i := pt.MakeHugeEntry(addr, code);
      }
      StepKeeps(st, Fault(addr, code), Now());
      return 1;
    }

    /** `vm_area_map` */
    method MapArea(addr: nat, length: int, prot: nat, flags: int) returns (ret: int)
      requires list.Valid() && Sound(pt.Now()) && length <= MAX_LENGTH
      modifies list, list.repr
      ensures list.Valid() && Step(old(Now()), MapCall(addr, length, prot, flags), Now())
      ensures old(Inv(Now()) && Fits(Now(), MapCall(addr, length, prot, flags))) ==> Inv(Now())
      ensures Counts(old(Now()), old(list.numVmArea), MapCall(addr, length, prot, flags), Now(), list.numVmArea)
      ensures length <= 0 ==> ret == -1
      ensures flags == MAP_FIXED || addr != 0 || WellFormed(old(list.areas)) ==>
                MapAnswers(old(list.areas), list.areas, addr, length, prot, flags, ret)
    {
      hide Inv, Sound, WellFormed, MapAreas, MapAnswers, Fits, VmAreaList.Valid;
      ghost var st := Now();
      list.ValidIs();
      ret := list.Map(addr, length, prot, flags);
      list.ValidIs();
      if Inv(st) && Fits(st, MapCall(addr, length, prot, flags)) {
        StepKeeps(st, MapCall(addr, length, prot, flags), Now());
      }
    }

    /** One round of the loop of `vm_area_unmap`: free what leaves the area, then edit the list. */
    method UnmapRound(ghost i: nat, prev: VmArea, cur: VmArea, addr: nat, length: nat)
        returns (prev': VmArea, cur': VmArea?)
      requires list.At(i, prev, cur) && Sound(pt.Now()) && addr % PAGE_SIZE == 0 && length > 0
      requires Sane(list.areas[i])
      requires list.areas[i].kind == Normal ==>
                 forall v: nat :: v < PAGES && Contains(list.areas[i], v * PAGE_SIZE) ==> !Map(pt.Now(), v).Big?
      modifies list, list.repr, pt
      ensures fresh(list.repr - old(list.repr)) && Sound(pt.Now()) && list.lost == old(list.lost)
      ensures i < |old(list.areas)|
      ensures var (out, k) := UnmapRoundOf(old(list.areas), i, addr, length);
              list.areas == out && list.At(k, prev', cur')
      ensures var v := old(list.areas)[i];
              FreedPart(v, old(pt.Now()), pt.Now(), addr, RoundUp(length, UnitOf(v.kind)))
    {
      hide *;
      list.Position(i, prev, cur);
      ghost var s := pt.Now();
      cur.ViewIs();
      pt.NowIs();
      RoundIs(list.areas, i, addr, length);
      FreedClear(list.areas[i], s, addr, length);
      var x := RoundUp(length, UnitOf(cur.mappingType));
      var (lo, hi) := UnmapFreed(cur.View(), addr, x);
      pt.FreeRange(lo, hi, cur.mappingType);
      pt.NowIs();
      FreedIs(list.areas[i], s, pt.Now(), addr, x);
      prev', cur' := list.UnmapNode(i, prev, cur, addr, x);
    }

    /** `vm_area_unmap` */
    method Unmap(addr: nat, length: int) returns (ret: int)
      requires list.Valid() && Inv(Now()) && length <= 0x7FE0_0000
      modifies list, list.repr, pt
      ensures list.Valid() && Step(old(Now()), UnmapCall(addr, length), Now())
      ensures ret == if length <= 0 || addr % PAGE_SIZE != 0 then -1 else 0
      ensures old(Fits(Now(), UnmapCall(addr, length))) ==> Inv(Now())
      ensures Counts(old(Now()), old(list.numVmArea), UnmapCall(addr, length), Now(), list.numVmArea)
    {
      hide Inv, Sound, UnmapAreas, RangeCleared, Fits, VmAreaList.Valid;
      ghost var st := Now();
      InvSound(st);
      list.ValidIs();
      if length <= 0 || addr % PAGE_SIZE != 0 {
        if Fits(st, UnmapCall(addr, length)) {
          StepKeeps(st, UnmapCall(addr, length), Now());
        }
        return -1;
      }
      UnmapLoop(addr, length);
      list.ValidIs();
      if Fits(st, UnmapCall(addr, length)) {
        StepKeeps(st, UnmapCall(addr, length), Now());
      }
      return 0;
    }

    /** Where the loop of `vm_area_unmap` stands. */
    ghost predicate Unmapping(st: State, i: nat, prev: VmArea, cur: VmArea?, addr: nat, length: nat)
      reads list, list.repr, pt
    {
      && list.At(i, prev, cur) && Sound(pt.Now())
      && UnmapRest(list.areas, i, addr, length) == UnmapAreas(st.areas, addr, length)
      && UnmapProgress(st, list.areas[i..], pt.Now(), addr, length)
    }

    method UnmapNext(ghost st: State, ghost i: nat, prev: VmArea, cur: VmArea, addr: nat, length: nat)
      returns (prev': VmArea, cur': VmArea?, ghost j: nat)
      requires Inv(st) && Unmapping(st, i, prev, cur, addr, length) && addr % PAGE_SIZE == 0 && length > 0
      modifies list, list.repr, pt
      ensures fresh(list.repr - old(list.repr)) && Unmapping(st, j, prev', cur', addr, length)
      ensures list.lost == old(list.lost)
      ensures UnmapToDo(list.areas[j..], addr, length) < old(UnmapToDo(list.areas[i..], addr, length))
    {
      ghost var before, areas := pt.Now(), list.areas;
      UnmapReady(st, areas, i, before, addr, length);
      UnmapStepKeeps(areas, i, addr, length);
      hide Sound, UnmapRest, UnmapAreas, UnmapProgress, UnmapRoundOf, FreedPart, RoundUp, Contains, UnmapToDo;
      j := UnmapRoundOf(areas, i, addr, length).1;
      prev', cur' := UnmapRound(i, prev, cur, addr, length);
      UnmapAdvances(st, areas, i, before, pt.Now(), addr, length);
    }

    method UnmapLoop(addr: nat, length: nat)
      requires list.Valid() && Inv(Now()) && addr % PAGE_SIZE == 0 && length > 0
      modifies list, list.repr, pt
      ensures list.Valid() && Sound(pt.Now()) && fresh(list.repr - old(list.repr)) && list.lost == old(list.lost)
      ensures list.areas == UnmapAreas(old(list.areas), addr, length)
      ensures RangeCleared(old(list.areas), old(pt.Now()), pt.Now(), addr, length)
    {
      ghost var st := Now();
      list.Shape();
      UnmapStarts(st, addr, length);
      var prev := list.dummy;
      var cur := list.Next(0, prev);
      ghost var i: nat := 0;
      assert Unmapping(st, i, prev, cur, addr, length);
      list.Position(i, prev, cur);
      hide Unmapping, Inv, UnmapAreas, RangeCleared, UnmapToDo;
      while cur != null
        invariant Unmapping(st, i, prev, cur, addr, length) && i <= |list.areas|
        invariant fresh(list.repr - old(list.repr)) && (cur == null ==> i == |list.areas|)
        invariant list.lost == old(list.lost)
        decreases UnmapToDo(list.areas[i..], addr, length)
      {
        prev, cur, i := UnmapNext(st, i, prev, cur, addr, length);
        Unmapped(st, i, prev, cur, addr, length);
      }
      Unmapped(st, i, prev, cur, addr, length);
    }

    lemma Unmapped(st: State, i: nat, prev: VmArea, cur: VmArea?, addr: nat, length: nat)
      requires Unmapping(st, i, prev, cur, addr, length)
      ensures i <= |list.areas| && (cur == null ==> i == |list.areas|) && list.Valid() && Sound(pt.Now())
      ensures cur == null ==>
                && list.areas == UnmapAreas(st.areas, addr, length)
                && RangeCleared(st.areas, st.space, pt.Now(), addr, length)
    {
      if cur == null {
        UnmapEnds(st, list.areas, pt.Now(), addr, length);
      }
    }

    /** `vm_area_make_hugepage`.  Carving ends when there is a full block or no area covers its
        start; and no block that is to be gathered may already be huge. */
    method MakeHugepage(addr: nat, length: nat, prot: nat, force: bool) returns (ret: int)
      requires list.Valid() && Inv(Now()) && addr + length <= TOP
      requires Scan(list.areas, addr, length, prot, force) == Accepted ==>
                 && CanCarve(list.areas, BlocksFrom(addr), BlocksTo(addr, length))
                 && NothingHuge(list.areas, BlocksFrom(addr), BlocksTo(addr, length))
      requires |pt.freeTables| >= 3 * (length / HUGE_PAGE_SIZE)
      requires pt.freePages != {} && |pt.freeHuges| >= length / HUGE_PAGE_SIZE
      modifies list, list.repr, pt
      ensures list.Valid() && Step(old(Now()), MakeCall(addr, length, prot, force), Now())
      ensures ret == ReturnCode(Scan(old(list.areas), addr, length, prot, force), BlocksFrom(addr))
      ensures MakeAnswers(old(list.areas), addr, length, prot, force, ret)
      ensures old(Fits(Now(), MakeCall(addr, length, prot, force))) ==> Inv(Now())
      ensures Counts(old(Now()), old(list.numVmArea), MakeCall(addr, length, prot, force), Now(), list.numVmArea)
    {
      hide Sound, Inv, CanCarve, Scan, Blocks, KeepsReads, RangeBig, BlocksFrom, BlocksTo, NothingHuge, MakeHuge,
        Fits, AcFlags, Map, WellFormed, MakeAnswers, VmAreaList.Valid;
      ghost var st := Now();
      list.ValidIs();
      InvSound(st);
      BlockBounds(addr, length);
      BlockCount(addr, length);
      MakeAnswered(list.areas, addr, length, prot, force);
      var verdict := list.ScanRequest(addr, length, prot, force);
      ret := ReturnCode(verdict, BlocksFrom(addr));
      if verdict == Accepted {
        MakeAccepted(BlocksFrom(addr), BlocksTo(addr, length), prot);
        list.ValidIs();
      }
      if Fits(st, MakeCall(addr, length, prot, force)) {
        StepKeeps(st, MakeCall(addr, length, prot, force), Now());
      }
    }

    /** The part of that call after its checks. */
    method MakeAccepted(x: nat, l: nat, prot: nat)
      requires list.Valid() && Inv(Now()) && x % HUGE_PAGE_SIZE == 0 && l % HUGE_PAGE_SIZE == 0 && l <= TOP
      requires CanCarve(list.areas, x, l) && NothingHuge(list.areas, x, l)
      requires |pt.freeTables| >= 3 * Blocks(x, l) && |pt.freeHuges| >= Blocks(x, l)
      requires x < l ==> pt.freePages != {}
      modifies list, list.repr, pt
      ensures list.Valid() && list.areas == MakeHuge(old(list.areas), x, l, prot) && list.lost == old(list.lost)
      ensures Sound(pt.Now()) && KeepsReads(old(pt.Now()), pt.Now())
      ensures RangeBig(old(pt.Now()), pt.Now(), x, l, AcFlags(prot))
    {
      hide *;
      NowIs();
      InvSound(Now());
      NothingBig(Now(), x, l);
      NoneEmpty(list.areas);
      MakeHugeIs(list.areas, x, l, prot);
      list.CarveRange(x, l);
      pt.CopyToHuge(x, l, prot);
      ghost var at := list.AddArea(x, l, prot, HugePage);
    }

    /** What that round hands to `copy_hpp`. */
    method DemotePart(cur: VmArea, x: nat, l: nat)
      requires Sound(pt.Now()) && Affords(pt.Now(), cur.View(), x, l)
      modifies pt
      ensures Demotes(old(pt.Now()), pt.Now(), cur.View(), x, l)
    {
      hide Sound, Map, KeepsReads, RangeDemoted, AllBig, Blocks;
      NoPart(pt.Now(), cur.View(), x, l);
      if cur.mappingType == HugePage && cur.vmStart >= x && cur.vmEnd <= l {
        pt.CopyToSmall(cur.vmStart, cur.vmEnd, cur.accessFlags);
      } else if cur.mappingType == HugePage && cur.vmStart >= x && cur.vmStart < l {
        pt.CopyToSmall(cur.vmStart, l, cur.accessFlags);
      } else if cur.mappingType == HugePage && cur.vmEnd > x && cur.vmEnd < l {
        pt.CopyToSmall(cur.vmEnd, l, cur.accessFlags);
      } else if cur.mappingType == HugePage && x >= cur.vmStart && l < cur.vmEnd {
        pt.CopyToSmall(x, l, cur.accessFlags);
      }
    }

    /** One round of the loop of `vm_area_break_hugepage`. */
    method BreakRound(ghost i: nat, ghost prev: VmArea, cur: VmArea, x: nat, l: nat)
      returns (ghost prev': VmArea, cur': VmArea?, ghost j: nat)
      requires list.At(i, prev, cur) && i < |list.areas| && Sound(pt.Now())
      requires Affords(pt.Now(), list.areas[i], x, l)
      modifies list, list.repr, pt
      ensures fresh(list.repr - old(list.repr)) && list.At(j, prev', cur')
      ensures (list.areas, j) == BreakRoundOf(old(list.areas), i, x, l)
      ensures list.lost == old(list.lost) + LostIn(old(list.areas), i, x, l)
      ensures Demotes(old(pt.Now()), pt.Now(), old(list.areas)[i], x, l)
    {
      list.Position(i, prev, cur);
      hide *;
      DemotePart(cur, x, l);
      prev', cur', j := list.BreakNode(i, prev, cur, x, l);
    }

    /** Where the loop of `vm_area_break_hugepage` stands, in place; `n` nodes were cut off before the call. */
    ghost predicate Stands(st: State, n: nat, i: nat, prev: VmArea, cur: VmArea?, c: nat, x: nat, l: nat)
      reads list, list.repr, pt
    {
      && list.At(i, prev, cur) && Breaking(st, list.areas, i, pt.Now(), c, x, l)
      && Losing(st.areas, list.areas, i, list.lost - n, x, l)
    }

    lemma StandsIs(st: State, n: nat, i: nat, prev: VmArea, cur: VmArea?, c: nat, x: nat, l: nat)
      requires Stands(st, n, i, prev, cur, c, x, l)
      ensures list.Valid() && list.At(i, prev, cur) && i <= |list.areas| && (cur == null <==> i == |list.areas|)
      ensures Breaking(st, list.areas, i, pt.Now(), c, x, l) && x < l
      ensures Losing(st.areas, list.areas, i, list.lost - n, x, l)
    {
      hide Breaking, Losing;
      list.Position(i, prev, cur);
      LosingFacts(st.areas, list.areas, i, list.lost - n, x, l);
    }

    lemma ItStands(st: State, n: nat, i: nat, prev: VmArea, cur: VmArea?, c: nat, x: nat, l: nat)
      requires list.At(i, prev, cur) && Breaking(st, list.areas, i, pt.Now(), c, x, l)
      requires Losing(st.areas, list.areas, i, list.lost - n, x, l)
      ensures Stands(st, n, i, prev, cur, c, x, l)
    {
      hide Breaking, Losing;
    }

    /** A round takes the loop on. */
    method BreakOn(ghost st: State, ghost n: nat, ghost i: nat, ghost prev: VmArea, cur: VmArea, ghost c: nat, x: nat,
        l: nat)
      returns (ghost prev': VmArea, cur': VmArea?, ghost j: nat, ghost c': nat)
      requires Stands(st, n, i, prev, cur, c, x, l) && i < |list.areas|
      modifies list, list.repr, pt
      ensures fresh(list.repr - old(list.repr)) && Stands(st, n, j, prev', cur', c', x, l) && j <= |list.areas|
      ensures Acts(list.areas[j..], x, l) < old(Acts(list.areas[i..], x, l))
           || (Acts(list.areas[j..], x, l) == old(Acts(list.areas[i..], x, l))
             && |list.areas| - j < old(|list.areas|) - i)
    {
      ghost var areas, s := list.areas, pt.Now();
      hide *;
      StandsIs(st, n, i, prev, cur, c, x, l);
      RoundAffords(st, areas, i, s, c, x, l);
      RoundShrinks(areas, i, x, l);
      LosingOn(st.areas, areas, i, list.lost - n, x, l);
      prev', cur', j := BreakRound(i, prev, cur, x, l);
      RoundKeeps(st, areas, i, s, pt.Now(), c, x, l);
      c' := PartEnd(areas[i], c, x, l);
      ItStands(st, n, j, prev', cur', c', x, l);
    }

    /** Frames enough for the call: for the blocks of the request when it fits, and otherwise
        for all of them again in every round. */
    ghost predicate CanBreak(addr: nat, length: nat)
      reads list, pt
    {
      var x, l, n := addr, addr + length, length / HUGE_PAGE_SIZE;
      l <= TOP &&
      if BreakFits(list.areas, x, l) then |pt.freeTables| >= 3 * n && |pt.freePages| >= SLOTS * n
      else length > 0 && Stocked(pt.Now(), Acts(list.areas, x, l), n)
    }

    /** `vm_area_break_hugepage` */
    method BreakHugepage(addr: nat, length: nat) returns (ret: int)
      requires list.Valid() && Inv(Now()) && (!BreakRefused(addr, length) ==> CanBreak(addr, length))
      modifies list, list.repr, pt
      ensures ret == if addr == 0 || length == 0 || length % HUGE_PAGE_SIZE != 0 || addr % HUGE_PAGE_SIZE != 0 then -9
                     else 0
      ensures Counts(old(Now()), old(list.numVmArea), BreakCall(addr, length), Now(), list.numVmArea)
      ensures BreakFits(old(list.areas), addr, addr + length) ==>
                list.numVmArea - |list.areas| == old(list.numVmArea - |list.areas|)
      ensures list.Valid() && Step(old(Now()), BreakCall(addr, length), Now())
      ensures old(Fits(Now(), BreakCall(addr, length))) ==> Inv(Now())
    {
      ghost var st := Now();
      InvSound(st);
      hide Inv, Step, Sound, WellFormed, Fits, CanBreak, BreakFits, LostBy, VmAreaList.Valid;
      list.ValidIs();
      if BreakRefused(addr, length) {
        Unchanged(st, addr, length);
        ret := -9;
      } else {
        BreakLoop(addr, length);
        list.ValidIs();
        ret := 0;
      }
      if BreakFits(st.areas, addr, addr + length) {
        FitsCutsNothing(st, addr, length);
      }
      if Fits(st, BreakCall(addr, length)) {
        StepKeeps(st, BreakCall(addr, length), Now());
      }
    }

    lemma Begins(addr: nat, length: nat)
      requires list.Valid() && Inv(Now()) && !BreakRefused(addr, length) && CanBreak(addr, length)
      ensures Breaking(Now(), list.areas, 0, pt.Now(), addr, addr, addr + length)
      ensures !BreakRefused(addr, addr + length - addr)
    {
      BreakAligned(addr, length);
      AllBlocks(addr, length);
      hide Inv, Sound, WellFormed, BreakFits, Acts, Breaking, Stocked, Blocks;
      BreakStarts(Now(), addr, addr + length);
    }

    method BreakLoop(addr: nat, length: nat)
      requires list.Valid() && Inv(Now()) && !BreakRefused(addr, length) && CanBreak(addr, length)
      modifies list, list.repr, pt
      ensures list.lost == old(list.lost) + LostBy(old(Now()), BreakCall(addr, length))
      ensures list.Valid() && Step(old(Now()), BreakCall(addr, length), Now())
    {
      ghost var st := Now();
      var x, l := addr, addr + length;
      hide *;
      LosingStarts(st, addr, length);
      Begins(addr, length);
      NowIs();
      var cur := list.First();
      ghost var n, prev, i: nat, c := list.lost, list.dummy, 0, x;
      ItStands(st, n, i, prev, cur, c, x, l);
      while cur != null
        invariant Stands(st, n, i, prev, cur, c, x, l) && i <= |list.areas| && fresh(list.repr - old(list.repr))
        decreases Acts(list.areas[i..], x, l), |list.areas| - i
      {
        StandsIs(st, n, i, prev, cur, c, x, l);
        prev, cur, i, c := BreakOn(st, n, i, prev, cur, c, x, l);
      }
      StandsIs(st, n, i, prev, cur, c, x, l);
      LosingEnds(st, addr, length, list.areas, list.lost - n);
      BreakEnds(st, list.areas, pt.Now(), c, x, l);
      NowIs();
    }

    lemma NowIs()
      ensures Now() == State(list.areas, pt.Now())
    {}
  }

  /** `n` nodes have been cut off so far, and the rest of the loop cuts off the others. */
  ghost predicate Losing(orig: seq<Area>, areas: seq<Area>, i: nat, n: int, x: nat, l: nat) {
    x < l && n + LostFrom(areas, i, x, l) == LostFrom(orig, 0, x, l)
  }

  lemma LosingFacts(orig: seq<Area>, areas: seq<Area>, i: nat, n: int, x: nat, l: nat)
    requires Losing(orig, areas, i, n, x, l)
    ensures x < l
  {}

  lemma LosingStarts(st: State, addr: nat, length: nat)
    requires !BreakRefused(addr, length)
    ensures Losing(st.areas, st.areas, 0, 0, addr, addr + length)
  {
    hide LostFrom;
  }

  lemma LosingOn(orig: seq<Area>, areas: seq<Area>, i: nat, n: int, x: nat, l: nat)
    requires i < |areas| && Losing(orig, areas, i, n, x, l)
    ensures var (out, j) := BreakRoundOf(areas, i, x, l);
            Losing(orig, out, j, n + LostIn(areas, i, x, l), x, l)
  {
    hide BreakRoundOf, LostIn;
  }

  lemma LosingEnds(st: State, addr: nat, length: nat, areas: seq<Area>, n: int)
    requires !BreakRefused(addr, length) && Losing(st.areas, areas, |areas|, n, addr, addr + length)
    ensures n == LostBy(st, BreakCall(addr, length))
  {}

  function ReturnCode(v: Verdict, x: nat): int {
    match v
    case EINVAL => -9
    case ENOMAPPING => -6
    case EVMAOCCUPIED => -8
    case EDIFFPROT => -7
    case Accepted => x
  }

  /** What a request returns, in the window: the code of the first thing that speaks against it,
      or the start of its first whole block. */
  ghost predicate MakeAnswers(areas: seq<Area>, addr: nat, length: nat, prot: nat, force: bool, ret: int) {
    var end := addr + length;
    if addr == 0 || length == 0 then ret == -9
    else AllInWindow(areas) && InWindow(addr) && InWindow(end) ==>
      if GapFound(areas, addr, end) then ret == -6
      else if SomeMapped(areas, addr, end, (t: Attr) => t.kind == HugePage) then ret == -8
      else if !force && SomeMapped(areas, addr, end, (t: Attr) => t.flags != prot) then ret == -7
      else ret >= 0 && Rounded(addr, HUGE_PAGE_SIZE, ret)
  }

  lemma MakeAnswered(areas: seq<Area>, addr: nat, length: nat, prot: nat, force: bool)
    requires WellFormed(areas)
    ensures MakeAnswers(areas, addr, length, prot, force,
                        ReturnCode(Scan(areas, addr, length, prot, force), BlocksFrom(addr)))
  {
    RoundUpIs(addr, HUGE_PAGE_SIZE);
    hide RoundUp, Rounded, WellFormed, AllInWindow, GapFound, SomeMapped, GapHit, HugeHit, ProtHit;
    if addr > 0 && length > 0 && AllInWindow(areas) && InWindow(addr) && InWindow(addr + length) {
      ScanExact(areas, addr, length, prot, force);
      hide Scan, InWindow;
    }
  }

  lemma MakeHugeIs(areas: seq<Area>, x: nat, l: nat, prot: nat)
    ensures MakeHuge(areas, x, l, prot) == Insert(Carve(areas, x, l), Area(x, l, prot, HugePage))
  {}

  lemma NothingBig(st: State, x: nat, l: nat)
    requires Inv(st) && NothingHuge(st.areas, x, l) && l <= TOP
    ensures l <= PAGES * PAGE_SIZE && forall u: nat :: x <= u * PAGE_SIZE < l ==> !Map(st.space, u).Big?
  {
    hide Map, Sound;
    forall u: nat | x <= u * PAGE_SIZE < l && Map(st.space, u).Big?
      ensures false
    {
      assert KindAt(st.areas, u) == Some(HugePage);
      FindIn(st.areas, u * PAGE_SIZE);
    }
  }

  /** The whole blocks of a request number at most its length in blocks. */
  lemma BlockCount(addr: nat, length: nat)
    ensures Blocks(BlocksFrom(addr), BlocksTo(addr, length)) <= length / HUGE_PAGE_SIZE
  {}

  /** In the window the scans guarantee that an accepted request touches nothing huge. */
  lemma AcceptedTouchesNothingHuge(areas: seq<Area>, addr: nat, length: nat, prot: nat, force: bool)
    requires WellFormed(areas) && AllInWindow(areas)
    requires InWindow(addr) && InWindow(addr + length)
    requires Scan(areas, addr, length, prot, force) == Accepted
    ensures NothingHuge(areas, BlocksFrom(addr), BlocksTo(addr, length))
  {
    ScanExact(areas, addr, length, prot, force);
    BlockBounds(addr, length);
    MeetsMeansMapped(areas, addr, addr + length, (t: Attr) => t.kind == HugePage);
    forall ar | ar in areas && ar.end > BlocksFrom(addr) && BlocksTo(addr, length) > ar.start
      ensures ar.kind == Normal
    {
      assert AttrOf(ar).kind == ar.kind;
    }
  }

  // ---- the loop of break ----

  /** The pages of the request that were huge and no longer are, are in 4 KiB frames. */
  ghost predicate Demoting(orig: seq<Area>, areas: seq<Area>, s: Space, s': Space, x: nat, l: nat) {
    forall v: nat :: v < PAGES ==>
      if x <= v * PAGE_SIZE < l && KindAt(orig, v) == Some(HugePage) && KindAt(areas, v) != Some(HugePage)
      then Map(s, v).Big? && Map(s', v).Small? && Map(s', v).flags == AcFlags(Map(s, v).flags)
      else Map(s', v) == Map(s, v)
  }

  /** What is huge in the list was huge in the original, with the same protection. */
  ghost predicate HugeFrom(orig: seq<Area>, areas: seq<Area>) {
    forall a: nat :: Lookup(areas, a).Some? && Lookup(areas, a).value.kind == HugePage ==>
      Lookup(orig, a) == Lookup(areas, a)
  }

  /** From `areas` at `i` the rest of the loop makes what the call makes of the original list. */
  ghost predicate BreakGoes(orig: seq<Area>, areas: seq<Area>, i: nat, x: nat, l: nat) {
    && i <= |areas| && Breakable(areas, x, l) && AllInBlocks(areas)
    && Breakable(orig, x, l) && BreakFrom(areas, i, x, l) == Break(orig, x, l)
    && (forall k :: i <= k < |areas| && EndsIn(areas[k], x, l) ==> k == 0 && x <= areas[0].start)
  }

  ghost predicate BreakProgress(st: State, areas: seq<Area>, i: nat, s: Space, x: nat, l: nat) {
    && BreakGoes(st.areas, areas, i, x, l)
    && HugeFrom(st.areas, areas)
    && KeepsReads(st.space, s) && Demoting(st.areas, areas, st.space, s, x, l)
  }

  ghost predicate Ahead(areas: seq<Area>, i: nat, c: nat, x: nat) {
    c == x || forall k :: i <= k < |areas| && areas[k].kind == HugePage ==> c <= areas[k].start
  }

  lemma HugeIsBig(st: State, areas: seq<Area>, i: nat, s: Space, x: nat, l: nat)
    requires Inv(st) && BreakProgress(st, areas, i, s, x, l) && i < |areas| && areas[i].kind == HugePage
    ensures forall v: nat :: v < PAGES && Contains(areas[i], v * PAGE_SIZE) ==> Map(s, v).Big?
  {
    hide Sound, Map, BreakFrom;
    forall v: nat | v < PAGES && Contains(areas[i], v * PAGE_SIZE)
      ensures Map(s, v).Big?
    {
      FindOnly(areas, areas[i], v * PAGE_SIZE);
      assert KindAt(areas, v) == Some(HugePage) == KindAt(st.areas, v);
    }
  }

  lemma BreakFacts(st: State, areas: seq<Area>, i: nat, s: Space, c: nat, x: nat, l: nat)
    requires BreakProgress(st, areas, i, s, x, l) && Ahead(areas, i, c, x) && i < |areas| && x <= c
    requires x % HUGE_PAGE_SIZE == 0 && l % HUGE_PAGE_SIZE == 0
    ensures WellFormed(areas) && x < l && areas[i].start < areas[i].end && InBlocks(areas[i])
    ensures areas[i].kind == HugePage && areas[i].start >= x && areas[i].end <= l ==>
              i == 0 && (|areas| > 1 ==> areas[1].start >= areas[0].end)
    ensures areas[i].kind == HugePage ==> c <= areas[i].start || c == x
  {
    AtIndex(areas, i);
    assert areas[i] in areas;
    assert areas[i].kind == HugePage && areas[i].start >= x && areas[i].end <= l ==> EndsIn(areas[i], x, l);
  }

  /** The list after a round says `Normal` on the range just demoted, and what it said elsewhere. */
  lemma ProgressOn(st: State, areas: seq<Area>, out: seq<Area>, s: Space, s': Space, lo: nat, hi: nat, flags: nat,
      x: nat, l: nat)
    requires HugeFrom(st.areas, areas) && Demoting(st.areas, areas, st.space, s, x, l) && KeepsReads(st.space, s)
    requires RangeSmall(s, s', lo, hi) && KeepsReads(s, s') && x <= lo && hi <= l
    requires forall a: nat :: lo <= a < hi ==> Lookup(areas, a) == Some(Attr(flags, HugePage))
    requires forall a: nat :: Lookup(out, a) == if lo <= a < hi then Some(Attr(flags, Normal)) else Lookup(areas, a)
    ensures HugeFrom(st.areas, out) && Demoting(st.areas, out, st.space, s', x, l) && KeepsReads(st.space, s')
  {
    hide Map, Read, Find, Lookup, AcFlags;
  }

  lemma WholeAdvances(st: State, areas: seq<Area>, i: nat, s: Space, s': Space, x: nat, l: nat)
    requires BreakProgress(st, areas, i, s, x, l) && i == 0 < |areas|
    requires x % HUGE_PAGE_SIZE == 0 && l % HUGE_PAGE_SIZE == 0
    requires areas[0].kind == HugePage && areas[0].start >= x && areas[0].end <= l
    requires RangeSmall(s, s', areas[0].start, areas[0].end) && KeepsReads(s, s')
    ensures var out := BreakWhole(areas, 0);
            var j := |out| + 1 - |areas|;
            && 0 <= j <= |out| && BreakProgress(st, out, j, s', x, l) && Ahead(out, j, areas[0].end, x)
  {
    hide Sound, Map, RangeSmall, KeepsReads, Demoting, HugeFrom, WellFormed, BreakWhole, AllInBlocks, Lookup,
      BreakFrom;
    WholeGoes(st.areas, areas, x, l);
    WholeLooks(areas);
    hide BreakGoes;
    ProgressOn(st, areas, BreakWhole(areas, 0), s, s', areas[0].start, areas[0].end, areas[0].flags, x, l);
  }

  lemma WholeGoes(orig: seq<Area>, areas: seq<Area>, x: nat, l: nat)
    requires BreakGoes(orig, areas, 0, x, l) && areas != []
    requires areas[0].kind == HugePage && areas[0].start >= x && areas[0].end <= l
    ensures var out := BreakWhole(areas, 0);
            var j := |out| + 1 - |areas|;
            0 <= j <= |out| && BreakGoes(orig, out, j, x, l) && Ahead(out, j, areas[0].end, x)
  {
    hide WellFormed, BreakFrom, Insert, BreakWhole, AllInBlocks, EndsIn, Ahead;
    BreakWholeKeeps(areas, 0, x, l);
    AfterWhole(areas, 0);
    WholeUnfolds(areas, 0, x, l);
    WholeInBlocks(areas);
    var j := |BreakWhole(areas, 0)| + 1 - |areas|;
    WholeSuffix(areas, j, x, l);
  }

  lemma WholeInBlocks(areas: seq<Area>)
    requires AllInBlocks(areas) && areas != []
    ensures AllInBlocks(BreakWhole(areas, 0))
  {
    assert forall ar :: ar in areas[1..] ==> ar in areas;
    hide Insert;
    InsertInBlocks(areas[1..], areas[0].(kind := Normal));
  }

  lemma WholeLooks(areas: seq<Area>)
    requires WellFormed(areas) && areas != []
    ensures forall a: nat :: Contains(areas[0], a) ==> Lookup(areas, a) == Some(AttrOf(areas[0]))
    ensures forall a: nat :: Lookup(BreakWhole(areas, 0), a) ==
              if Contains(areas[0], a) then Some(Attr(areas[0].flags, Normal)) else Lookup(areas, a)
  {
    AtIndex(areas, 0);
    InsertExact(areas[1..], areas[0].(kind := Normal));
  }

  lemma WholeSuffix(areas: seq<Area>, j: nat, x: nat, l: nat)
    requires WellFormed(areas) && areas != [] && j == |BreakWhole(areas, 0)| + 1 - |areas|
    requires forall k :: 0 <= k < |areas| && EndsIn(areas[k], x, l) ==> k == 0
    ensures var out := BreakWhole(areas, 0);
            && (forall k :: j <= k < |out| ==> !EndsIn(out[k], x, l))
            && Ahead(out, j, areas[0].end, x)
  {
    AfterWhole(areas, 0);
    AtIndex(areas, 0);
    var out := BreakWhole(areas, 0);
    forall k | j <= k < |out| && k > 0
      ensures !EndsIn(out[k], x, l) && areas[0].end <= out[k].start
    {
      assert out[k] == areas[k + |areas| - |out|] && k + |areas| - |out| > 0;
      assert out[k] in areas[1..];
    }
  }

  lemma SupplyEnough(c: nat, lo: nat, hi: nat, l: nat)
    requires lo % HUGE_PAGE_SIZE == 0 && hi % HUGE_PAGE_SIZE == 0 && c % HUGE_PAGE_SIZE == 0 && l % HUGE_PAGE_SIZE == 0
    requires c <= lo < hi <= l
    ensures (hi - lo) / HUGE_PAGE_SIZE + (l - hi) / HUGE_PAGE_SIZE <= (l - c) / HUGE_PAGE_SIZE
  {}

  lemma HeadInBlocks(areas: seq<Area>, i: nat, l: nat)
    requires AllInBlocks(areas) && i < |areas| && l % HUGE_PAGE_SIZE == 0
    ensures AllInBlocks(BreakHead(areas, i, l))
  {
    assert areas[i] in areas;
    InsertInBlocks(CutHead(areas, i, l), Area(areas[i].start, l, areas[i].flags, Normal));
  }

  lemma HeadAdvances(st: State, areas: seq<Area>, i: nat, s: Space, s': Space, x: nat, l: nat)
    requires BreakProgress(st, areas, i, s, x, l) && i < |areas|
    requires x % HUGE_PAGE_SIZE == 0 && l % HUGE_PAGE_SIZE == 0
    requires areas[i].kind == HugePage && x <= areas[i].start < l < areas[i].end
    requires RangeSmall(s, s', areas[i].start, l) && KeepsReads(s, s')
    ensures var out := BreakHead(areas, i, l);
            |areas| <= |out| &&
            var j := AfterHeadAt(areas, i, l);
            && j <= |out| && BreakProgress(st, out, j, s', x, l) && Ahead(out, j, l, x)
  {
    hide Sound, Map, RangeSmall, KeepsReads, Demoting, HugeFrom, WellFormed, BreakHead, AllInBlocks, Lookup,
      BreakFrom, Ahead;
    HeadGoes(st.areas, areas, i, x, l);
    BreakHeadKeeps(areas, i, x, l);
    AreaLooks(areas, i);
    var out := BreakHead(areas, i, l);
    hide BreakGoes;
    ProgressOn(st, areas, out, s, s', areas[i].start, l, areas[i].flags, x, l);
  }

  lemma HeadGoes(orig: seq<Area>, areas: seq<Area>, i: nat, x: nat, l: nat)
    requires BreakGoes(orig, areas, i, x, l) && i < |areas| && l % HUGE_PAGE_SIZE == 0
    requires areas[i].kind == HugePage && x <= areas[i].start < l < areas[i].end
    ensures var out := BreakHead(areas, i, l);
            |areas| <= |out| &&
            var j := AfterHeadAt(areas, i, l);
            && j <= |out| && BreakGoes(orig, out, j, x, l) && Ahead(out, j, l, x)
  {
    hide WellFormed, BreakHead, AllInBlocks, Lookup, BreakFrom;
    BreakHeadKeeps(areas, i, x, l);
    HeadUnfolds(areas, i, x, l);
    AfterHead(areas, i, x, l);
    HeadInBlocks(areas, i, l);
    var out, j := BreakHead(areas, i, l), AfterHeadAt(areas, i, l);
    LaterAreas(areas, i, out, j, l, x);
  }

  lemma AreaLooks(areas: seq<Area>, i: nat)
    requires WellFormed(areas) && i < |areas|
    ensures forall a: nat :: Contains(areas[i], a) ==> Lookup(areas, a) == Some(AttrOf(areas[i]))
  {
    forall a: nat | Contains(areas[i], a)
      ensures Lookup(areas, a) == Some(AttrOf(areas[i]))
    {
      FindOnly(areas, areas[i], a);
    }
  }

  /** The areas behind the one just broken are those behind it before. */
  lemma LaterAreas(areas: seq<Area>, i: nat, out: seq<Area>, j: nat, l: nat, x: nat)
    requires WellFormed(areas) && i < |areas| && areas[i].end >= l && j <= |out| && out[j..] == areas[i + 1..]
    requires forall k :: i <= k < |areas| && EndsIn(areas[k], x, l) ==> k == 0
    ensures Ahead(out, j, l, x)
    ensures forall k :: j <= k < |out| ==> !EndsIn(out[k], x, l)
  {
    AtIndex(areas, i);
    SuffixFrom(out, j, areas, i + 1);
    forall k | j <= k < |out|
      ensures l <= out[k].start && !EndsIn(out[k], x, l)
    {
      assert out[k] == areas[k - j + i + 1] && out[k] in areas[i + 1..];
    }
  }

  lemma MiddleAdvances(st: State, areas: seq<Area>, i: nat, s: Space, s': Space, x: nat, l: nat)
    requires BreakProgress(st, areas, i, s, x, l) && i < |areas|
    requires x % HUGE_PAGE_SIZE == 0 && l % HUGE_PAGE_SIZE == 0
    requires areas[i].kind == HugePage && areas[i].start < x && l < areas[i].end
    requires RangeSmall(s, s', x, l) && KeepsReads(s, s')
    ensures var out := BreakMiddle(areas, i, x, l);
            && i + 1 <= |out| && BreakProgress(st, out, i + 1, s', x, l) && Ahead(out, i + 1, l, x)
  {
    hide Sound, Map, RangeSmall, KeepsReads, Demoting, HugeFrom, WellFormed, AllInBlocks, Lookup,
      BreakFrom, Ahead;
    MiddleGoes(st.areas, areas, i, x, l);
    BreakMiddleKeeps(areas, i, x, l);
    AreaLooks(areas, i);
    var out := BreakMiddle(areas, i, x, l);
    hide BreakGoes, BreakMiddle;
    ProgressOn(st, areas, out, s, s', x, l, areas[i].flags, x, l);
  }

  lemma MiddleGoes(orig: seq<Area>, areas: seq<Area>, i: nat, x: nat, l: nat)
    requires BreakGoes(orig, areas, i, x, l) && i < |areas|
    requires x % HUGE_PAGE_SIZE == 0 && l % HUGE_PAGE_SIZE == 0
    requires areas[i].kind == HugePage && areas[i].start < x && l < areas[i].end
    ensures var out := BreakMiddle(areas, i, x, l);
            && i + 1 <= |out| && BreakGoes(orig, out, i + 1, x, l) && Ahead(out, i + 1, l, x)
  {
    hide WellFormed, Lookup, BreakFrom;
    var out := BreakMiddle(areas, i, x, l);
    BreakMiddleKeeps(areas, i, x, l);
    AfterMiddle(areas, i, x, l);
    assert out[i + 1] == Area(x, l, areas[i].flags, Normal) && out[i + 2] == areas[i].(start := l);
    assert AllInBlocks(out) by {
      assert areas[i] in areas;
    }
    LaterAreas(areas, i, out, i + 3, l, x);
    assert Ahead(out, i + 1, l, x);
    MiddleUnfolds(areas, i, x, l);
    hide BreakMiddle, AllInBlocks, Ahead;
  }

  lemma SkipAdvances(st: State, areas: seq<Area>, i: nat, s: Space, c: nat, x: nat, l: nat)
    requires BreakProgress(st, areas, i, s, x, l) && i < |areas| && Ahead(areas, i, c, x)
    requires areas[i].kind == Normal || !((areas[i].start >= x && areas[i].end <= l) || (areas[i].start >= x
      && areas[i].start < l)
                                          || (x >= areas[i].start && l < areas[i].end))
    ensures BreakProgress(st, areas, i + 1, s, x, l) && Ahead(areas, i + 1, c, x)
  {
    hide Sound, Map, WellFormed, RangeSmall, KeepsReads, Demoting, HugeFrom, AllInBlocks, Lookup;
  }

  // ---- whether it fits or not ----

  /** What the round hands to `copy_hpp` is whole blocks, and there are frames for it. */
  ghost predicate Affords(s: Space, ar: Area, x: nat, l: nat) {
    var (lo, hi) := Part(ar, x, l);
    && lo % HUGE_PAGE_SIZE == 0 && hi % HUGE_PAGE_SIZE == 0 && hi <= TOP
    && |s.freeTables| >= 3 * Blocks(lo, hi) && |s.freePages| >= SLOTS * Blocks(lo, hi)
    && (AllBig(s, lo, hi) || s.freeHuges != {})
  }

  /** The round has demoted it. */
  ghost predicate Demotes(s: Space, s': Space, ar: Area, x: nat, l: nat) {
    var (lo, hi) := Part(ar, x, l);
    && Sound(s') && KeepsReads(s, s') && RangeDemoted(s, s', lo, hi, ar.flags) && (lo >= hi ==> s' == s)
    && |s'.freeTables| + 3 * Blocks(lo, hi) >= |s.freeTables|
    && |s'.freePages| + SLOTS * Blocks(lo, hi) >= |s.freePages|
    && s.freeHuges <= s'.freeHuges
  }

  lemma NoPart(s: Space, ar: Area, x: nat, l: nat)
    requires Sound(s)
    ensures Part(ar, x, l) == (0, 0) ==> Demotes(s, s, ar, x, l)
  {
    hide Sound, Map;
  }

  /** Frames for `rounds` rounds of `n` blocks each. */
  ghost predicate Stocked(s: Space, rounds: nat, n: nat) {
    |s.freeTables| >= rounds * (3 * n) && |s.freePages| >= rounds * (SLOTS * n) && s.freeHuges != {}
  }

  /** Frames for the blocks from `c` to `l`. */
  ghost predicate Supplied(s: Space, c: nat, l: nat) {
    |s.freeTables| >= 3 * Blocks(c, l) && |s.freePages| >= SLOTS * Blocks(c, l)
  }

  /** Where the loop of `vm_area_break_hugepage` stands.  When the request fits, there are
      frames for the blocks from `c` on, and no huge area before that is still to visit. */
  ghost predicate Breaking(st: State, areas: seq<Area>, i: nat, s: Space, c: nat, x: nat, l: nat) {
    && Inv(st) && x < l <= TOP && x % HUGE_PAGE_SIZE == 0 && l % HUGE_PAGE_SIZE == 0
    && i <= |areas| && AllInBlocks(areas) && BreakFrom(areas, i, x, l) == Break(st.areas, x, l)
    && Sound(s) && KeepsReads(st.space, s) && Handing(st, areas[i..], s, x, l)
    && if BreakFits(st.areas, x, l)
       then BreakProgress(st, areas, i, s, x, l) && Ahead(areas, i, c, x) && x <= c && c % HUGE_PAGE_SIZE == 0
            && Supplied(s, c, l)
       else Stocked(s, Acts(areas[i..], x, l), Blocks(x, l))
  }

  /** Of the pages that the loop hands over, each is lowered, or is as before and still in `rest`. */
  ghost predicate Handing(st: State, rest: seq<Area>, s: Space, x: nat, l: nat) {
    && (forall a: nat :: HandedOver(rest, x, l, a) ==> HandedOver(st.areas, x, l, a))
    && forall v: nat :: v < PAGES ==>
         PageHanding(Map(st.space, v), Map(s, v), HandedOver(st.areas, x, l, v * PAGE_SIZE),
                     HandedOver(rest, x, l, v * PAGE_SIZE))
  }

  predicate PageHanding(m: Mapping, m': Mapping, handed: bool, left: bool) {
    if handed then Lowered(m, m') || (left && m' == m) else m' == m
  }

  lemma HandingStarts(st: State, x: nat, l: nat)
    ensures Handing(st, st.areas[0..], st.space, x, l)
  {
    assert st.areas[0..] == st.areas;
    hide Map, HandedOver;
  }

  lemma HandingOn(st: State, areas: seq<Area>, i: nat, s: Space, s': Space, x: nat, l: nat)
    requires i < |areas| && x < l && Handing(st, areas[i..], s, x, l) && Demotes(s, s', areas[i], x, l)
    ensures var (out, j) := BreakRoundOf(areas, i, x, l);
            j <= |out| && Handing(st, out[j..], s', x, l)
  {
    var (out, j) := BreakRoundOf(areas, i, x, l);
    RoundShrinks(areas, i, x, l);
    hide Map, HandedOver, BreakRoundOf, Acts, Demotes, PageHanding, PageDemoted, InPart;
    forall a: nat | HandedOver(out[j..], x, l, a)
      ensures HandedOver(st.areas, x, l, a)
    {
      RoundHands(areas, i, x, l, a);
    }
    forall v: nat | v < PAGES
      ensures PageHanding(Map(st.space, v), Map(s', v), HandedOver(st.areas, x, l, v * PAGE_SIZE),
                          HandedOver(out[j..], x, l, v * PAGE_SIZE))
    {
      RoundHands(areas, i, x, l, v * PAGE_SIZE);
      DemotedAt(s, s', areas[i], x, l, v);
      PageOn(Map(st.space, v), Map(s, v), Map(s', v), HandedOver(st.areas, x, l, v * PAGE_SIZE),
             HandedOver(areas[i..], x, l, v * PAGE_SIZE), HandedOver(out[j..], x, l, v * PAGE_SIZE),
             InPart(areas[i], x, l, v * PAGE_SIZE), areas[i].flags);
    }
  }

  lemma DemotedAt(s: Space, s': Space, ar: Area, x: nat, l: nat, v: nat)
    requires Demotes(s, s', ar, x, l) && v < PAGES
    ensures if InPart(ar, x, l, v * PAGE_SIZE) then PageDemoted(Map(s, v), Map(s', v), ar.flags)
            else Map(s', v) == Map(s, v)
  {
    hide Map, Sound, KeepsReads, Part, PageDemoted, Blocks;
  }

  lemma PageOn(m: Mapping, m1: Mapping, m2: Mapping, handed: bool, left: bool, left': bool, now: bool, prot: nat)
    requires PageHanding(m, m1, handed, left) && (left ==> handed) && (left <==> now || left')
    requires if now then PageDemoted(m1, m2, prot) else m2 == m1
    ensures PageHanding(m, m2, handed, left')
  {
    hide AcFlags;
  }

  lemma HandingEnds(st: State, areas: seq<Area>, s: Space, x: nat, l: nat)
    requires Handing(st, areas[|areas|..], s, x, l)
    ensures HandedDown(st.areas, st.space, s, x, l)
  {
    hide Map, Lowered;
    assert forall a: nat :: !HandedOver(areas[|areas|..], x, l, a);
  }

  lemma BreakStarts(st: State, x: nat, l: nat)
    requires Inv(st) && x < l <= TOP && x % HUGE_PAGE_SIZE == 0 && l % HUGE_PAGE_SIZE == 0
    requires if BreakFits(st.areas, x, l) then Supplied(st.space, x, l)
             else Stocked(st.space, Acts(st.areas, x, l), Blocks(x, l))
    ensures Breaking(st, st.areas, 0, st.space, x, x, l)
  {
    HandingStarts(st, x, l);
    hide Map, Read, Sound, WellFormed, BreakFits, Acts, Handing;
    assert st.areas[0..] == st.areas;
    if BreakFits(st.areas, x, l) {
      WholePages(x);
      WholePages(l);
      FitsReady(st.areas, x, l);
    }
  }

  lemma PartBlocks(ar: Area, x: nat, l: nat)
    requires InBlocks(ar) && x % HUGE_PAGE_SIZE == 0 && l % HUGE_PAGE_SIZE == 0
    ensures var (lo, hi) := Part(ar, x, l);
            && lo % HUGE_PAGE_SIZE == 0 && hi % HUGE_PAGE_SIZE == 0 && hi <= l && (lo < hi ==> x <= lo)
            && (lo < hi ==> ar.kind == HugePage)
  {}

  lemma AllBlocks(addr: nat, length: nat)
    requires !BreakRefused(addr, length)
    ensures Blocks(addr, addr + length) == length / HUGE_PAGE_SIZE && (addr + length) % HUGE_PAGE_SIZE == 0
  {}

  lemma BlocksInside(x: nat, lo: nat, hi: nat, l: nat)
    requires x <= lo && hi <= l
    ensures Blocks(lo, hi) <= Blocks(x, l)
  {}

  lemma {:induction false} RoundsLeft(rounds: nat, left: nat, n: nat)
    requires left < rounds
    ensures rounds * n >= left * n + n
  {
    if left + 1 < rounds {
      RoundsLeft(rounds - 1, left, n);
      assert rounds * n == (rounds - 1) * n + n;
    } else {
      assert rounds * n == left * n + n;
    }
  }

  lemma FitPart(st: State, areas: seq<Area>, i: nat, s: Space, c: nat, x: nat, l: nat)
    requires Breaking(st, areas, i, s, c, x, l) && BreakFits(st.areas, x, l) && i < |areas|
    ensures var (lo, hi) := Part(areas[i], x, l);
            lo < hi ==> c <= lo && areas[i].start <= lo && hi <= areas[i].end && AllBig(s, lo, hi)
  {
    BreakFacts(st, areas, i, s, c, x, l);
    if areas[i].kind == HugePage {
      HugeIsBig(st, areas, i, s, x, l);
    }
    hide Sound, Map, WellFormed, Lookup, BreakFrom, AllInBlocks;
  }

  lemma RoundAffords(st: State, areas: seq<Area>, i: nat, s: Space, c: nat, x: nat, l: nat)
    requires Breaking(st, areas, i, s, c, x, l) && i < |areas|
    ensures Affords(s, areas[i], x, l) && Sound(s) && x < l
  {
    assert areas[i] in areas;
    PartBlocks(areas[i], x, l);
    var (lo, hi) := Part(areas[i], x, l);
    if lo < hi {
      BlocksInside(x, lo, hi, l);
      if BreakFits(st.areas, x, l) {
        FitPart(st, areas, i, s, c, x, l);
        BlocksInside(c, lo, hi, l);
      } else {
        RoundShrinks(areas, i, x, l);
        RoundsLeft(Acts(areas[i..], x, l), 0, 3 * Blocks(x, l));
        RoundsLeft(Acts(areas[i..], x, l), 0, SLOTS * Blocks(x, l));
      }
    }
    hide Part, Sound, Inv, BreakProgress, KeepsReads, BreakFrom, BreakFits, Acts, BreakRoundOf, Map;
  }

  function PartEnd(ar: Area, c: nat, x: nat, l: nat): nat {
    var (lo, hi) := Part(ar, x, l);
    if lo < hi then hi else c
  }

  lemma RoundKeeps(st: State, areas: seq<Area>, i: nat, s: Space, s': Space, c: nat, x: nat, l: nat)
    requires Breaking(st, areas, i, s, c, x, l) && i < |areas| && Demotes(s, s', areas[i], x, l)
    ensures var (out, j) := BreakRoundOf(areas, i, x, l);
            Breaking(st, out, j, s', PartEnd(areas[i], c, x, l), x, l)
  {
    var (out, j) := BreakRoundOf(areas, i, x, l);
    RoundInBlocks(areas, i, x, l);
    RoundShrinks(areas, i, x, l);
    ReadsThrough(st.space, s, s');
    HandingOn(st, areas, i, s, s', x, l);
    assert BreakFrom(areas, i, x, l) == BreakFrom(out, j, x, l);
    if BreakFits(st.areas, x, l) {
      FitKeeps(st, areas, i, s, s', c, x, l);
    } else {
      StockKeeps(areas, i, s, s', x, l);
    }
    hide Sound, Inv, Map, Read, KeepsReads, RangeDemoted, BreakProgress, BreakRoundOf, BreakFrom, Acts, Part, Handing;
  }

  lemma ReadsThrough(s: Space, s1: Space, s2: Space)
    requires KeepsReads(s, s1) && KeepsReads(s1, s2)
    ensures KeepsReads(s, s2)
  {
    hide Read;
  }

  lemma StockKeeps(areas: seq<Area>, i: nat, s: Space, s': Space, x: nat, l: nat)
    requires i < |areas| && AllInBlocks(areas) && x % HUGE_PAGE_SIZE == 0 && l % HUGE_PAGE_SIZE == 0 && x < l
    requires Stocked(s, Acts(areas[i..], x, l), Blocks(x, l)) && Demotes(s, s', areas[i], x, l)
    ensures var (out, j) := BreakRoundOf(areas, i, x, l);
            j <= |out| && Stocked(s', Acts(out[j..], x, l), Blocks(x, l))
  {
    RoundShrinks(areas, i, x, l);
    var (out, j) := BreakRoundOf(areas, i, x, l);
    var (lo, hi) := Part(areas[i], x, l);
    var r, r', n := Acts(areas[i..], x, l), Acts(out[j..], x, l), Blocks(x, l);
    assert areas[i] in areas;
    PartBlocks(areas[i], x, l);
    BlocksInside(if lo < hi then x else lo, lo, hi, if lo < hi then l else hi);
    if r' < r {
      RoundsLeft(r, r', 3 * n);
      RoundsLeft(r, r', SLOTS * n);
    }
    hide Part, Sound, KeepsReads, RangeDemoted, BreakRoundOf, Acts;
  }

  lemma FitKeeps(st: State, areas: seq<Area>, i: nat, s: Space, s': Space, c: nat, x: nat, l: nat)
    requires Breaking(st, areas, i, s, c, x, l) && BreakFits(st.areas, x, l) && i < |areas|
    requires Demotes(s, s', areas[i], x, l)
    ensures var (out, j) := BreakRoundOf(areas, i, x, l);
            var c' := PartEnd(areas[i], c, x, l);
            BreakProgress(st, out, j, s', x, l) && Ahead(out, j, c', x) && x <= c' && c' % HUGE_PAGE_SIZE == 0
            && Supplied(s', c', l)
  {
    hide Sound, Map, Inv, WellFormed, RangeSmall, RangeDemoted, KeepsReads, BreakProgress, Ahead, BreakFrom, Break,
      BreakFits, BreakRoundOf, InBlocks, Part, AllBig;
    var ar := areas[i];
    var (lo, hi) := Part(ar, x, l);
    assert ar in areas;
    PartBlocks(ar, x, l);
    FitPart(st, areas, i, s, c, x, l);
    if lo < hi {
      DemotedAllBig(s, s', lo, hi, ar.flags);
      SupplyEnough(c, lo, hi, l);
    }
    FitAdvances(st, areas, i, s, s', c, x, l);
  }

  lemma FitAdvances(st: State, areas: seq<Area>, i: nat, s: Space, s': Space, c: nat, x: nat, l: nat)
    requires BreakProgress(st, areas, i, s, x, l) && Ahead(areas, i, c, x) && x <= c && i < |areas|
    requires x % HUGE_PAGE_SIZE == 0 && l % HUGE_PAGE_SIZE == 0
    requires var (lo, hi) := Part(areas[i], x, l);
             if lo < hi then RangeSmall(s, s', lo, hi) && KeepsReads(s, s') else s' == s
    ensures var (out, j) := BreakRoundOf(areas, i, x, l);
            BreakProgress(st, out, j, s', x, l) && Ahead(out, j, PartEnd(areas[i], c, x, l), x)
  {
    var cur := areas[i];
    BreakFacts(st, areas, i, s, c, x, l);
    hide Sound, Map, WellFormed, RangeSmall, KeepsReads, BreakProgress, Ahead, BreakWhole, BreakHead, BreakMiddle,
      BreakTail, Where, AllInBlocks;
    if cur.kind == HugePage && cur.start >= x && cur.end <= l {
      WholeWhere(areas, 0);
      WholeAdvances(st, areas, 0, s, s', x, l);
    } else if cur.kind == HugePage && cur.start >= x && cur.start < l {
      HeadWhere(areas, i, l);
      HeadAdvances(st, areas, i, s, s', x, l);
    } else if cur.kind == HugePage && x >= cur.start && l < cur.end {
      MiddleAdvances(st, areas, i, s, s', x, l);
    } else {
      SkipAdvances(st, areas, i, s, c, x, l);
    }
  }

  lemma BreakEnds(st: State, areas: seq<Area>, s: Space, c: nat, x: nat, l: nat)
    requires Breaking(st, areas, |areas|, s, c, x, l) && !BreakRefused(x, l - x)
    ensures Step(st, BreakCall(x, l - x), State(areas, s))
  {
    HandingEnds(st, areas, s, x, l);
    hide Inv, KeepsReads, HandedDown, Handing, BreakProgress, BreakFits, Sound;
  }

  lemma Unchanged(st: State, addr: nat, length: nat)
    requires Inv(st) && BreakRefused(addr, length)
    ensures Step(st, BreakCall(addr, length), st)
  {}

  lemma InvSound(st: State)
    requires Inv(st)
    ensures Sound(st.space) && WellFormed(st.areas)
  {}

  lemma NoneEmpty(areas: seq<Area>)
    requires WellFormed(areas)
    ensures forall ar :: ar in areas ==> ar.start < ar.end
  {
    SaneAreas(areas);
  }

  // ---- the loop of unmap ----

  /** The round unmapped exactly the pages it freed, and only those of a normal area. */
  ghost predicate FreedPart(ar: Area, s: Space, s': Space, addr: nat, x: nat) {
    && s'.data == s.data
    && var (lo, hi) := UnmapFreed(ar, addr, x);
       if ar.kind == Normal then OnlyRange(s, s', lo, hi) else SameMap(s, s')
  }

  lemma RoundIs(areas: seq<Area>, i: nat, addr: nat, length: nat)
    requires i < |areas|
    ensures var (passed, next) := UnmapVisit(areas[i], addr, RoundUp(length, UnitOf(areas[i].kind)));
            UnmapRoundOf(areas, i, addr, length) == (Spliced(areas, i, passed, next), i + |passed|)
  {}

  lemma FreedIs(ar: Area, s: Space, s': Space, addr: nat, x: nat)
    requires s'.data == s.data && (ar.kind == HugePage ==> s' == s)
    requires var (lo, hi) := UnmapFreed(ar, addr, x);
             ar.kind == Normal ==> OnlyRange(s, s', lo, hi)
    ensures FreedPart(ar, s, s', addr, x)
  {
    hide Map;
  }

  lemma FreedClear(ar: Area, s: Space, addr: nat, length: nat)
    requires Sane(ar) && addr % PAGE_SIZE == 0 && length > 0
    requires ar.kind == Normal ==> forall v: nat :: v < PAGES && Contains(ar, v * PAGE_SIZE) ==> !Map(s, v).Big?
    ensures var (lo, hi) := UnmapFreed(ar, addr, RoundUp(length, UnitOf(ar.kind)));
            && lo % PAGE_SIZE == 0 && hi % PAGE_SIZE == 0 && hi <= PAGES * PAGE_SIZE
            && (ar.kind == Normal ==> forall v: nat :: lo <= v * PAGE_SIZE < hi ==> !Map(s, v).Big?)
  {
    FreedInside(ar, addr, length);
    hide Map, UnmapFreed, RoundUp, Contains, Sane;
  }

  lemma FreedInside(ar: Area, addr: nat, length: nat)
    requires Sane(ar) && addr % PAGE_SIZE == 0 && length > 0
    ensures var (lo, hi) := UnmapFreed(ar, addr, RoundUp(length, UnitOf(ar.kind)));
            && lo % PAGE_SIZE == 0 && hi % PAGE_SIZE == 0 && hi <= TOP
            && (forall a: nat :: lo <= a < hi <==> Contains(ar, a) && Removed(ar.kind, a, addr, length))
  {
    RoundedUp(length, ar.kind);
    hide RoundUp, UnitOf, Removed;
    forall a: nat
      ensures Removed(ar.kind, a, addr, length) <==> addr <= a < addr + RoundUp(length, UnitOf(ar.kind))
    {
      RemovedIs(ar.kind, a, addr, length);
    }
  }

  /** The areas still to visit say what the original list said of their addresses; the
      normal pages to be removed are gone, except those still to visit. */
  ghost predicate UnmapProgress(st: State, rest: seq<Area>, s: Space, addr: nat, length: nat) {
    && WellFormed(rest) && s.data == st.space.data
    && (forall a: nat :: Lookup(rest, a).Some? ==> Lookup(st.areas, a) == Lookup(rest, a))
    && (forall v: nat :: v < PAGES ==>
          Map(s, v) == if RemovedNormal(st.areas, v, addr, length) && Lookup(rest, v * PAGE_SIZE).None? then Unmapped
                       else Map(st.space, v))
  }

  function UnmapWeight(ar: Area, addr: nat, length: nat): nat {
    1 + |UnmapVisit(ar, addr, RoundUp(length, UnitOf(ar.kind))).1|
  }

  /** Rounds left: an area that is split leaves a piece to visit. */
  function UnmapToDo(rest: seq<Area>, addr: nat, length: nat): nat {
    if rest == [] then 0 else UnmapWeight(rest[0], addr, length) + UnmapToDo(rest[1..], addr, length)
  }

  lemma UnmapStarts(st: State, addr: nat, length: nat)
    requires Inv(st)
    ensures UnmapRest(st.areas, 0, addr, length) == UnmapAreas(st.areas, addr, length)
    ensures UnmapProgress(st, st.areas[0..], st.space, addr, length)
  {
    assert st.areas[0..] == st.areas && st.areas[..0] == [];
    forall v: nat | v < PAGES && RemovedNormal(st.areas, v, addr, length)
      ensures Lookup(st.areas, v * PAGE_SIZE).Some?
    {}
  }

  lemma UnmapReady(st: State, areas: seq<Area>, i: nat, s: Space, addr: nat, length: nat)
    requires Inv(st) && i < |areas| && UnmapProgress(st, areas[i..], s, addr, length)
    ensures Sane(areas[i])
    ensures areas[i].kind == Normal ==>
              forall v: nat :: v < PAGES && Contains(areas[i], v * PAGE_SIZE) ==> !Map(s, v).Big?
  {
    hide Sound, Map, AllInBlocks;
    assert areas[i..][0] == areas[i];
    forall v: nat | v < PAGES && Contains(areas[i], v * PAGE_SIZE) && areas[i].kind == Normal
      ensures !Map(s, v).Big?
    {
      assert Lookup(areas[i..], v * PAGE_SIZE) == Some(AttrOf(areas[i]));
      assert KindAt(st.areas, v) == Some(Normal);
    }
  }

  lemma UnmapAdvances(st: State, areas: seq<Area>, i: nat, s: Space, s': Space, addr: nat, length: nat)
    requires i < |areas| && UnmapProgress(st, areas[i..], s, addr, length)
    requires addr % PAGE_SIZE == 0 && length > 0
    requires FreedPart(areas[i], s, s', addr, RoundUp(length, UnitOf(areas[i].kind)))
    ensures var (out, k) := UnmapRoundOf(areas, i, addr, length);
            && k <= |out| && UnmapProgress(st, out[k..], s', addr, length)
            && UnmapToDo(out[k..], addr, length) < UnmapToDo(areas[i..], addr, length)
  {
    hide Sound, Map, WellFormed, UnmapVisit, UnmapFreed, UnmapToDo, RoundUp, Find;
    var cur, rest := areas[i], areas[i + 1..];
    var (passed, next) := UnmapVisit(cur, addr, RoundUp(length, UnitOf(cur.kind)));
    var out := areas[..i] + passed + next + rest;
    assert out[i + |passed|..] == next + rest;
    assert areas[i..] == [cur] + rest;
    NextPiece(cur, rest, addr, length);
    PieceAdvances(st, cur, rest, next, s, s', addr, length);
  }

  lemma PieceAdvances(st: State, cur: Area, rest: seq<Area>, next: seq<Area>, s: Space, s': Space, addr: nat,
      length: nat)
    requires UnmapProgress(st, [cur] + rest, s, addr, length) && Sane(cur)
    requires addr % PAGE_SIZE == 0 && length > 0
    requires FreedPart(cur, s, s', addr, RoundUp(length, UnitOf(cur.kind)))
    requires WellFormed(next + rest)
    requires forall a: nat :: Lookup(next, a).Some? ==>
               Contains(cur, a) && Lookup(next, a) == Some(AttrOf(cur)) && !Removed(cur.kind, a, addr, length)
    ensures UnmapProgress(st, next + rest, s', addr, length)
  {
    FreedInside(cur, addr, length);
    hide Sound, Map, UnmapFreed, RoundUp;
    forall a: nat
      ensures Lookup(next + rest, a) == if Contains(cur, a) then Lookup(next, a) else Lookup(rest, a)
      ensures Contains(cur, a) ==> Lookup([cur] + rest, a) == Some(AttrOf(cur))
      ensures !Contains(cur, a) ==> Lookup([cur] + rest, a) == Lookup(rest, a)
    {
      PieceLookup(cur, rest, next, a);
    }
    hide WellFormed, Lookup;
  }

  lemma PieceLookup(cur: Area, rest: seq<Area>, next: seq<Area>, a: nat)
    requires WellFormed([cur] + rest)
    requires Lookup(next, a).Some? ==> Contains(cur, a)
    ensures Lookup(next + rest, a) == if Contains(cur, a) then Lookup(next, a) else Lookup(rest, a)
    ensures Contains(cur, a) ==> Lookup([cur] + rest, a) == Some(AttrOf(cur))
    ensures !Contains(cur, a) ==> Lookup([cur] + rest, a) == Lookup(rest, a)
  {
    assert ([cur] + rest)[1..] == rest;
    Tail([cur] + rest);
    hide WellFormed;
    FindAppend(next, rest, a);
    FindIn(rest, a);
  }

  /** The piece left to visit is the part of the area behind the removed range. */
  lemma NextPiece(cur: Area, rest: seq<Area>, addr: nat, length: nat)
    requires WellFormed([cur] + rest) && addr % PAGE_SIZE == 0 && length > 0
    ensures var (passed, next) := UnmapVisit(cur, addr, RoundUp(length, UnitOf(cur.kind)));
            && Sane(cur) && WellFormed(next + rest)
            && (forall a: nat :: Lookup(next, a).Some? ==>
                  Contains(cur, a) && Lookup(next, a) == Some(AttrOf(cur)) && !Removed(cur.kind, a, addr, length))
            && UnmapToDo(next + rest, addr, length) < UnmapToDo([cur] + rest, addr, length)
  {
    HeadSane(cur, rest);
    NextIs(cur, addr, length);
    var (passed, next) := UnmapVisit(cur, addr, RoundUp(length, UnitOf(cur.kind)));
    assert ([cur] + rest)[1..] == rest && ([cur] + rest)[0] == cur;
    hide RoundUp, UnmapVisit;
    if next == [] {
      assert next + rest == rest;
      Tail([cur] + rest);
    } else {
      assert (next + rest)[1..] == rest && (next + rest)[0] == next[0];
      SplitWellFormed(cur, next[0], rest);
      assert next + rest == [next[0]] + rest;
    }
  }

  lemma NextIs(cur: Area, addr: nat, length: nat)
    requires Sane(cur) && addr % PAGE_SIZE == 0 && length > 0
    ensures var (passed, next) := UnmapVisit(cur, addr, RoundUp(length, UnitOf(cur.kind)));
            && |next| <= 1
            && (next != [] ==> Sane(next[0]) && AttrOf(next[0]) == AttrOf(cur) && next[0].end == cur.end
                               && UnmapWeight(next[0], addr, length) < UnmapWeight(cur, addr, length))
            && (forall a: nat :: Lookup(next, a).Some? ==>
                  Contains(cur, a) && Lookup(next, a) == Some(AttrOf(cur)) && !Removed(cur.kind, a, addr, length))
  {
    RoundedUp(length, cur.kind);
    hide RoundUp, UnitOf, Removed, Find;
    var x := RoundUp(length, UnitOf(cur.kind));
    var (passed, next) := UnmapVisit(cur, addr, x);
    forall a: nat | Lookup(next, a).Some?
      ensures Contains(cur, a) && Lookup(next, a) == Some(AttrOf(cur)) && !Removed(cur.kind, a, addr, length)
    {
      FindIn(next, a);
      RemovedIs(cur.kind, a, addr, length);
    }
  }

  lemma HeadSane(cur: Area, rest: seq<Area>)
    requires WellFormed([cur] + rest)
    ensures Sane(cur) && (rest != [] ==> cur.end <= rest[0].start && !Joins(cur, rest[0]))
  {
    assert ([cur] + rest)[0] == cur && (rest != [] ==> ([cur] + rest)[1] == rest[0]);
  }

  lemma SplitWellFormed(cur: Area, piece: Area, rest: seq<Area>)
    requires WellFormed([cur] + rest) && Sane(piece) && AttrOf(piece) == AttrOf(cur) && piece.end == cur.end
    ensures WellFormed([piece] + rest)
  {
    assert ([cur] + rest)[1..] == rest;
    Tail([cur] + rest);
    HeadSane(cur, rest);
    Cons(piece, rest);
  }

  lemma UnmapEnds(st: State, areas: seq<Area>, s: Space, addr: nat, length: nat)
    requires UnmapProgress(st, areas[|areas|..], s, addr, length)
    requires UnmapRest(areas, |areas|, addr, length) == UnmapAreas(st.areas, addr, length)
    ensures areas == UnmapAreas(st.areas, addr, length)
    ensures RangeCleared(st.areas, st.space, s, addr, length)
  {
    assert areas[|areas|..] == [] && areas[..|areas|] == areas;
  }

  /** A page in an area of one kind is not mapped the other way. */
  lemma FaultKind(st: State, addr: nat)
    requires Inv(st) && addr < TOP && Lookup(st.areas, addr).Some?
    ensures Map(st.space, PageOf(addr)).Big? <==> Lookup(st.areas, addr).value.kind == HugePage
  {
    PageInOneArea(st.areas, addr);
    assert KindAt(st.areas, PageOf(addr)) == Some(Lookup(st.areas, addr).value.kind);
  }
}
