/** The linked list of areas, edited in place. */
module AreaList {
  import opened Words
  import opened Areas
  import opened AreaOps
  import opened HugeOps
  import opened BreakOps
  import opened BreakLoss

  class VmArea {
    var vmStart: nat
    var vmEnd: nat
    var accessFlags: nat
    var mappingType: Kind
    var vmNext: VmArea?

    constructor (start: nat, end: nat, flags: nat, kind: Kind)
      ensures View() == Area(start, end, flags, kind) && vmNext == null
    {
      vmStart, vmEnd, accessFlags, mappingType, vmNext := start, end, flags, kind, null;
    }

    function View(): Area
      reads this
    {
      Area(vmStart, vmEnd, accessFlags, mappingType)
    }

    lemma ViewIs()
      ensures View() == Area(vmStart, vmEnd, accessFlags, mappingType)
    {}
  }

  ghost predicate JoinsLeft(areas: seq<Area>, node: Area) { exists ar :: ar in areas && Joins(ar, node) }

  /** What first fit returns: the start of the new range, unless the range merged into the
      area before it; then the end of the area that holds it.  With an area below the dummy's
      end the range lies right behind the dummy, which never merges. */
  ghost function ReturnedEnd(areas: seq<Area>, out: seq<Area>, node: Area): nat {
    if AboveDummy(areas) && JoinsLeft(areas, node)
    then match Find(out, node.start) case Some(whole) => whole.end case None => 0
    else node.start
  }

  function FirstFitNode(areas: seq<Area>, size: nat, prot: nat): Area {
    var start := FirstFit(DUMMY_END, areas, size);
    Area(start, start + size, prot, Normal)
  }

  lemma FirstFitNodeIs(areas: seq<Area>, size: nat, prot: nat)
    ensures var start := FirstFit(DUMMY_END, areas, size);
            FirstFitNode(areas, size, prot) == Area(start, start + size, prot, Normal)
  {}

  /** Behind the `k`-th node there is room. */
  lemma FitsAt(areas: seq<Area>, k: nat, start: nat, size: nat)
    requires WellFormed(areas) && AboveDummy(areas) && size > 0 && k <= |areas|
    requires start == if k == 0 then DUMMY_END else areas[k - 1].end
    requires k < |areas| ==> Gap(areas[k].start, start) >= size
    ensures forall j :: 0 <= j < k ==> areas[j].start < start + size && areas[j].end <= start
    ensures forall j :: k <= j < |areas| ==> areas[j].start >= start + size
  {
    if k < |areas| {
      assert areas[k] in areas && Sane(areas[k]);
    }
  }

  /** Of the areas up to the `k`-th, only that one ends where it ends. */
  lemma OnlyEnd(areas: seq<Area>, k: nat, ar: Area)
    requires WellFormed(areas) && k < |areas| && ar in areas && ar.end == areas[k].end
    ensures ar == areas[k]
  {
    var j :| 0 <= j < |areas| && areas[j] == ar;
    assert Sane(areas[j]) && Sane(areas[k]);
  }

  lemma LeftIsPrevious(areas: seq<Area>, k: nat, node: Area, ar: Area)
    requires WellFormed(areas) && AboveDummy(areas) && k <= |areas| && ar in areas && Joins(ar, node)
    requires node.start == if k == 0 then DUMMY_END else areas[k - 1].end
    ensures k > 0 && ar == areas[k - 1]
  {
    assert Sane(ar);
    if k > 0 {
      OnlyEnd(areas, k - 1, ar);
    }
  }

  /** A node that joins the area before it is found in the `k - 1`-st area afterwards. */
  lemma FindMerged(areas: seq<Area>, k: nat, node: Area)
    requires node.start < node.end && 0 < k <= |areas| && Joins(areas[k - 1], node)
    requires areas[k - 1].start < areas[k - 1].end
    requires forall j :: 0 <= j < k ==> areas[j].start < node.end && areas[j].end <= node.start
    requires k < |areas| ==> areas[k].start >= node.end && areas[k].end > node.end
    ensures k <= |Insert(areas, node)| && Find(Insert(areas, node), node.start) == Some(Insert(areas, node)[k - 1])
  {
    InsertSkips(areas, k - 1, node);
    InsertUnfolds(areas[k - 1..], node);
    var front, back := areas[..k - 1], Insert(areas[k - 1..], node);
    assert k < |areas| ==> areas[k - 1..][1..][0] == areas[k];
    assert back != [] && Contains(back[0], node.start);
    hide Insert;
    FindAppend(front, back, node.start);
    FindIn(front, node.start);
  }

  /** A node that does not join the area before it leaves that area as it is. */
  lemma StaysPut(areas: seq<Area>, k: nat, node: Area)
    requires node.start < node.end && 0 < k <= |areas| && !Joins(areas[k - 1], node)
    requires forall j :: 0 <= j < k ==> areas[j].start < node.end
    requires k < |areas| ==> areas[k].start >= node.end
    ensures k <= |Insert(areas, node)| && Insert(areas, node)[k - 1] == areas[k - 1]
  {
    InsertSkips(areas, k - 1, node);
    InsertUnfolds(areas[k - 1..], node);
    assert k < |areas| ==> areas[k - 1..][1..][0] == areas[k];
  }

  lemma MergedEnd(areas: seq<Area>, k: nat, node: Area)
    requires WellFormed(areas) && node.start < node.end && k <= |areas|
    requires if AboveDummy(areas)
             then (forall j :: 0 <= j < k ==> areas[j].start < node.end && areas[j].end <= node.start)
                  && (forall j :: k <= j < |areas| ==> areas[j].start >= node.end)
             else k == 0
    requires node.start == if k == 0 then DUMMY_END else areas[k - 1].end
    ensures var out := Insert(areas, node);
            k <= |out| &&
            ReturnedEnd(areas, out, node) == if k == 0 then DUMMY_END else out[k - 1].end
  {
    if !AboveDummy(areas) {
      // The dummy stays as it is.
    } else if JoinsLeft(areas, node) {
      var ar :| ar in areas && Joins(ar, node);
      LeftIsPrevious(areas, k, node, ar);
      assert Sane(areas[k - 1]) && (k < |areas| ==> Sane(areas[k]));
      hide WellFormed, Insert;
      FindMerged(areas, k, node);
    } else if k > 0 {
      assert areas[k - 1] in areas;
      hide WellFormed, Insert;
      StaysPut(areas, k, node);
    }
  }

  lemma ReturnsEnd(areas: seq<Area>, k: nat, size: nat, prot: nat)
    requires WellFormed(areas) && 0 < size <= MAX_LENGTH && k <= |areas|
    requires k > 0 ==> Gap(areas[0].start, DUMMY_END) < size
    requires FirstFit(DUMMY_END, areas, size) == if k == 0 then DUMMY_END else areas[k - 1].end
    requires k < |areas| ==> Gap(areas[k].start, FirstFit(DUMMY_END, areas, size)) >= size
    ensures var node := FirstFitNode(areas, size, prot);
            var out := Insert(areas, node);
            && k <= Place(areas, node) && k <= |out|
            && ReturnedEnd(areas, out, node) == if k == 0 then DUMMY_END else out[k - 1].end
  {
    PlaceStops(areas, FirstFitNode(areas, size, prot));
    hide WellFormed, Gap, ReturnedEnd, AboveDummy, Insert, FirstFit, Place;
    if AboveDummy(areas) {
      FitsAt(areas, k, FirstFit(DUMMY_END, areas, size), size);
    } else {
      FirstFitBelow(areas, size);
    }
    MergedEnd(areas, k, FirstFitNode(areas, size, prot));
  }

  lemma {:induction false} PlaceStops(areas: seq<Area>, v: Area)
    ensures Place(areas, v) < |areas| ==> areas[Place(areas, v)].start >= v.end
  {
    if |areas| > 1 && areas[0].start < v.end && areas[1].start < v.end {
      PlaceStops(areas[1..], v);
    }
  }

  /** First fit stops behind some node, before room. */
  lemma {:induction false} FitIndex(prevEnd: nat, areas: seq<Area>, size: nat) returns (k: nat)
    ensures k <= |areas| && (k > 0 ==> Gap(areas[0].start, prevEnd) < size)
    ensures FirstFit(prevEnd, areas, size) == if k == 0 then prevEnd else areas[k - 1].end
    ensures k < |areas| ==> Gap(areas[k].start, FirstFit(prevEnd, areas, size)) >= size
    decreases areas
  {
    hide Gap;
    k := 0;
    if areas != [] && Gap(areas[0].start, prevEnd) < size {
      k := FitIndex(areas[0].end, areas[1..], size);
      assert k < |areas[1..]| ==> areas[1..][k] == areas[k + 1];
      k := k + 1;
    }
  }

  /** The end of the area that a node merges into, on its left. */
  lemma MergedLeft(areas: seq<Area>, k: nat, node: Area)
    requires node.start < node.end && 0 < k <= |areas| && Joins(areas[k - 1], node)
    requires forall j :: 0 <= j < k ==> areas[j].start < node.end
    requires k < |areas| ==> areas[k].start >= node.end
    ensures k <= |Insert(areas, node)|
    ensures Insert(areas, node)[k - 1].end ==
            if k < |areas| && Joins(node, areas[k]) then areas[k].end else node.end
  {
    InsertSkips(areas, k - 1, node);
    InsertUnfolds(areas[k - 1..], node);
    assert k < |areas| ==> areas[k - 1..][1..][0] == areas[k];
  }

  ghost predicate JoinsRight(areas: seq<Area>, node: Area) { exists ar :: ar in areas && Joins(node, ar) }

  /** What first fit returns is the start of the new range if and only if the range does not
      merge into the area on its left, or an area lies below the dummy's end; the end of the
      new range if and only if it merges there and not with the area on its right as well;
      and otherwise it is beyond that end. */
  lemma FirstFitReturn(areas: seq<Area>, size: nat, prot: nat)
    requires WellFormed(areas) && size > 0
    ensures var node := FirstFitNode(areas, size, prot);
            var r := ReturnedEnd(areas, Insert(areas, node), node);
            && (r == node.start <==> !AboveDummy(areas) || !JoinsLeft(areas, node))
            && (r == node.end <==> AboveDummy(areas) && JoinsLeft(areas, node) && !JoinsRight(areas, node))
            && (r > node.end <==> AboveDummy(areas) && JoinsLeft(areas, node) && JoinsRight(areas, node))
  {
    var k := FitIndex(DUMMY_END, areas, size);
    var node := FirstFitNode(areas, size, prot);
    if !AboveDummy(areas) {
      return;
    }
    FitsAt(areas, k, node.start, size);
    MergedEnd(areas, k, node);
    if JoinsLeft(areas, node) {
      var ar :| ar in areas && Joins(ar, node);
      LeftIsPrevious(areas, k, node, ar);
      MergedLeft(areas, k, node);
      RightIsNext(areas, k, node);
    }
  }

  lemma RightIsNext(areas: seq<Area>, k: nat, node: Area)
    requires WellFormed(areas) && k <= |areas| && node.start < node.end
    requires forall j :: 0 <= j < k ==> areas[j].end <= node.start
    requires forall j :: k <= j < |areas| ==> areas[j].start >= node.end
    ensures JoinsRight(areas, node) <==> k < |areas| && Joins(node, areas[k])
    ensures k < |areas| ==> areas[k].end > node.end
  {
    assert k < |areas| ==> Sane(areas[k]);
    if JoinsRight(areas, node) {
      var ar :| ar in areas && Joins(node, ar);
      var j :| 0 <= j < |areas| && areas[j] == ar;
      assert Sane(areas[j]);
    }
  }

  /** What first fit returns, said of the addresses alone: the start of the new range, unless the
      address before it already had the same attributes; then the end of the run that has them. */
  ghost predicate FirstFitReturns(was: seq<Area>, out: seq<Area>, start: nat, prot: nat, ret: int) {
    if AboveDummy(was) && start > 0 && Lookup(was, start - 1) == Some(Attr(prot, Normal)) then
      && start < ret && Lookup(out, ret) != Some(Attr(prot, Normal))
      && forall a: nat :: start <= a < ret ==> Lookup(out, a) == Some(Attr(prot, Normal))
    else ret == start
  }

  lemma FirstFitAnswers(areas: seq<Area>, size: nat, prot: nat)
    requires WellFormed(areas) && size > 0
    ensures var node := FirstFitNode(areas, size, prot);
            var out := Insert(areas, node);
            FirstFitReturns(areas, out, node.start, prot, ReturnedEnd(areas, out, node))
  {
    hide WellFormed, Insert, FirstFit, FirstFitNode, Lookup, Gap, AboveDummy, Find, JoinsLeft;
    var node := FirstFitNode(areas, size, prot);
    if AboveDummy(areas) {
      var k := FitIndex(DUMMY_END, areas, size);
      SaneAreas(areas);
      assert k > 0 ==> Sane(areas[k - 1]);
      FirstFitNodeIs(areas, size, prot);
      FitsAt(areas, k, node.start, size);
      LeftAttr(areas, k, node);
      MergedEnd(areas, k, node);
      if JoinsLeft(areas, node) {
        LeftMerges(areas, k, node);
        RunOf(areas, k, node);
      }
    }
  }

  lemma LeftMerges(areas: seq<Area>, k: nat, node: Area)
    requires WellFormed(areas) && AboveDummy(areas) && k <= |areas| && JoinsLeft(areas, node)
    requires node.start < node.end && node.start == if k == 0 then DUMMY_END else areas[k - 1].end
    requires forall j :: 0 <= j < k ==> areas[j].start < node.end
    requires k < |areas| ==> areas[k].start >= node.end
    ensures 0 < k <= |Insert(areas, node)|
    ensures Insert(areas, node)[k - 1].end ==
            if k < |areas| && Joins(node, areas[k]) then areas[k].end else node.end
  {
    var ar :| ar in areas && Joins(ar, node);
    LeftIsPrevious(areas, k, node, ar);
    hide WellFormed, Insert;
    MergedLeft(areas, k, node);
  }

  lemma LeftAttr(areas: seq<Area>, k: nat, node: Area)
    requires WellFormed(areas) && k <= |areas| && 0 < node.start < node.end
    requires forall j :: 0 <= j < k ==> areas[j].end <= node.start
    requires forall j :: k <= j < |areas| ==> areas[j].start >= node.end
    ensures JoinsLeft(areas, node) <==> Lookup(areas, node.start - 1) == Some(AttrOf(node))
  {
    SaneAreas(areas);
    FindIn(areas, node.start - 1);
    if JoinsLeft(areas, node) {
      var ar :| ar in areas && Joins(ar, node);
      FindOnly(areas, ar, node.start - 1);
    } else if Lookup(areas, node.start - 1).Some? {
      var ar := Find(areas, node.start - 1).value;
      var j :| 0 <= j < |areas| && areas[j] == ar;
      assert ar.end == node.start;
    }
    hide WellFormed, Lookup;
  }

  /** The run of the node's attributes from its start on. */
  lemma RunOf(areas: seq<Area>, k: nat, node: Area)
    requires WellFormed(areas) && k <= |areas| && node.start < node.end
    requires forall j :: 0 <= j < k ==> areas[j].end <= node.start
    requires forall j :: k <= j < |areas| ==> areas[j].start >= node.end
    ensures var end := if k < |areas| && Joins(node, areas[k]) then areas[k].end else node.end;
            && node.end <= end && Lookup(Insert(areas, node), end) != Some(AttrOf(node))
            && forall a: nat :: node.start <= a < end ==> Lookup(Insert(areas, node), a) == Some(AttrOf(node))
  {
    var end := if k < |areas| && Joins(node, areas[k]) then areas[k].end else node.end;
    SaneAreas(areas);
    InsertFinds(areas, node, end);
    RunStops(areas, k, node, end);
    forall a: nat | node.start <= a < end
      ensures Lookup(Insert(areas, node), a) == Some(AttrOf(node))
    {
      InsertFinds(areas, node, a);
      if a < node.end {
        FindIn(areas, a);
      } else {
        FindOnly(areas, areas[k], a);
      }
    }
  }

  lemma RunStops(areas: seq<Area>, k: nat, node: Area, end: nat)
    requires WellFormed(areas) && k <= |areas| && node.start < node.end
    requires forall j :: 0 <= j < k ==> areas[j].end <= node.start
    requires forall j :: k <= j < |areas| ==> areas[j].start >= node.end
    requires end == if k < |areas| && Joins(node, areas[k]) then areas[k].end else node.end
    ensures node.end <= end && Lookup(areas, end) != Some(AttrOf(node))
  {
    FindIn(areas, end);
    if Lookup(areas, end).Some? {
      var ar := Find(areas, end).value;
      var j :| 0 <= j < |areas| && areas[j] == ar;
      assert Sane(areas[k]) && (k + 1 < |areas| ==> Sane(areas[k + 1]));
      assert j == if Joins(node, areas[k]) then k + 1 else k;
    }
  }

  /** What a request makes of the list and what it returns. */
  ghost predicate MapAnswers(was: seq<Area>, out: seq<Area>, addr: nat, length: int, prot: nat, flags: int, ret: int) {
    && ((forall size: nat, start: nat :: !Taken(was, addr, length, flags, size, start)) ==> out == was && ret == -1)
    && (forall size: nat, start: nat :: Taken(was, addr, length, flags, size, start) ==>
          && out == Insert(was, Area(start, start + size, prot, Normal))
          && (WellFormed(was) ==> Added(was, out, start, size, prot))
          && if flags == MAP_FIXED || addr != 0 then ret == start else FirstFitReturns(was, out, start, prot, ret))
  }

  /** For a fixed request, `size` bytes in whole pages: it is refused if and only if its address is 0 or
      not page-aligned or some area holds its first byte or its last; otherwise it returns its address,
      and if no area lies strictly inside, exactly its range is then mapped as asked. */
  lemma FixedAnswers(was: seq<Area>, out: seq<Area>, addr: nat, length: int, prot: nat, size: nat, ret: int)
    requires MapAnswers(was, out, addr, length, prot, MAP_FIXED, ret) && WellFormed(was)
    requires length > 0 && size % PAGE_SIZE == 0 && length <= size < length + PAGE_SIZE
    ensures ret == -1 <==>
            addr == 0 || addr % PAGE_SIZE != 0 ||
            exists ar :: ar in was && (ar.start <= addr < ar.end || ar.start <= addr + size - 1 < ar.end)
    ensures ret == -1 ==> out == was
    ensures ret != -1 ==> ret == addr
    ensures ret != -1 && (forall ar :: ar in was ==> !(addr < ar.start && ar.end < addr + size)) ==>
              forall a: nat :: Lookup(out, a) ==
                if addr <= a < addr + size then Some(Attr(prot, Normal)) else Lookup(was, a)
  {
    SaneAreas(was);
    RoundUpIs(length, PAGE_SIZE);
    hide WellFormed, Find, Insert, RoundUp;
    FindIn(was, addr);
    FindIn(was, addr + size - 1);
    if FixedRefused(was, addr, size) {
      OneSize(length, size);
    } else {
      assert Taken(was, addr, length, MAP_FIXED, size, addr);
      forall a: nat | addr <= a < addr + size
        ensures (forall ar :: ar in was ==> !(addr < ar.start && ar.end < addr + size)) ==> Lookup(was, a).None?
      {
        FindIn(was, a);
      }
    }
  }

  lemma OneSize(length: nat, size: nat)
    requires Rounded(length, PAGE_SIZE, size)
    ensures forall s: nat :: Rounded(length, PAGE_SIZE, s) ==> s == size
  {
    RoundUpIs(length, PAGE_SIZE);
    hide RoundUp, Rounded;
  }

  lemma NothingMapped(was: seq<Area>, addr: nat, length: int, prot: nat, flags: int)
    requires length <= 0
    ensures MapAnswers(was, was, addr, length, prot, flags, -1)
  {}

  lemma MapAnswered(was: seq<Area>, addr: nat, length: int, prot: nat, flags: int, ret: int)
    requires 0 < length <= MAX_LENGTH && (flags == MAP_FIXED || addr != 0 || WellFormed(was))
    requires var size := RoundUp(length, PAGE_SIZE);
             match Placed(was, addr, size, flags)
             case None => ret == -1
             case Some(start) =>
               if flags == MAP_FIXED || addr != 0 then ret == start
               else var node := FirstFitNode(was, size, prot);
                    ret == ReturnedEnd(was, Insert(was, node), node)
    ensures MapAnswers(was, MapAreas(was, addr, length, prot, flags), addr, length, prot, flags, ret)
  {
    hide WellFormed, Insert, FirstFit, Lookup, RoundUp, Taken, Clear, FirstFitReturns, Added, ReturnedEnd;
    var size := RoundUp(length, PAGE_SIZE);
    RoundUpIs(length, PAGE_SIZE);
    assert size > 0;
    forall s: nat, start: nat
      ensures Taken(was, addr, length, flags, s, start) <==>
              s == size && Placed(was, addr, size, flags) == Some(start)
    {
      TakenIs(was, addr, length, flags, s, start);
    }
    if Placed(was, addr, size, flags).Some? {
      var start := Placed(was, addr, size, flags).value;
      assert Taken(was, addr, length, flags, size, start);
      if WellFormed(was) {
        RangeAdded(was, start, size, prot);
        FirstFitAnswers(was, size, prot);
      }
    }
  }

  /** The `k`-th node stays in the list when `v` is inserted: it is not merged away. */
  predicate Stays(areas: seq<Area>, v: Area, k: nat)
    requires k < |areas|
  {
    k == 0 || k != Place(areas, v) || !Joins(v, areas[k])
  }

  /** The nodes, dummy first, after insertion of `node`, which says `v`, behind `p` areas. */
  ghost function NodesWith<T>(areas: seq<Area>, v: Area, node: T, was: seq<T>, p: nat): seq<T>
    requires |was| == |areas| + 1 && p <= |areas|
  {
    if p == 0 then if areas != [] && Joins(v, areas[0]) then was else [was[0], node] + was[1..]
    else was[..p + 1] + (if Joins(areas[p - 1], v) then [] else [node])
         + if p < |areas| && Joins(v, areas[p]) then was[p + 2..] else was[p + 1..]
  }

  /** The nodes that are not merged away are where their areas are. */
  ghost predicate Kept<T>(areas: seq<Area>, v: Area, was: seq<T>, now: seq<T>) {
    && |was| == |areas| + 1
    && forall k :: 0 <= k < |areas| && Stays(areas, v, k) ==>
         Where(areas, v, k) + 1 < |now| && now[Where(areas, v, k) + 1] == was[k + 1]
  }

  lemma KeptAt<T>(areas: seq<Area>, v: Area, was: seq<T>, now: seq<T>, k: nat)
    requires Kept(areas, v, was, now) && k < |areas| && Stays(areas, v, k)
    ensures Where(areas, v, k) + 1 < |now| && now[Where(areas, v, k) + 1] == was[k + 1]
  {}

  /** Where the nodes are after insertion. */
  lemma NodesStay<T>(areas: seq<Area>, v: Area, node: T, was: seq<T>, now: seq<T>)
    requires |was| == |areas| + 1 && |now| == |Insert(areas, v)| + 1
    requires now == NodesWith(areas, v, node, was, Place(areas, v))
    ensures Kept(areas, v, was, now)
  {
    hide Where, NodesWith, Place, Insert, Joins, Stays;
    var p := Place(areas, v);
    forall k | 0 <= k < |areas| && Stays(areas, v, k)
      ensures Where(areas, v, k) + 1 < |now| && now[Where(areas, v, k) + 1] == was[k + 1]
    {
      WhereIs(areas, v, k);
      StaysIs(areas, v, k);
      if p > k {
        StaysBefore(areas, v, node, was, p, k);
      } else {
        StaysBehind(areas, v, node, was, p, k);
      }
    }
  }

  lemma WhereIs(areas: seq<Area>, v: Area, k: nat)
    ensures Where(areas, v, k) == if Place(areas, v) > k then k else k + |Insert(areas, v)| - |areas|
  {}

  lemma StaysIs(areas: seq<Area>, v: Area, k: nat)
    requires k < |areas|
    ensures Stays(areas, v, k) <==> k == 0 || k != Place(areas, v) || !Joins(v, areas[k])
  {}

  lemma StaysBefore<T>(areas: seq<Area>, v: Area, node: T, was: seq<T>, p: nat, k: nat)
    requires |was| == |areas| + 1 && k < p <= |areas|
    ensures k + 1 < |NodesWith(areas, v, node, was, p)| && NodesWith(areas, v, node, was, p)[k + 1] == was[k + 1]
  {
    hide Joins;
  }

  lemma StaysBehind<T>(areas: seq<Area>, v: Area, node: T, was: seq<T>, p: nat, k: nat)
    requires |was| == |areas| + 1 && p <= k < |areas| && (k == 0 || k != p || !Joins(v, areas[k]))
    ensures var now := NodesWith(areas, v, node, was, p);
            var w := k + |now| - |was|;
            0 <= w && w + 1 < |now| && now[w + 1] == was[k + 1]
  {
    hide Joins;
    if p > 0 {
      var now := NodesWith(areas, v, node, was, p);
      var gone := if p < |areas| && Joins(v, areas[p]) then p + 2 else p + 1;
      var front := was[..p + 1] + if Joins(areas[p - 1], v) then [] else [node];
      assert now == front + was[gone..] && k + 1 >= gone;
    }
  }

  /** No element occurs twice, and all are in `all`. */
  ghost predicate OnceIn<T>(s: seq<T>, all: set<T>) {
    (forall i, j :: 0 <= i < j < |s| ==> s[i] != s[j]) && forall i :: 0 <= i < |s| ==> s[i] in all
  }

  lemma LinkedOnce<T>(s: seq<T>, all: set<T>, k: nat, x: T)
    requires OnceIn(s, all) && k <= |s| && x !in all
    ensures OnceIn(PlusAt(s, k, x), all + {x})
  {}

  lemma UnlinkedOnce<T>(s: seq<T>, all: set<T>, k: nat)
    requires OnceIn(s, all) && k < |s|
    ensures OnceIn(MinusAt(s, k), all)
  {}

  lemma CutOnce<T>(s: seq<T>, all: set<T>, k: nat)
    requires OnceIn(s, all) && 0 < k <= |s|
    ensures OnceIn(BehindFirst(s, k), all)
    ensures forall i :: 0 < i < |BehindFirst(s, k)| ==> BehindFirst(s, k)[i] == s[k + i - 1]
  {}

  lemma OnceAt<T>(s: seq<T>, all: set<T>, k: nat)
    requires OnceIn(s, all) && k < |s|
    ensures forall i :: 0 <= i < |s| ==> s[i] in all && (i != k ==> s[i] != s[k])
  {}

  ghost predicate FrontKept<T>(was: seq<T>, now: seq<T>, at: nat) {
    at <= |was| && at <= |now| && now[..at] == was[..at]
  }

  lemma FrontAt<T>(was: seq<T>, now: seq<T>, at: nat, k: nat)
    requires FrontKept(was, now, at) && k < at
    ensures k < |was| && k < |now| && now[k] == was[k]
  {
    assert now[..at][k] == was[..at][k];
  }

  /** The list after insertion of `v` behind `p` areas. */
  function InsertedAt(areas: seq<Area>, p: nat, v: Area): seq<Area>
    requires p <= |areas|
  {
    if p == 0 then PushFront(v, areas) else areas[..p - 1] + PutBehind(areas[p - 1], v, areas[p..])
  }

  /** Insertion goes behind the areas that start before the node ends. */
  lemma InsertSplits(areas: seq<Area>, p: nat, v: Area)
    requires p <= |areas| && forall k :: 0 <= k < p ==> areas[k].start < v.end
    requires p < |areas| ==> areas[p].start >= v.end
    ensures Place(areas, v) == p && Insert(areas, v) == InsertedAt(areas, p, v)
  {
    hide Insert, PushFront, PutBehind;
    PlaceAt(areas, p, v);
    if p == 0 {
      InsertUnfolds(areas, v);
    } else {
      InsertSkips(areas, p - 1, v);
      InsertUnfolds(areas[p - 1..], v);
    }
  }

  lemma FrontStays<T>(areas: seq<Area>, v: Area, node: T, was: seq<T>, p: nat)
    requires |was| == |areas| + 1 && p <= |areas|
    ensures FrontKept(was, NodesWith(areas, v, node, was, p), p + 1)
  {
    hide Joins;
  }

  // ---- the edits that make it, on values ----

  /** An area extended over the one behind it. */
  function Absorbed(areas: seq<Area>, k: nat): seq<Area>
    requires k + 1 < |areas|
  {
    MinusAt(areas[k := areas[k].(end := areas[k + 1].end)], k + 1)
  }

  /** An area merged with the one behind it, if they join. */
  function Joined(areas: seq<Area>, k: nat): seq<Area>
    requires k < |areas|
  {
    if k + 1 < |areas| && Joins(areas[k], areas[k + 1]) then Absorbed(areas, k) else areas
  }

  ghost function JoinedNodes<T>(areas: seq<Area>, k: nat, nodes: seq<T>): seq<T>
    requires k < |areas| && |nodes| == |areas| + 1
  {
    if k + 1 < |areas| && Joins(areas[k], areas[k + 1]) then MinusAt(nodes, k + 2) else nodes
  }

  lemma AbsorbedIs(areas: seq<Area>, k: nat)
    requires k + 1 < |areas|
    ensures Absorbed(areas, k) == MinusAt(areas[k := areas[k].(end := areas[k + 1].end)], k + 1)
  {}

  lemma AbsorbedSize(areas: seq<Area>, k: nat)
    ensures k + 1 < |areas| ==> |Absorbed(areas, k)| == |areas| - 1
  {}

  lemma JoinedIs<T>(areas: seq<Area>, k: nat, nodes: seq<T>)
    requires k < |areas| && |nodes| == |areas| + 1
    ensures if k + 1 < |areas| && Joins(areas[k], areas[k + 1])
            then Joined(areas, k) == Absorbed(areas, k) && JoinedNodes(areas, k, nodes) == MinusAt(nodes, k + 2)
            else Joined(areas, k) == areas && JoinedNodes(areas, k, nodes) == nodes
  {}

  /** A node put right behind the dummy, and merged with the next one if they join. */
  lemma FirstPut<T>(areas: seq<Area>, v: Area, node: T, nodes: seq<T>)
    requires |nodes| == |areas| + 1
    ensures var la, lc := PlusAt(areas, 0, v), PlusAt(nodes, 1, node);
            && |la| == |areas| + 1 && |lc| == |nodes| + 1 && lc[1] == node && la[0] == v
            && (areas != [] ==> la[1] == areas[0])
            && if areas != [] && Joins(v, areas[0])
               then MinusAt(la[1 := la[1].(start := v.start)], 0) == InsertedAt(areas, 0, v)
                    && MinusAt(lc, 1) == NodesWith(areas, v, node, nodes, 0)
               else la == InsertedAt(areas, 0, v) && lc == NodesWith(areas, v, node, nodes, 0)
  {}

  lemma BehindPut<T>(areas: seq<Area>, v: Area, node: T, nodes: seq<T>, h: nat)
    requires |nodes| == |areas| + 1 && h < |areas|
    ensures var la, lc := PlusAt(areas, h + 1, v), PlusAt(nodes, h + 2, node);
            && |la| == |areas| + 1 && |lc| == |nodes| + 1 && la[h] == areas[h] && la[h + 1] == v
            && lc[h + 1] == nodes[h + 1] && lc[h + 2] == node
  {}

  /** A node put behind the `h`-th area, and merged with its neighbours if they join. */
  lemma BehindMerged(areas: seq<Area>, v: Area, h: nat)
    requires h < |areas|
    ensures var la := PlusAt(areas, h + 1, v);
            InsertedAt(areas, h + 1, v) ==
            if Joins(areas[h], v) then Joined(Absorbed(la, h), h) else Joined(la, h + 1)
  {
    var la, rest := PlusAt(areas, h + 1, v), areas[h + 1..];
    PlusIs(areas, h + 1, v);
    if Joins(areas[h], v) {
      var one := Absorbed(la, h);
      assert one == areas[..h] + [areas[h].(end := v.end)] + rest;
      JoinedPushes(areas[..h], areas[h].(end := v.end), rest);
    } else {
      assert la == areas[..h + 1] + [v] + rest;
      JoinedPushes(areas[..h + 1], v, rest);
      assert areas[..h + 1] == areas[..h] + [areas[h]];
      hide PushFront, Merged;
      Assoc(areas[..h], [areas[h]], PushFront(v, rest));
    }
  }

  lemma JoinedPushes(pre: seq<Area>, v: Area, rest: seq<Area>)
    ensures Joined(pre + [v] + rest, |pre|) == pre + PushFront(v, rest)
  {
    var all := pre + [v] + rest;
    assert |all| == |pre| + 1 + |rest| && all[|pre|] == v && (rest != [] ==> all[|pre| + 1] == rest[0]);
    hide Joins;
    if rest != [] && Joins(v, rest[0]) {
      PushedOver(pre, v, v.(end := rest[0].end), rest);
    } else {
      Assoc(pre, [v], rest);
    }
  }

  lemma PushedOver(pre: seq<Area>, v: Area, w: Area, rest: seq<Area>)
    requires rest != []
    ensures MinusAt((pre + [v] + rest)[|pre| := w], |pre| + 1) == pre + ([w] + rest[1..])
  {
    assert (pre + [v] + rest)[|pre| := w] == pre + [w] + rest;
  }

  lemma PlusMinus<T>(s: seq<T>, k: nat, x: T)
    requires k <= |s|
    ensures |PlusAt(s, k, x)| == |s| + 1 && PlusAt(s, k, x) == s[..k] + [x] + s[k..]
    ensures MinusAt(PlusAt(s, k, x), k) == s
    ensures k < |s| ==> MinusAt(PlusAt(s, k, x), k + 1) == s[..k] + [x] + s[k + 1..]
  {}

  lemma AbsorbedPut(areas: seq<Area>, v: Area, h: nat)
    requires h < |areas|
    ensures var la := PlusAt(areas, h + 1, v);
            && |la| == |areas| + 1 && |Absorbed(la, h)| == |areas| && Absorbed(la, h)[h] == areas[h].(end := v.end)
            && la[h] == areas[h] && la[h + 1] == v
            && (h + 1 < |areas| ==> Absorbed(la, h)[h + 1] == areas[h + 1] == la[h + 2])
  {
    PlusIs(areas, h + 1, v);
  }

  lemma NodesMerged<T>(areas: seq<Area>, v: Area, node: T, nodes: seq<T>, h: nat)
    requires |nodes| == |areas| + 1 && h < |areas|
    ensures var la, lc := PlusAt(areas, h + 1, v), PlusAt(nodes, h + 2, node);
            |la| == |areas| + 1 && |lc| == |nodes| + 1 && la[h] == areas[h] && la[h + 1] == v &&
            NodesWith(areas, v, node, nodes, h + 1) ==
            if Joins(areas[h], v) then JoinedNodes(Absorbed(la, h), h, MinusAt(lc, h + 2))
            else JoinedNodes(la, h + 1, lc)
  {
    hide *;
    var la, lc := PlusAt(areas, h + 1, v), PlusAt(nodes, h + 2, node);
    AbsorbedPut(areas, v, h);
    PlusMinus(nodes, h + 2, node);
    NodesWithIs(areas, v, node, nodes, h);
    JoinedIs(la, h + 1, lc);
    if Joins(areas[h], v) {
      JoinedIs(Absorbed(la, h), h, MinusAt(lc, h + 2));
      NodesMinus(nodes, h + 2);
      if h + 1 < |areas| {
        JoinsOn(areas[h], v, areas[h + 1]);
      }
    }
  }

  lemma JoinsOn(ar: Area, v: Area, next: Area)
    requires Joins(ar, v)
    ensures Joins(ar.(end := v.end), next) <==> Joins(v, next)
  {}

  lemma NodesMinus<T>(nodes: seq<T>, k: nat)
    ensures k <= |nodes| ==> nodes == nodes[..k] + nodes[k..]
    ensures k < |nodes| ==> MinusAt(nodes, k) == nodes[..k] + nodes[k + 1..]
  {}

  lemma NodesWithIs<T>(areas: seq<Area>, v: Area, node: T, nodes: seq<T>, h: nat)
    requires |nodes| == |areas| + 1 && h < |areas|
    ensures var p := h + 1;
            NodesWith(areas, v, node, nodes, p) ==
            nodes[..h + 2] + (if Joins(areas[h], v) then [] else [node])
            + if p < |areas| && Joins(v, areas[p]) then nodes[h + 3..] else nodes[h + 2..]
  {
    hide Joins;
  }

  /** The first element, and those from `k` on. */
  ghost function BehindFirst<T>(s: seq<T>, k: nat): (now: seq<T>)
    requires 0 < k <= |s|
    ensures |now| == 1 + |s| - k && now[0] == s[0] && (k < |s| ==> now[1] == s[k])
  {
    [s[0]] + s[k..]
  }

  class VmAreaList {
    /** The dummy node; the areas hang behind it. */
    const dummy: VmArea
    var numVmArea: nat
    /** The nodes in list order, dummy first, and what the others say. */
    ghost var chain: seq<VmArea>
    /** Every node that was ever in the list. */
    ghost var repr: set<VmArea>
    ghost var areas: seq<Area>
    /** How many nodes were cut off from the list without being freed. */
    ghost var lost: nat

    ghost predicate Linked()
      reads this, repr
    {
      && |chain| == |areas| + 1 && chain[0] == dummy
      && OnceIn(chain, repr)
      && dummy.vmEnd == DUMMY_END
      && (forall i {:trigger chain[i].vmNext} :: 0 <= i < |chain| ==>
            chain[i].vmNext == if i + 1 < |chain| then chain[i + 1] else null)
      && (forall i {:trigger chain[i].View()} :: 1 <= i < |chain| ==> chain[i].View() == areas[i - 1])
    }

    /** The node counter counts the dummy too, and the nodes cut off. */
    ghost predicate Valid()
      reads this, repr
    {
      Linked() && numVmArea == |chain| + lost
    }

    /** The walk has passed `i` areas: `prev` is the node before the next one, `cur`. */
    ghost predicate At(i: nat, prev: VmArea, cur: VmArea?)
      reads this, repr
    {
      && Valid() && |chain| == |areas| + 1 && i <= |areas|
      && prev == chain[i] && cur == if i < |areas| then chain[i + 1] else null
    }

    lemma Position(i: nat, prev: VmArea, cur: VmArea?)
      requires At(i, prev, cur)
      ensures Valid() && i <= |areas| && (cur == null <==> i == |areas|)
      ensures cur != null ==> cur in repr && cur.View() == areas[i]
      ensures i == 0 ==> prev == dummy
    {}

    /** What a walk knows of where it stands, and what it takes to stand there. */
    lemma AtIs(i: nat, prev: VmArea, cur: VmArea?)
      requires At(i, prev, cur)
      ensures Valid() && Linked() && numVmArea == |chain| + lost && |chain| == |areas| + 1 && i <= |areas|
      ensures prev == chain[i] && prev in repr && cur == if i < |areas| then chain[i + 1] else null
      ensures cur != null ==> cur in repr && cur.View() == areas[i] && cur != prev
      ensures i > 0 ==> prev.View() == areas[i - 1]
    {
      if i > 0 {
        Nodes(i - 1);
      }
    }

    lemma ValidIs()
      requires Valid()
      ensures Linked() && numVmArea == |chain| + lost && |chain| == |areas| + 1
    {}

    lemma IsAt(i: nat, prev: VmArea, cur: VmArea?)
      requires Linked() && numVmArea == |chain| + lost && |chain| == |areas| + 1 && i <= |areas|
      requires prev == chain[i] && cur == if i < |areas| then chain[i + 1] else null
      ensures At(i, prev, cur)
    {}

    constructor ()
      ensures Valid() && areas == [] && lost == 0 && fresh(repr)
    {
      dummy := new VmArea(MMAP_START, MMAP_START + PAGE_SIZE, 4, Normal);
      numVmArea := 1;
      new;
      chain, areas, repr, lost := [dummy], [], {dummy}, 0;
    }

    method CreateVmArea(start: nat, end: nat, flags: nat, kind: Kind) returns (v: VmArea)
      modifies this`numVmArea
      ensures fresh(v) && v.View() == Area(start, end, flags, kind) && v.vmNext == null
      ensures numVmArea == old(numVmArea) + 1
    {
      v := new VmArea(start, end, flags, kind);
      numVmArea := numVmArea + 1;
    }

    // ---- the pointer assignments of which every list edit is made ----

    /** `node->vm_next = prev->vm_next; prev->vm_next = node;` */
    method LinkAfter(ghost k: nat, prev: VmArea, node: VmArea)
      requires Linked() && k < |chain| && prev == chain[k] && node !in repr
      modifies this`chain, this`areas, this`repr, prev`vmNext, node`vmNext
      ensures Linked() && chain == PlusAt(old(chain), k + 1, node)
      ensures areas == PlusAt(old(areas), k, old(node.View()))
      ensures node.View() == old(node.View()) && repr == old(repr) + {node}
    {
      node.vmNext := prev.vmNext;
      prev.vmNext := node;
      LinkedOnce(chain, repr, k + 1, node);
      OnceAt(chain, repr, k);
      PlusIs(chain, k + 1, node);
      PlusIs(areas, k, node.View());
      hide PlusAt, OnceIn;
      chain := PlusAt(chain, k + 1, node);
      repr := repr + {node};
      areas := PlusAt(areas, k, node.View());
      forall i | 0 <= i < |chain|
        ensures chain[i].vmNext == if i + 1 < |chain| then chain[i + 1] else null
        ensures i > 0 ==> chain[i].View() == areas[i - 1]
      {
        if i <= k {
          assert chain[i] == old(chain[i]) && old(chain[i]).vmNext == (if i == k then node else old(chain[i].vmNext));
          assert i > 0 ==> old(chain[i].View()) == old(areas)[i - 1];
        } else if i > k + 1 {
          assert chain[i] == old(chain[i - 1]) && old(chain[i - 1]).vmNext == old(chain[i - 1].vmNext);
          assert old(chain[i - 1].View()) == old(areas)[i - 2];
        }
      }
    }

    /** `prev->vm_next = cur->vm_next; dealloc_vm_area(cur);` */
    method UnlinkAfter(ghost k: nat, prev: VmArea, cur: VmArea)
      requires Linked() && k + 1 < |chain| && prev == chain[k] && cur == chain[k + 1] && numVmArea > 0
      modifies this`chain, this`areas, this`numVmArea, prev`vmNext
      ensures Linked() && chain == MinusAt(old(chain), k + 1)
      ensures areas == MinusAt(old(areas), k)
      ensures numVmArea == old(numVmArea) - 1
    {
      UnlinkedOnce(chain, repr, k + 1);
      OnceAt(chain, repr, k);
      MinusIs(chain, k + 1);
      MinusIs(areas, k);
      hide MinusAt, OnceIn;
      prev.vmNext := cur.vmNext;
      numVmArea := numVmArea - 1;
      chain := MinusAt(chain, k + 1);
      areas := MinusAt(areas, k);
      forall i | 0 <= i < |chain|
        ensures chain[i].vmNext == if i + 1 < |chain| then chain[i + 1] else null
        ensures i > 0 ==> chain[i].View() == areas[i - 1]
      {
        if i <= k {
          assert chain[i] == old(chain[i]) && (i != k ==> old(chain[i]).vmNext == old(chain[i].vmNext));
          assert i > 0 ==> old(chain[i].View()) == old(areas)[i - 1];
        } else {
          assert chain[i] == old(chain[i + 1]) && old(chain[i + 1]).vmNext == old(chain[i + 1].vmNext);
          assert old(chain[i + 1].View()) == old(areas)[i];
        }
      }
    }

    /** `cur->vm_end = end;` */
    method SetEnd(ghost k: nat, cur: VmArea, end: nat)
      requires Linked() && k < |areas| && cur == chain[k + 1]
      modifies this`areas, cur`vmEnd
      ensures Linked() && areas == old(areas[k := areas[k].(end := end)])
    {
      cur.vmEnd := end;
      areas := areas[k := areas[k].(end := end)];
      forall i | 0 <= i < |chain|
        ensures chain[i].vmNext == if i + 1 < |chain| then chain[i + 1] else null
        ensures i > 0 ==> chain[i].View() == areas[i - 1]
      {
        assert chain[i].vmNext == old(chain[i].vmNext);
        assert i > 0 ==> old(chain[i].View()) == old(areas)[i - 1];
      }
    }

    /** `cur->vm_start = start;` */
    method SetStart(ghost k: nat, cur: VmArea, start: nat)
      requires Linked() && k < |areas| && cur == chain[k + 1]
      modifies this`areas, cur`vmStart
      ensures Linked() && areas == old(areas[k := areas[k].(start := start)])
    {
      cur.vmStart := start;
      areas := areas[k := areas[k].(start := start)];
      forall i | 0 <= i < |chain|
        ensures chain[i].vmNext == if i + 1 < |chain| then chain[i + 1] else null
        ensures i > 0 ==> chain[i].View() == areas[i - 1]
      {
        assert chain[i].vmNext == old(chain[i].vmNext);
        assert i > 0 ==> old(chain[i].View()) == old(areas)[i - 1];
      }
    }

    /** The test that makes two neighbours one area. */
    method CanMerge(p: VmArea, q: VmArea?) returns (b: bool)
      ensures b <==> q != null && Joins(p.View(), q.View())
    {
      b := q != null && p.vmEnd == q.vmStart && p.accessFlags == q.accessFlags && p.mappingType == q.mappingType;
    }

    /** `node->vm_next` */
    method Next(ghost k: nat, node: VmArea) returns (n: VmArea?)
      requires Linked() && k < |chain| && node == chain[k]
      ensures n == if k + 1 < |chain| then chain[k + 1] else null
      ensures n != null ==> k < |areas| && n.View() == areas[k] && n in repr && n != node
      ensures n == null <==> k == |areas|
      ensures node in repr
      ensures k > 0 ==> node.View() == areas[k - 1]
    {
      n := node.vmNext;
      assert k > 0 ==> chain[k].View() == areas[k - 1];
      assert k + 1 < |chain| ==> chain[k + 1].View() == areas[k];
    }

    /** `sorted_Insert`.  The first `at` nodes, those that start before the node ends, stay
        where they are. */
    method SortedInsert(node: VmArea) returns (ghost at: nat)
      requires Linked() && node !in repr && numVmArea == |areas| + 2 + lost
      modifies this`chain, this`areas, this`numVmArea, this`repr, repr, node
      ensures Valid() && areas == Insert(old(areas), old(node.View()))
      ensures repr == old(repr) + {node}
      ensures FrontKept(old(chain), chain, at) && at == Place(old(areas), old(node.View())) + 1
      ensures Kept(old(areas), old(node.View()), old(chain), chain)
    {
      Shape();
      node.ViewIs();
      hide *;
      ghost var was, v, nodes := areas, node.View(), chain;
      var head, h := FindHead(node);
      if head == null {
        InsertSplits(was, 0, v);
        FrontStays(was, v, node, nodes, 0);
        InsertFirst(node);
        at := 1;
      } else {
        InsertSplits(was, h + 1, v);
        FrontStays(was, v, node, nodes, h + 1);
        InsertBehindHead(h, head, node);
        at := h + 2;
      }
      Shape();
      NodesStay(was, v, node, nodes, chain);
    }

    /** The walk to the last node that starts before the new one ends, if there is one. */
    method FindHead(node: VmArea) returns (head: VmArea?, ghost h: nat)
      requires Linked()
      ensures head == null ==> areas == [] || areas[0].start >= node.vmEnd
      ensures head != null ==>
                && |chain| == |areas| + 1 && h < |areas| && head == chain[h + 1] && head in repr
                && (forall k :: 0 <= k <= h ==> areas[k].start < node.vmEnd)
                && (h + 1 < |areas| ==> areas[h + 1].start >= node.vmEnd)
    {
      Shape();
      hide Linked;
      h := 0;
      head := Next(0, dummy);
      if head == null || head.vmStart >= node.vmEnd {
        return null, 0;
      }
      var next := Next(1, head);
      while next != null && next.vmStart < node.vmEnd
        invariant |chain| == |areas| + 1 && h < |areas| && head == chain[h + 1] && head in repr
        invariant next == if h + 2 < |chain| then chain[h + 2] else null
        invariant next != null ==> next.View() == areas[h + 1] && next in repr
        invariant forall k :: 0 <= k <= h ==> areas[k].start < node.vmEnd
        modifies {}
        decreases |areas| - h
      {
        h := h + 1;
        head := next;
        next := Next(h + 1, head);
      }
    }

    lemma Shape()
      requires Linked()
      ensures |chain| == |areas| + 1 && chain[0] == dummy
    {}

    /** The branch for a node that goes right behind the dummy. */
    method InsertFirst(node: VmArea)
      requires Linked() && node !in repr && numVmArea == |areas| + 2 + lost
      modifies this`chain, this`areas, this`numVmArea, this`repr, repr, node
      ensures |old(chain)| == |old(areas)| + 1
      ensures chain == NodesWith(old(areas), old(node.View()), node, old(chain), 0)
      ensures Valid() && areas == InsertedAt(old(areas), 0, old(node.View()))
      ensures repr == old(repr) + {node}
    {
      Shape();
      node.ViewIs();
      hide *;
      FirstPut(areas, node.View(), node, chain);
      LinkAfter(0, dummy, node);
      node.ViewIs();
      Shape();
      var next := Next(1, node);
      var merge := CanMerge(node, next);
      if merge {
        SetStart(1, next, node.vmStart);
        UnlinkAfter(0, dummy, node);
      }
      ItIsValid();
    }

    lemma ItIsValid()
      requires Linked() && numVmArea == |areas| + 1 + lost
      ensures Valid() && |chain| == |areas| + 1
    {}

    /** Extend a node over the one behind it, which goes away. */
    method Absorb(ghost k: nat, cur: VmArea, next: VmArea)
      requires Linked() && k + 1 < |areas| && |chain| == |areas| + 1 && cur == chain[k + 1] && next == chain[k + 2]
      requires numVmArea > 0
      modifies this`chain, this`areas, this`numVmArea, cur
      ensures Linked() && |chain| == |areas| + 1 && numVmArea == old(numVmArea) - 1
      ensures areas == Absorbed(old(areas), k) && chain == MinusAt(old(chain), k + 2)
    {
      NodeAt(k + 1);
      next.ViewIs();
      hide *;
      AbsorbedIs(areas, k);
      SetEnd(k, cur, next.vmEnd);
      UnlinkAfter(k + 1, cur, next);
      Shape();
    }

    lemma NodeAt(i: nat)
      requires Linked() && i < |areas| && |chain| == |areas| + 1
      ensures chain[i + 1].View() == areas[i]
    {}

    /** Merge a node with the one behind it, if they join. */
    method MergeForward(ghost k: nat, cur: VmArea)
      requires Linked() && numVmArea == |areas| + 1 + lost
      requires |chain| == |areas| + 1 && k < |areas| && cur == chain[k + 1]
      modifies this`chain, this`areas, this`numVmArea, cur
      ensures Valid() && areas == Joined(old(areas), k) && chain == JoinedNodes(old(areas), k, old(chain))
    {
      hide *;
      JoinedIs(areas, k, chain);
      AbsorbedSize(areas, k);
      var next := Next(k + 1, cur);
      var merge := CanMerge(cur, next);
      if merge {
        Absorb(k, cur, next);
      }
      ItIsValid();
    }

    /** Merge a node just linked behind `head` into it, and then the node behind that. */
    method MergeBack(ghost h: nat, head: VmArea, cur: VmArea)
      requires Linked() && numVmArea == |areas| + 1 + lost && |chain| == |areas| + 1
      requires h + 1 < |areas| && head == chain[h + 1] && cur == chain[h + 2]
      modifies this`chain, this`areas, this`numVmArea, head
      ensures |old(chain)| == |Absorbed(old(areas), h)| + 2 && h < |Absorbed(old(areas), h)|
      ensures Valid() && areas == Joined(Absorbed(old(areas), h), h)
      ensures chain == JoinedNodes(Absorbed(old(areas), h), h, MinusAt(old(chain), h + 2))
    {
      hide *;
      AbsorbedSize(areas, h);
      MinusIs(chain, h + 2);
      Absorb(h, head, cur);
      MergeForward(h, head);
    }

    /** The branch for a node that goes behind `head`. */
    method InsertBehindHead(ghost h: nat, head: VmArea, node: VmArea)
      requires Linked() && node !in repr && numVmArea == |areas| + 2 + lost
      requires h < |areas| && |chain| == |areas| + 1 && head == chain[h + 1]
      modifies this`chain, this`areas, this`numVmArea, this`repr, head, node
      ensures Valid() && areas == InsertedAt(old(areas), h + 1, old(node.View()))
      ensures chain == NodesWith(old(areas), old(node.View()), node, old(chain), h + 1)
      ensures repr == old(repr) + {node}
    {
      hide *;
      ghost var v := node.View();
      BehindPut(areas, v, node, chain, h);
      BehindMerged(areas, v, h);
      NodesMerged(areas, v, node, chain, h);
      LinkAfter(h + 1, head, node);
      Shape();
      var cur := Next(h + 1, head);
      var merge := CanMerge(head, cur);
      if merge {
        MergeBack(h, head, cur);
      } else {
        MergeForward(h + 1, cur);
      }
    }

    /** The walk of `vm_area_pagefault`. */
    method FindArea(addr: nat) returns (v: VmArea?)
      requires Linked()
      ensures Find(areas, addr) == if v == null then None else Some(v.View())
    {
      Shape();
      hide Linked;
      v := Next(0, dummy);
      ghost var k := 0;
      while v != null && !(v.vmStart <= addr < v.vmEnd)
        invariant k <= |areas| && Find(areas, addr) == Find(areas[k..], addr)
        invariant v == if k < |areas| then chain[k + 1] else null
        invariant v != null ==> v.View() == areas[k]
        modifies {}
        decreases |areas| - k
      {
        k := k + 1;
        v := Next(k, v);
        assert areas[k - 1..][1..] == areas[k..];
      }
    }

    // ---- mmap ----

    /** The test of the fixed and the hinted request against every area. */
    method TestClear(addr: nat, size: nat) returns (clear: bool)
      requires Linked()
      ensures clear <==> Clear(areas, addr, size)
    {
      Shape();
      hide Linked;
      var v := Next(0, dummy);
      ghost var k := 0;
      while v != null
        invariant k <= |areas| && (Clear(areas, addr, size) <==> Clear(areas[k..], addr, size))
        invariant v == if k < |areas| then chain[k + 1] else null
        invariant v != null ==> v.View() == areas[k]
        modifies {}
        decreases |areas| - k
      {
        if v.vmStart <= addr < v.vmEnd || v.vmStart < addr + size <= v.vmEnd {
          return false;
        }
        k := k + 1;
        v := Next(k, v);
        assert areas[k - 1..][1..] == areas[k..];
      }
      return true;
    }

    /** Put a new node into the list. */
    method AddArea(start: nat, end: nat, prot: nat, kind: Kind) returns (ghost at: nat)
      requires Valid()
      modifies this`chain, this`areas, this`numVmArea, this`repr, repr
      ensures Valid() && areas == Insert(old(areas), Area(start, end, prot, kind))
      ensures fresh(repr - old(repr))
      ensures FrontKept(old(chain), chain, at) && at == Place(old(areas), Area(start, end, prot, kind)) + 1
    {
      Shape();
      var v := CreateVmArea(start, end, prot, kind);
      at := SortedInsert(v);
    }

    /** The walk of first fit, to the node before the gap. */
    method FindGap(size: nat) returns (prev: VmArea, ghost k: nat)
      requires Linked()
      ensures |chain| == |areas| + 1 && k <= |areas| && prev == chain[k]
      ensures prev.vmEnd == FirstFit(DUMMY_END, areas, size) == if k == 0 then DUMMY_END else areas[k - 1].end
      ensures k < |areas| ==> Gap(areas[k].start, prev.vmEnd) >= size
      ensures k > 0 ==> Gap(areas[0].start, DUMMY_END) < size
    {
      Shape();
      DummyEnd();
      hide Linked, Gap;
      prev := dummy;
      var cur := Next(0, prev);
      k := 0;
      while cur != null && Gap(cur.vmStart, prev.vmEnd) < size
        invariant k <= |areas| && prev == chain[k]
        invariant FirstFit(DUMMY_END, areas, size) == FirstFit(prev.vmEnd, areas[k..], size)
        invariant k > 0 ==> Gap(areas[0].start, DUMMY_END) < size
        invariant prev.vmEnd == if k == 0 then DUMMY_END else areas[k - 1].end
        invariant cur == if k < |areas| then chain[k + 1] else null
        invariant cur != null ==> cur.View() == areas[k]
        modifies {}
        decreases |areas| - k
      {
        k := k + 1;
        prev := cur;
        cur := Next(k, prev);
        assert areas[k - 1..][1..] == areas[k..];
      }
    }

    /** First fit.  The result is the end of the node before the gap, read after insertion. */
    method AddFirstFit(size: nat, prot: nat) returns (ret: nat)
      requires Valid()
      modifies this`chain, this`areas, this`numVmArea, this`repr, repr
      ensures Valid() && fresh(repr - old(repr))
      ensures areas == Insert(old(areas), FirstFitNode(old(areas), size, prot))
      ensures WellFormed(old(areas)) && 0 < size <= MAX_LENGTH ==>
                ret == ReturnedEnd(old(areas), areas, FirstFitNode(old(areas), size, prot))
    {
      FirstFitNodeIs(areas, size, prot);
      hide Linked, WellFormed, AboveDummy, ReturnedEnd, Insert, Gap, FirstFit, FirstFitNode;
      var prev, k := FindGap(size);
      ghost var was, nodes := areas, chain;
      var start := prev.vmEnd;
      ghost var at := AddArea(start, start + size, prot, Normal);
      ret := prev.vmEnd;
      if WellFormed(was) && 0 < size <= MAX_LENGTH {
        ReturnsEnd(was, k, size, prot);
        FrontAt(nodes, chain, at, k);
        ReadEnd(k);
      }
    }

    lemma DummyEnd()
      requires Linked()
      ensures dummy.vmEnd == DUMMY_END
    {}

    lemma ReadEnd(k: nat)
      requires Linked() && k < |chain|
      ensures chain[k].vmEnd == if k == 0 then DUMMY_END else areas[k - 1].end
    {
      assert k > 0 ==> chain[k].View() == areas[k - 1];
    }

    /** `vm_area_map`.  C leaves sums of `int` beyond 31 bits undefined, hence the bound. */
    method Map(addr: nat, length: int, prot: nat, flags: int) returns (ret: int)
      requires Valid() && length <= MAX_LENGTH
      modifies this`chain, this`areas, this`numVmArea, this`repr, repr
      ensures Valid() && fresh(repr - old(repr))
      ensures length <= 0 ==> ret == -1
      ensures areas == MapAreas(old(areas), addr, length, prot, flags)
      ensures flags == MAP_FIXED || addr != 0 || WellFormed(old(areas)) ==>
                MapAnswers(old(areas), areas, addr, length, prot, flags, ret)
    {
      hide Linked, WellFormed, Insert, FirstFit, Clear, MapAnswers, ReturnedEnd;
      ghost var was := areas;
      if length <= 0 {
        NothingMapped(was, addr, length, prot, flags);
        return -1;
      }
      var size := (length + PAGE_SIZE - 1) / PAGE_SIZE * PAGE_SIZE;
      if flags == MAP_FIXED {
        if addr == 0 || addr % PAGE_SIZE != 0 {
          MapAnswered(was, addr, length, prot, flags, -1);
          return -1;
        }
        var clear := TestClear(addr, size);
        MapAnswered(was, addr, length, prot, flags, if clear then addr else -1);
        if !clear {
          return -1;
        }
        ghost var at := AddArea(addr, addr + size, prot, Normal);
        return addr;
      }
      if addr == 0 {
        ret := AddFirstFit(size, prot);
        if WellFormed(was) {
          MapAnswered(was, addr, length, prot, flags, ret);
        }
      } else {
        var start := (addr + PAGE_SIZE - 1) / PAGE_SIZE * PAGE_SIZE;
        var clear := TestClear(start, size);
        MapAnswered(was, addr, length, prot, flags, if clear then start else DUMMY_END);
        if clear {
          ghost var at := AddArea(start, start + size, prot, Normal);
          ret := start;
        } else {
          // The fallback never advances past the dummy.
          ghost var at := AddArea(DUMMY_END, DUMMY_END + size, prot, Normal);
          ret := DUMMY_END;
        }
      }
    }

    // ---- munmap ----

    /** The list part of one round of the loop of `vm_area_unmap`; `x` is the length rounded
        for this area. */
    method UnmapNode(ghost i: nat, prev: VmArea, cur: VmArea, addr: nat, x: nat) returns (prev': VmArea, cur': VmArea?)
      requires At(i, prev, cur)
      modifies this`chain, this`areas, this`numVmArea, this`repr, repr
      ensures fresh(repr - old(repr))
      ensures var (passed, next) := UnmapVisit(old(areas)[i], addr, x);
              areas == Spliced(old(areas), i, passed, next) && At(i + |passed|, prev', cur')
    {
      AtIs(i, prev, cur);
      cur.ViewIs();
      hide Linked, Valid, At, Spliced, VmArea.View;
      prev' := cur;
      if cur.vmStart >= addr && cur.vmEnd <= addr + x {
        prev' := prev;
        cur' := Drop(i, prev, cur);
      } else if addr > cur.vmStart && addr + x < cur.vmEnd {
        cur' := Split(i, prev, cur, addr, addr + x);
      } else if cur.vmEnd <= addr + x && cur.vmEnd > addr {
        cur' := EndAt(i, prev, cur, addr);
      } else if cur.vmStart >= addr && cur.vmStart < addr + x {
        cur' := StartAt(i, prev, cur, addr + x);
      } else {
        SpliceIs(areas, i, areas[i], areas[i]);
        ghost var k;
        prev', cur', k := Step(i, prev, cur);
      }
    }

    /** Unlink the next node. */
    method Drop(ghost i: nat, prev: VmArea, cur: VmArea) returns (cur': VmArea?)
      requires At(i, prev, cur)
      modifies this`chain, this`areas, this`numVmArea, prev`vmNext
      ensures i < |old(areas)| && areas == Spliced(old(areas), i, [], []) && At(i, prev, cur')
    {
      AtIs(i, prev, cur);
      hide *;
      SpliceIs(areas, i, areas[i], areas[i]);
      UnlinkAfter(i, prev, cur);
      Shape();
      cur' := Next(i, prev);
      IsAt(i, prev, cur');
    }

    method EndAt(ghost i: nat, ghost prev: VmArea, cur: VmArea, end: nat) returns (cur': VmArea?)
      requires At(i, prev, cur)
      modifies this`areas, cur`vmEnd
      ensures i < |old(areas)| && At(i + 1, cur, cur')
      ensures areas == Spliced(old(areas), i, [old(areas)[i].(end := end)], [])
    {
      AtIs(i, prev, cur);
      hide *;
      SpliceIs(areas, i, areas[i].(end := end), areas[i]);
      SetEnd(i, cur, end);
      cur' := Next(i + 1, cur);
      IsAt(i + 1, cur, cur');
    }

    method StartAt(ghost i: nat, ghost prev: VmArea, cur: VmArea, start: nat) returns (cur': VmArea?)
      requires At(i, prev, cur)
      modifies this`areas, cur`vmStart
      ensures i < |old(areas)| && At(i + 1, cur, cur')
      ensures areas == Spliced(old(areas), i, [old(areas)[i].(start := start)], [])
    {
      AtIs(i, prev, cur);
      hide *;
      SpliceIs(areas, i, areas[i].(start := start), areas[i]);
      SetStart(i, cur, start);
      cur' := Next(i + 1, cur);
      IsAt(i + 1, cur, cur');
    }

    /** Cut `cur` at `end`, and put a copy of its part from `start` on behind it. */
    method Split(ghost i: nat, ghost prev: VmArea, cur: VmArea, end: nat, start: nat) returns (cur': VmArea?)
      requires At(i, prev, cur)
      modifies this`chain, this`areas, this`numVmArea, this`repr, cur
      ensures fresh(repr - old(repr)) && i < |old(areas)| && At(i + 1, cur, cur')
      ensures var v := old(areas)[i];
              areas == Spliced(old(areas), i, [v.(end := end)], [v.(start := start)])
    {
      AtIs(i, prev, cur);
      hide *;
      ghost var v := areas[i];
      SpliceIs(areas, i, v.(end := end), v.(start := start));
      CopyAbove(i, prev, cur, start);
      SpliceIs(areas, i, v.(end := end), v);
      AtIs(i, prev, cur);
      cur' := EndAt(i, prev, cur, end);
    }

    // ---- make_hugepage ----

    method ScanGaps(x: nat, end: nat) returns (hit: bool)
      requires Linked()
      ensures hit <==> GapHit(DUMMY_END, areas, x, end)
    {
      Shape();
      DummyEnd();
      hide Linked, Overlap;
      var prev := dummy;
      var cur := Next(0, prev);
      ghost var k := 0;
      while cur != null
        invariant k <= |areas| && prev == chain[k]
        invariant GapHit(DUMMY_END, areas, x, end) <==> GapHit(prev.vmEnd, areas[k..], x, end)
        invariant cur == if k < |areas| then chain[k + 1] else null
        invariant cur != null ==> cur.View() == areas[k]
        modifies {}
        decreases |areas| - k
      {
        if cur.vmStart != prev.vmEnd && Overlap(prev.vmEnd, cur.vmStart, x, end) {
          return true;
        }
        k := k + 1;
        prev := cur;
        cur := Next(k, prev);
        assert areas[k - 1..][1..] == areas[k..];
      }
      return false;
    }

    method ScanHuge(x: nat, end: nat) returns (hit: bool)
      requires Linked()
      ensures hit <==> HugeHit(areas, x, end)
    {
      Shape();
      hide Linked, Overlap;
      var cur := Next(0, dummy);
      ghost var k := 0;
      while cur != null
        invariant k <= |areas| && (HugeHit(areas, x, end) <==> HugeHit(areas[k..], x, end))
        invariant cur == if k < |areas| then chain[k + 1] else null
        invariant cur != null ==> cur.View() == areas[k]
        modifies {}
        decreases |areas| - k
      {
        if cur.mappingType == HugePage && Overlap(cur.vmStart, cur.vmEnd, x, end) {
          return true;
        }
        k := k + 1;
        cur := Next(k, cur);
        assert areas[k - 1..][1..] == areas[k..];
      }
      return false;
    }

    method ScanProt(x: nat, end: nat, prot: nat) returns (hit: bool)
      requires Linked()
      ensures hit <==> ProtHit(areas, x, end, prot)
    {
      Shape();
      hide Linked, Overlap;
      var cur := Next(0, dummy);
      ghost var k := 0;
      while cur != null
        invariant k <= |areas| && (ProtHit(areas, x, end, prot) <==> ProtHit(areas[k..], x, end, prot))
        invariant cur == if k < |areas| then chain[k + 1] else null
        invariant cur != null ==> cur.View() == areas[k]
        modifies {}
        decreases |areas| - k
      {
        if Overlap(cur.vmStart, cur.vmEnd, x, end) && cur.accessFlags != prot {
          return true;
        }
        k := k + 1;
        cur := Next(k, cur);
        assert areas[k - 1..][1..] == areas[k..];
      }
      return false;
    }

    /** The checks of `vm_area_make_hugepage`, in its order. */
    method ScanRequest(addr: nat, length: nat, prot: nat, force: bool) returns (v: Verdict)
      requires Linked()
      ensures v == Scan(areas, addr, length, prot, force)
    {
      hide Linked, GapHit, HugeHit, ProtHit;
      if addr == 0 || length == 0 {
        return EINVAL;
      }
      var hit := ScanGaps(addr, addr + length);
      if hit {
        return ENOMAPPING;
      }
      hit := ScanHuge(addr, addr + length);
      if hit {
        return EVMAOCCUPIED;
      }
      if !force {
        hit := ScanProt(addr, addr + length, prot);
        if hit {
          return EDIFFPROT;
        }
      }
      return Accepted;
    }

    /** One round of the loop that carves out the range of a new huge area. */
    method CarveNode(ghost i: nat, prev: VmArea, cur: VmArea, x: nat, l: nat) returns (prev': VmArea, cur': VmArea?)
      requires At(i, prev, cur)
      modifies this`chain, this`areas, this`numVmArea, this`repr, repr
      ensures fresh(repr - old(repr))
      ensures var (out, k) := CarveStep(old(areas), i, x, l);
              areas == out && At(k, prev', cur')
    {
      AtIs(i, prev, cur);
      cur.ViewIs();
      hide Linked, Valid, At, Spliced, VmArea.View;
      SpliceIs(areas, i, areas[i], areas[i]);
      if cur.vmStart >= x && cur.vmEnd <= l {
        prev' := prev;
        cur' := Drop(i, prev, cur);
      } else if cur.vmEnd > x && cur.vmStart <= x {
        prev', cur' := CarveCovering(i, prev, cur, x, l);
      } else {
        ghost var k;
        prev', cur', k := Step(i, prev, cur);
      }
    }

    /** Put a copy of the part of `cur` from `l` on behind it. */
    method CopyAbove(ghost i: nat, ghost prev: VmArea, cur: VmArea, l: nat)
      requires At(i, prev, cur)
      modifies this`chain, this`areas, this`numVmArea, this`repr, cur
      ensures fresh(repr - old(repr)) && i < |old(areas)| && At(i, prev, cur) && cur.View() == old(cur.View())
      ensures areas == PlusAt(old(areas), i + 1, old(areas)[i].(start := l))
    {
      AtIs(i, prev, cur);
      cur.ViewIs();
      hide *;
      var piece := CreateVmArea(l, cur.vmEnd, cur.accessFlags, cur.mappingType);
      PlusIs(chain, i + 2, piece);
      LinkAfter(i + 1, cur, piece);
      Shape();
      IsAt(i, prev, cur);
    }

    /** The branch of that round for an area that covers `x`. */
    method CarveCovering(ghost i: nat, prev: VmArea, cur: VmArea, x: nat, l: nat) returns (prev': VmArea, cur': VmArea?)
      requires At(i, prev, cur)
      modifies this`chain, this`areas, this`numVmArea, this`repr, repr
      ensures fresh(repr - old(repr))
      ensures var v := old(areas[i]);
              var passed := if v.start != x then [v.(end := x)] else [];
              var next := if v.end > l then [v.(start := l)] else [];
              areas == Spliced(old(areas), i, passed, next) && At(i + |passed|, prev', cur')
    {
      AtIs(i, prev, cur);
      cur.ViewIs();
      hide *;
      ghost var v := areas[i];
      SpliceIs(areas, i, v.(end := x), v.(start := l));
      if cur.vmEnd > l {
        CopyAbove(i, prev, cur, l);
      }
      AtIs(i, prev, cur);
      cur.ViewIs();
      SpliceIs(areas, i, v.(end := x), v);
      if cur.vmStart != x {
        prev' := cur;
        cur' := EndAt(i, prev, cur, x);
      } else {
        prev' := prev;
        cur' := Drop(i, prev, cur);
      }
    }

    lemma Nodes(i: nat)
      requires Linked() && i < |areas|
      ensures chain[i] in repr && chain[i + 1] in repr && chain[i + 1].View() == areas[i] && chain[i] != chain[i + 1]
    {}

    /** The loop that carves out [`x`, `l`). */
    method CarveRange(x: nat, l: nat)
      requires Valid() && CanCarve(areas, x, l) && forall ar :: ar in areas ==> ar.start < ar.end
      modifies this`chain, this`areas, this`numVmArea, this`repr, repr
      ensures Valid() && fresh(repr - old(repr))
      ensures areas == Carve(old(areas), x, l)
    {
      Shape();
      hide Linked, CarveStep, Carve, CarveRest, CanCarve;
      var prev := dummy;
      var cur := Next(0, prev);
      ghost var i: nat := 0;
      CarveAll(areas, x, l);
      while cur != null
        invariant At(i, prev, cur) && fresh(repr - old(repr))
        invariant CanCarve(areas, x, l) && forall ar :: ar in areas ==> ar.start < ar.end
        invariant CarveRest(areas, i, x, l) == Carve(old(areas), x, l)
        decreases ToCarve(areas[i..], x)
      {
        CarveStepKeeps(areas, i, x, l);
        ghost var k := CarveStep(areas, i, x, l).1;
        prev, cur := CarveNode(i, prev, cur, x, l);
        i := k;
      }
      CarveDone(areas, x, l);
    }

    // ---- break_hugepage ----

    /** `prev->vm_next = cur->vm_next; dealloc_vm_area(cur);` where `prev` is still the dummy:
        the nodes before `cur` go too, but nobody frees them. */
    method DropThrough(ghost i: nat, cur: VmArea)
      requires Linked() && i + 1 < |chain| && cur == chain[i + 1] && numVmArea > 0
      modifies this`chain, this`areas, this`numVmArea, this`lost, dummy`vmNext
      ensures Linked() && chain == BehindFirst(old(chain), i + 2) && areas == old(areas[i + 1..])
      ensures numVmArea == old(numVmArea) - 1 && lost == old(lost) + i
    {
      CutOnce(chain, repr, i + 2);
      OnceAt(chain, repr, 0);
      hide BehindFirst, OnceIn;
      dummy.vmNext := cur.vmNext;
      numVmArea := numVmArea - 1;
      chain := BehindFirst(chain, i + 2);
      areas := areas[i + 1..];
      lost := lost + i;
      forall k | 0 <= k < |chain|
        ensures chain[k].vmNext == if k + 1 < |chain| then chain[k + 1] else null
        ensures k > 0 ==> chain[k].View() == areas[k - 1]
      {
        if k > 0 {
          assert chain[k] == old(chain[i + 1 + k]) && old(chain[i + 1 + k]).vmNext == old(chain[i + 1 + k].vmNext);
          assert old(chain[i + 1 + k].View()) == old(areas)[i + k];
        }
      }
    }

    /** The list part of the branch for an area that lies wholly inside the request. */
    method BreakWholeNode(ghost i: nat, ghost prev: VmArea, cur: VmArea)
      returns (ghost prev': VmArea, cur': VmArea?, ghost j: nat)
      requires At(i, prev, cur)
      modifies this`chain, this`areas, this`numVmArea, this`lost, this`repr, repr
      ensures fresh(repr - old(repr)) && i < |old(areas)| && lost == old(lost) + i
      ensures areas == BreakWhole(old(areas), i)
      ensures j == Where(old(areas)[i + 1..], old(areas)[i].(kind := Normal), 0) && At(j, prev', cur')
    {
      AtIs(i, prev, cur);
      cur.ViewIs();
      hide *;
      // The node after this one, which the loop will read from the node it has freed.
      cur' := Next(i + 1, cur);
      ghost var v, rest := areas[i].(kind := Normal), areas[i + 1..];
      WholeIs(areas, i);
      DropThrough(i, cur);
      Shape();
      var node := CreateVmArea(cur.vmStart, cur.vmEnd, cur.accessFlags, Normal);
      ghost var nodes := chain;
      ghost var at := SortedInsert(node);
      Shape();
      NextStands(rest, v, nodes, chain);
      j := Where(rest, v, 0);
      prev' := chain[j];
      IsAt(j, prev', cur');
    }

    /** Insert a node and go on behind `cur`, which is not merged away. */
    method InsertOn(ghost i: nat, cur: VmArea, node: VmArea) returns (cur': VmArea?, ghost j: nat)
      requires Linked() && |chain| == |areas| + 1 && i < |areas| && cur == chain[i + 1]
      requires node !in repr && numVmArea == |areas| + 2 + lost && Stays(areas, node.View(), i)
      modifies this`chain, this`areas, this`numVmArea, this`repr, repr, node
      ensures repr == old(repr) + {node} && areas == Insert(old(areas), old(node.View()))
      ensures j == Where(old(areas), old(node.View()), i) + 1 && At(j, cur, cur')
    {
      hide *;
      ghost var was, nodes, v := areas, chain, node.View();
      ghost var at := SortedInsert(node);
      KeptAt(was, v, nodes, chain, i);
      ValidIs();
      j := Where(was, v, i) + 1;
      cur' := Next(j, cur);
      IsAt(j, cur, cur');
    }

    /** The list part of the branch for an area that starts inside the request and ends after it. */
    method BreakHeadNode(ghost i: nat, ghost prev: VmArea, cur: VmArea, l: nat)
      returns (ghost prev': VmArea, cur': VmArea?, ghost j: nat)
      requires At(i, prev, cur) && cur.mappingType == HugePage
      modifies this`chain, this`areas, this`numVmArea, this`repr, repr
      ensures fresh(repr - old(repr)) && i < |old(areas)|
      ensures areas == BreakHead(old(areas), i, l)
      ensures j == Where(CutHead(old(areas), i, l), HeadNode(old(areas)[i], l), i) + 1 && At(j, prev', cur')
    {
      AtIs(i, prev, cur);
      cur.ViewIs();
      hide *;
      HeadIs(areas, i, l);
      var node := CreateVmArea(cur.vmStart, l, cur.accessFlags, Normal);
      SetStart(i, cur, l);
      prev' := cur;
      cur', j := InsertOn(i, cur, node);
    }

    /** The list part of the branch for an area that the request cuts short. */
    method BreakTailNode(ghost i: nat, ghost prev: VmArea, cur: VmArea, x: nat, l: nat)
      returns (ghost prev': VmArea, cur': VmArea?, ghost j: nat)
      requires At(i, prev, cur) && cur.mappingType == HugePage
      modifies this`chain, this`areas, this`numVmArea, this`repr, repr
      ensures fresh(repr - old(repr)) && i < |old(areas)|
      ensures areas == BreakTail(old(areas), i, x, l)
      ensures j == Where(CutTail(old(areas), i, x), TailNode(old(areas)[i], l), i) + 1 && At(j, prev', cur')
    {
      AtIs(i, prev, cur);
      cur.ViewIs();
      hide *;
      TailIs(areas, i, x, l);
      var node := CreateVmArea(cur.vmEnd, l, cur.accessFlags, Normal);
      SetEnd(i, cur, x);
      prev' := cur;
      cur', j := InsertOn(i, cur, node);
    }

    /** The list part of the branch for a request strictly inside an area. */
    method BreakMiddleNode(ghost i: nat, ghost prev: VmArea, cur: VmArea, x: nat, l: nat)
        returns (ghost prev': VmArea, cur': VmArea?)
      requires At(i, prev, cur)
      modifies this`chain, this`areas, this`numVmArea, this`repr, repr
      ensures fresh(repr - old(repr)) && i < |old(areas)|
      ensures areas == BreakMiddle(old(areas), i, x, l)
      ensures At(i + 1, prev', cur')
    {
      AtIs(i, prev, cur);
      cur.ViewIs();
      hide *;
      MiddleIs(areas, i, x, l);
      var above := Split(i, prev, cur, x, l);
      AtIs(i + 1, cur, above);
      cur.ViewIs();
      var node := CreateVmArea(x, l, cur.accessFlags, Normal);
      PlusIs(chain, i + 2, node);
      LinkAfter(i + 1, cur, node);
      Shape();
      prev' := cur;
      cur' := Next(i + 1, cur);
      IsAt(i + 1, prev', cur');
    }

    /** The list part of one round of the loop of `vm_area_break_hugepage`. */
    method BreakNode(ghost i: nat, ghost prev: VmArea, cur: VmArea, x: nat, l: nat)
      returns (ghost prev': VmArea, cur': VmArea?, ghost j: nat)
      requires At(i, prev, cur)
      modifies this`chain, this`areas, this`numVmArea, this`lost, this`repr, repr
      ensures fresh(repr - old(repr)) && i < |old(areas)|
      ensures (areas, j) == BreakRoundOf(old(areas), i, x, l) && At(j, prev', cur')
      ensures lost == old(lost) + LostIn(old(areas), i, x, l)
    {
      Position(i, prev, cur);
      hide BreakWhole, BreakHead, BreakTail, BreakMiddle, Where, Valid, Linked;
      if cur.mappingType != HugePage {
        prev', cur', j := Step(i, prev, cur);
      } else if cur.vmStart >= x && cur.vmEnd <= l {
        prev', cur', j := BreakWholeNode(i, prev, cur);
      } else if cur.vmStart >= x && cur.vmStart < l {
        prev', cur', j := BreakHeadNode(i, prev, cur, l);
      } else if cur.vmEnd > x && cur.vmEnd < l {
        prev', cur', j := BreakTailNode(i, prev, cur, x, l);
      } else if x >= cur.vmStart && l < cur.vmEnd {
        prev', cur' := BreakMiddleNode(i, prev, cur, x, l);
        j := i + 1;
      } else {
        prev', cur', j := Step(i, prev, cur);
      }
    }

    /** `current->vm_area->vm_next` */
    method First() returns (cur: VmArea?)
      requires Valid()
      ensures At(0, dummy, cur)
    {
      cur := dummy.vmNext;
    }

    /** On to the next node. */
    method Step(ghost i: nat, ghost prev: VmArea, cur: VmArea)
      returns (prev': VmArea, cur': VmArea?, ghost j: nat)
      requires At(i, prev, cur)
      ensures j == i + 1 && At(j, prev', cur')
    {
      prev', j := cur, i + 1;
      cur' := Next(i + 1, cur);
    }

    /** What the loop of `vm_area_break_hugepage` does to the list, whatever the list. */
    method BreakRange(x: nat, l: nat)
      requires Valid() && x < l
      modifies this`chain, this`areas, this`numVmArea, this`lost, this`repr, repr
      ensures Valid() && fresh(repr - old(repr))
      ensures areas == Break(old(areas), x, l) && lost == old(lost) + LostFrom(old(areas), 0, x, l)
    {
      hide Linked, BreakRoundOf, LostIn, Acts;
      var cur := First();
      ghost var prev, i: nat := dummy, 0;
      while cur != null
        invariant At(i, prev, cur) && fresh(repr - old(repr))
        invariant BreakFrom(areas, i, x, l) == Break(old(areas), x, l)
        invariant lost + LostFrom(areas, i, x, l) == old(lost) + LostFrom(old(areas), 0, x, l)
        decreases Acts(areas[i..], x, l), |areas| - i
      {
        RoundShrinks(areas, i, x, l);
        prev, cur, i := BreakNode(i, prev, cur, x, l);
      }
    }
  }

  /** The first node stands behind the inserted one, or was merged with it. */
  lemma NextStands<T>(areas: seq<Area>, v: Area, was: seq<T>, now: seq<T>)
    requires Kept(areas, v, was, now) && |now| == |Insert(areas, v)| + 1
    ensures var j := Where(areas, v, 0);
            if areas == [] then j == |Insert(areas, v)| else j < |Insert(areas, v)| && now[j + 1] == was[1]
  {
    assert areas != [] ==> Stays(areas, v, 0);
  }

  lemma HeadIs(areas: seq<Area>, i: nat, l: nat)
    requires i < |areas|
    ensures var cut, v := CutHead(areas, i, l), HeadNode(areas[i], l);
            && cut == areas[i := areas[i].(start := l)] && v == Area(areas[i].start, l, areas[i].flags, Normal)
            && BreakHead(areas, i, l) == Insert(cut, v) && (areas[i].kind == HugePage ==> Stays(cut, v, i))
  {}

  lemma TailIs(areas: seq<Area>, i: nat, x: nat, l: nat)
    requires i < |areas|
    ensures var cut, v := CutTail(areas, i, x), TailNode(areas[i], l);
            && cut == areas[i := areas[i].(end := x)] && v == Area(areas[i].end, l, areas[i].flags, Normal)
            && BreakTail(areas, i, x, l) == Insert(cut, v) && (areas[i].kind == HugePage ==> Stays(cut, v, i))
  {}

  /** The middle branch splits the area and then puts a node between the parts. */
  lemma MiddleIs(areas: seq<Area>, i: nat, x: nat, l: nat)
    requires i < |areas|
    ensures var v := areas[i];
            var two := Spliced(areas, i, [v.(end := x)], [v.(start := l)]);
            && i < |two| && two[i] == v.(end := x)
            && BreakMiddle(areas, i, x, l) == PlusAt(two, i + 1, Area(x, l, v.flags, Normal))
  {
    var v := areas[i];
    assert Spliced(areas, i, [v.(end := x)], [v.(start := l)])[..i + 1] == areas[..i] + [v.(end := x)];
  }

  lemma CarveAll(areas: seq<Area>, x: nat, l: nat)
    ensures CarveRest(areas, 0, x, l) == Carve(areas, x, l)
  {
    assert areas[0..] == areas && areas[..0] == [];
  }

  lemma CarveDone(areas: seq<Area>, x: nat, l: nat)
    ensures CarveRest(areas, |areas|, x, l) == areas
  {
    assert areas[|areas|..] == [] && areas[..|areas|] == areas;
  }
}
