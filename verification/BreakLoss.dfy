/** What a break loses when it does not fit: nodes, mappings, and the agreement of its two parts. */
module BreakLoss {
  import opened Words
  import opened Areas
  import opened AreaOps
  import opened HugeOps
  import opened BreakOps

  // ---- nodes cut off from the list ----

  /** How many nodes a round cuts off without freeing them: those before a covered area. */
  function LostIn(areas: seq<Area>, i: nat, x: nat, l: nat): nat
    requires i < |areas|
  {
    if Covered(areas[i], x, l) then i else 0
  }

  /** How many the loop cuts off from position `i` on. */
  function LostFrom(areas: seq<Area>, i: nat, x: nat, l: nat): nat
    requires x < l
    decreases if i < |areas| then Acts(areas[i..], x, l) else 0, |areas| - i
  {
    if i >= |areas| then 0
    else
      var (out, j) := BreakRoundOf(areas, i, x, l);
      RoundShrinks(areas, i, x, l);
      LostIn(areas, i, x, l) + LostFrom(out, j, x, l)
  }

  lemma FirstHuge(areas: seq<Area>, i: nat)
    requires i < |areas|
    ensures forall ar :: ar in Huges(areas[i..]) <==>
                         ar in Huges(areas[i + 1..]) || (ar == areas[i] && ar.kind == HugePage)
  {
    assert areas[i..] == [areas[i]] + areas[i + 1..];
    HugesCons(areas[i], areas[i + 1..]);
    hide Huges;
  }

  /** What a round leaves to visit is covered if and only if it was before. */
  lemma RoundLeaves(areas: seq<Area>, i: nat, x: nat, l: nat)
    requires i < |areas| && x < l
    ensures var (out, j) := BreakRoundOf(areas, i, x, l);
            && j <= |out| && (j == 0 ==> Covered(areas[i], x, l))
            && forall ar :: Covered(ar, x, l) ==> (ar in Huges(out[j..]) <==> ar in Huges(areas[i + 1..]))
  {
    RoundHuges(areas, i, x, l);
    hide Huges, BreakWhole, BreakHead, BreakTail, BreakMiddle, Where;
  }

  lemma {:induction false} NothingLost(areas: seq<Area>, i: nat, x: nat, l: nat)
    requires x < l && i <= |areas| && forall ar :: ar in Huges(areas[i..]) ==> !Covered(ar, x, l)
    ensures LostFrom(areas, i, x, l) == 0
    decreases if i < |areas| then Acts(areas[i..], x, l) else 0, |areas| - i
  {
    hide Huges, BreakRoundOf, Acts;
    if i < |areas| {
      RoundShrinks(areas, i, x, l);
      RoundLeaves(areas, i, x, l);
      FirstHuge(areas, i);
      var (out, j) := BreakRoundOf(areas, i, x, l);
      NothingLost(out, j, x, l);
    }
  }

  lemma {:induction false} SomethingLost(areas: seq<Area>, i: nat, x: nat, l: nat)
    requires x < l && 0 < i <= |areas| && exists ar :: ar in Huges(areas[i..]) && Covered(ar, x, l)
    ensures LostFrom(areas, i, x, l) > 0
    decreases if i < |areas| then Acts(areas[i..], x, l) else 0, |areas| - i
  {
    if i < |areas| && !Covered(areas[i], x, l) {
      hide Huges, BreakRoundOf, Acts;
      RoundShrinks(areas, i, x, l);
      RoundLeaves(areas, i, x, l);
      FirstHuge(areas, i);
      var (out, j) := BreakRoundOf(areas, i, x, l);
      SomethingLost(out, j, x, l);
    }
  }

  /** A huge area behind the first lies wholly inside the request. */
  ghost predicate CoversLater(areas: seq<Area>, x: nat, l: nat) {
    exists k :: 0 < k < |areas| && Covered(areas[k], x, l)
  }

  lemma LaterHuges(areas: seq<Area>, x: nat, l: nat)
    requires areas != []
    ensures CoversLater(areas, x, l) <==> exists ar :: ar in Huges(areas[1..]) && Covered(ar, x, l)
  {
    HugesIn(areas[1..]);
    hide Huges;
    if k :| 0 < k < |areas| && Covered(areas[k], x, l) {
      assert areas[k] in areas[1..];
    }
    if ar :| ar in Huges(areas[1..]) && Covered(ar, x, l) {
      var k :| 0 <= k < |areas[1..]| && areas[1..][k] == ar;
      assert Covered(areas[k + 1], x, l);
    }
  }

  /** The call cuts nodes off if and only if it covers a huge area behind the first. */
  lemma LosesNodesIff(areas: seq<Area>, x: nat, l: nat)
    requires WellFormed(areas) && x < l
    ensures LostFrom(areas, 0, x, l) > 0 <==> CoversLater(areas, x, l)
  {
    if areas != [] {
      var (out, j) := BreakRoundOf(areas, 0, x, l);
      LaterHuges(areas, x, l);
      RoundLeaves(areas, 0, x, l);
      if !CoversLater(areas, x, l) {
        NothingLost(out, j, x, l);
      } else if j > 0 {
        SomethingLost(out, j, x, l);
      } else {
        MergedFirst(areas, x, l);
        SomethingLost(out, 1, x, l);
      }
      hide WellFormed, Huges, BreakRoundOf, Covered, CoversLater;
    }
  }

  /** When the first area is broken and merged with the second, the walk passes over both. */
  lemma MergedFirst(areas: seq<Area>, x: nat, l: nat)
    requires WellFormed(areas) && x < l && areas != [] && BreakRoundOf(areas, 0, x, l).1 == 0
    ensures var out := BreakRoundOf(areas, 0, x, l).0;
            && out != [] && Huges(out[0..]) == Huges(out[1..])
            && LostFrom(out, 0, x, l) == LostFrom(out, 1, x, l)
  {
    RoundLeaves(areas, 0, x, l);
    AfterWhole(areas, 0);
    hide WellFormed, Insert;
    var out := BreakWhole(areas, 0);
    assert out[0..] == [out[0]] + out[1..];
    HugesCons(out[0], out[1..]);
  }

  lemma FitsLosesNothing(areas: seq<Area>, x: nat, l: nat)
    requires WellFormed(areas) && x < l && BreakFits(areas, x, l)
    ensures !CoversLater(areas, x, l)
  {
    forall k | 0 < k < |areas|
      ensures !Covered(areas[k], x, l)
    {
      assert Sane(areas[k]) && !EndsIn(areas[k], x, l);
    }
  }

  // ---- what is handed to `copy_hpp` ----

  predicate InPart(ar: Area, x: nat, l: nat, a: nat) {
    var (lo, hi) := Part(ar, x, l);
    lo <= a < hi
  }

  /** Some round over one of these areas hands the address over. */
  ghost predicate HandedOver(areas: seq<Area>, x: nat, l: nat, a: nat) {
    exists ar :: ar in areas && InPart(ar, x, l, a)
  }

  lemma HandedHuges(areas: seq<Area>, x: nat, l: nat, a: nat)
    ensures HandedOver(Huges(areas), x, l, a) <==> HandedOver(areas, x, l, a)
  {
    HugesIn(areas);
    hide Huges;
    assert forall ar :: InPart(ar, x, l, a) ==> ar.kind == HugePage;
  }

  /** On any list, the rest of the loop hands over what the round hands over and what the rest
      after it does. */
  lemma RoundHands(areas: seq<Area>, i: nat, x: nat, l: nat, a: nat)
    requires i < |areas| && x < l
    ensures var (out, j) := BreakRoundOf(areas, i, x, l);
            && j <= |out|
            && (HandedOver(areas[i..], x, l, a) <==> InPart(areas[i], x, l, a) || HandedOver(out[j..], x, l, a))
  {
    var (out, j) := BreakRoundOf(areas, i, x, l);
    RoundHuges(areas, i, x, l);
    HandedHuges(out[j..], x, l, a);
    HandedHuges(areas[i + 1..], x, l, a);
    assert areas[i..] == [areas[i]] + areas[i + 1..];
    assert Splits(areas[i], x, l) ==> !InPart(areas[i].(start := l), x, l, a);
    hide BreakRoundOf, Huges, InPart, Splits;
  }

  /** An area that starts below the request ends with it. */
  predicate ExactTail(ar: Area, x: nat, l: nat) { ar.kind == HugePage && ar.start < x && ar.end == l }

  lemma InPartIs(ar: Area, x: nat, l: nat, a: nat)
    requires ar.start < ar.end && !TailCut(ar, x, l) && !ExactTail(ar, x, l)
    ensures InPart(ar, x, l, a) <==> ar.kind == HugePage && Contains(ar, a) && x <= a < l
  {}

  /** When no area ends inside the request or with it but starts below it, what is handed over
      is what is huge in the request. */
  lemma HandedIff(areas: seq<Area>, x: nat, l: nat, a: nat)
    requires WellFormed(areas) && forall ar :: ar in areas ==> !TailCut(ar, x, l) && !ExactTail(ar, x, l)
    ensures HandedOver(areas, x, l, a) <==>
            x <= a < l && Lookup(areas, a).Some? && Lookup(areas, a).value.kind == HugePage
  {
    SaneAreas(areas);
    hide InPart, TailCut, ExactTail;
    if ar :| ar in areas && InPart(ar, x, l, a) {
      InPartIs(ar, x, l, a);
      FindOnly(areas, ar, a);
    }
    if Lookup(areas, a).Some? {
      FindIn(areas, a);
      InPartIs(Find(areas, a).value, x, l, a);
    }
  }

  /** An area that ends with the request and starts below it leaves nothing to hand over. */
  lemma ExactTailHands(areas: seq<Area>, t: nat, x: nat, l: nat, a: nat)
    requires WellFormed(areas) && x < l && t < |areas| && ExactTail(areas[t], x, l)
    ensures !HandedOver(areas, x, l, a)
  {
    StandsApart(areas, t);
    hide WellFormed;
    forall ar | ar in areas
      ensures !InPart(ar, x, l, a)
    {
      var m :| 0 <= m < |areas| && areas[m] == ar;
      assert m == t || ar.end <= areas[t].start || l <= ar.start;
    }
  }

  /** The part that the call cuts off an area is not handed over. */
  lemma TailCutHands(areas: seq<Area>, t: nat, x: nat, l: nat)
    requires WellFormed(areas) && x < l && t < |areas| && TailCut(areas[t], x, l)
    ensures !HandedOver(areas, x, l, x)
  {
    StandsApart(areas, t);
    hide WellFormed;
    forall ar | ar in areas
      ensures !InPart(ar, x, l, x)
    {
      var m :| 0 <= m < |areas| && areas[m] == ar;
      assert m == t || ar.end <= areas[t].start || areas[t].end <= ar.start;
    }
  }

  // ---- the list that a break leaves ----

  /** The mappings below the last covered area are lost, and the rest is exact. */
  ghost predicate LostBelow(areas: seq<Area>, out: seq<Area>, at: nat, x: nat, l: nat) {
    forall a: nat :: Lookup(out, a) == if a < at then None else Broken(Lookup(areas, a), a, x, l)
  }

  /** No later area is covered. */
  ghost predicate LastCovered(areas: seq<Area>, k: nat, x: nat, l: nat) {
    k < |areas| && Covered(areas[k], x, l) && forall m :: k < m < |areas| ==> !Covered(areas[m], x, l)
  }

  lemma WholeAt(areas: seq<Area>, i: nat, x: nat, l: nat)
    requires Breakable(areas, x, l) && i < |areas| && Covered(areas[i], x, l)
    ensures var out := BreakWhole(areas, i);
            Breakable(out, x, l) &&
            forall a: nat :: Lookup(out, a) == if Contains(areas[i], a) then Some(Attr(areas[i].flags, Normal))
                                               else Lookup(areas[i + 1..], a)
  {
    BreakWholeKeeps(areas, i, x, l);
    AtIndex(areas, i);
    InsertExact(areas[i + 1..], areas[i].(kind := Normal));
    hide WellFormed, Lookup;
  }

  lemma LookupBehind(areas: seq<Area>, i: nat, a: nat)
    requires WellFormed(areas) && i < |areas| && a >= areas[i].end
    ensures Lookup(areas[i + 1..], a) == Lookup(areas, a)
  {
    StandsApart(areas, i);
    hide WellFormed;
    assert areas == areas[..i + 1] + areas[i + 1..];
    FindAppend(areas[..i + 1], areas[i + 1..], a);
    FindIn(areas[..i + 1], a);
    assert forall ar :: ar in areas[..i + 1] ==> !Contains(ar, a);
  }

  /** Nothing is mapped below an area in the areas from it on. */
  lemma LookupFrom(areas: seq<Area>, i: nat, a: nat)
    requires WellFormed(areas) && i < |areas| && a < areas[i].end
    ensures Lookup(areas[i + 1..], a).None?
  {
    StandsApart(areas, i);
    hide WellFormed;
    FindIn(areas[i + 1..], a);
  }

  /** The last covered area takes everything before it along. */
  lemma LastLoses(areas: seq<Area>, k: nat, x: nat, l: nat)
    requires Breakable(areas, x, l) && LastCovered(areas, k, x, l)
    ensures WellFormed(BreakFrom(areas, k, x, l))
    ensures LostBelow(areas, BreakFrom(areas, k, x, l), areas[k].start, x, l)
  {
    var out := BreakWhole(areas, k);
    WholeAt(areas, k, x, l);
    AfterWhole(areas, k);
    WholeUnfolds(areas, k, x, l);
    LastReady(areas, k, x, l);
    hide BreakWhole, BreakFrom, Breakable, Ready, Covered;
    var j := |out| - |areas| + k + 1;
    BreakFromExact(out, j, x, l);
    hide WellFormed, Lookup;
    forall a: nat
      ensures Lookup(BreakFrom(out, j, x, l), a) ==
              if a < areas[k].start then None else Broken(Lookup(areas, a), a, x, l)
    {
      LastLooks(areas, k, x, l, a);
    }
  }

  lemma LastLooks(areas: seq<Area>, k: nat, x: nat, l: nat, a: nat)
    requires Breakable(areas, x, l) && k < |areas| && Covered(areas[k], x, l)
    ensures Broken(Lookup(BreakWhole(areas, k), a), a, x, l) ==
            if a < areas[k].start then None else Broken(Lookup(areas, a), a, x, l)
  {
    WholeAt(areas, k, x, l);
    if a < areas[k].end {
      LookupFrom(areas, k, a);
      FindOnlyAt(areas, k, a);
    } else {
      LookupBehind(areas, k, a);
    }
    hide WellFormed, BreakWhole;
  }

  lemma LastReady(areas: seq<Area>, k: nat, x: nat, l: nat)
    requires Breakable(areas, x, l) && LastCovered(areas, k, x, l)
    ensures var out := BreakWhole(areas, k);
            |out| - |areas| + k + 1 >= 0 && Ready(out, |out| - |areas| + k + 1, x, l)
  {
    BreakWholeKeeps(areas, k, x, l);
    AfterWhole(areas, k);
    StandsApart(areas, k);
    hide WellFormed, BreakWhole, Breakable;
    var out := BreakWhole(areas, k);
    forall m | 1 <= m < |out|
      ensures !EndsIn(out[m], x, l)
    {
      assert out[m] == areas[m + |areas| - |out|];
    }
  }

  /** An area before a covered one is passed over or covered itself. */
  lemma BeforeCovered(areas: seq<Area>, i: nat, k: nat, x: nat, l: nat)
    requires Breakable(areas, x, l) && i < k < |areas| && Covered(areas[k], x, l)
    ensures Passed(areas[i], x, l) || Covered(areas[i], x, l)
  {
    StandsApart(areas, k);
    assert areas[i] in areas;
    hide WellFormed;
  }

  /** Breaking an area before it moves a covered one nearer. */
  lemma WholeMoves(areas: seq<Area>, i: nat, k: nat, x: nat, l: nat)
    requires Breakable(areas, x, l) && LastCovered(areas, k, x, l) && i < k && Covered(areas[i], x, l)
    ensures var out := BreakWhole(areas, i);
            var d := |areas| - |out|;
            && 0 <= i + 1 - d <= 1 <= k - d && LastCovered(out, k - d, x, l) && out[k - d] == areas[k]
  {
    AfterWhole(areas, i);
    if k == i + 1 {
      WholeShape(areas, i);
      assert !Joins(areas[i].(kind := Normal), areas[i + 1]);
    }
    hide WellFormed, BreakWhole, Breakable;
  }

  lemma {:induction false} LosesBelow(areas: seq<Area>, i: nat, k: nat, x: nat, l: nat)
    requires Breakable(areas, x, l) && i <= k && LastCovered(areas, k, x, l)
    ensures WellFormed(BreakFrom(areas, i, x, l))
    ensures LostBelow(areas, BreakFrom(areas, i, x, l), areas[k].start, x, l)
    decreases k - i
  {
    hide *;
    LastFacts(areas, k, x, l);
    if i == k {
      LastLoses(areas, k, x, l);
    } else if Covered(areas[i], x, l) {
      var out := BreakWhole(areas, i);
      CoveredFacts(areas, i, x, l);
      WholeAt(areas, i, x, l);
      WholeMoves(areas, i, k, x, l);
      WholeUnfolds(areas, i, x, l);
      var d := |areas| - |out|;
      LosesBelow(out, i + 1 - d, k - d, x, l);
      LostOn(areas, i, k, BreakFrom(areas, i, x, l), x, l);
    } else {
      BeforeCovered(areas, i, k, x, l);
      PassesTo(areas, i, i + 1, x, l);
      LosesBelow(areas, i + 1, k, x, l);
    }
  }

  lemma LastFacts(areas: seq<Area>, k: nat, x: nat, l: nat)
    requires Breakable(areas, x, l) && LastCovered(areas, k, x, l)
    ensures WellFormed(areas) && x < l && k < |areas| && Covered(areas[k], x, l)
  {}

  lemma CoveredFacts(areas: seq<Area>, i: nat, x: nat, l: nat)
    requires i < |areas| && Covered(areas[i], x, l)
    ensures areas[i].kind == HugePage && areas[i].start >= x && areas[i].end <= l
  {}

  lemma LostOn(areas: seq<Area>, i: nat, k: nat, out: seq<Area>, x: nat, l: nat)
    requires Breakable(areas, x, l) && i < k < |areas| && Covered(areas[i], x, l)
    requires LostBelow(BreakWhole(areas, i), out, areas[k].start, x, l)
    ensures LostBelow(areas, out, areas[k].start, x, l)
  {
    WholeAt(areas, i, x, l);
    StandsApart(areas, k);
    hide WellFormed, BreakWhole;
    forall a: nat | a >= areas[k].start
      ensures Lookup(BreakWhole(areas, i), a) == Lookup(areas, a)
    {
      LookupBehind(areas, i, a);
    }
    hide Lookup;
  }

  lemma {:induction false} FindLast(areas: seq<Area>, k: nat, x: nat, l: nat) returns (m: nat)
    requires k < |areas| && Covered(areas[k], x, l)
    ensures k <= m && LastCovered(areas, m, x, l)
    decreases |areas| - k
  {
    m := k;
    if n :| k < n < |areas| && Covered(areas[n], x, l) {
      m := FindLast(areas, n, x, l);
    }
  }

  /** A huge area that starts below the request ends with it. */
  ghost predicate EndsExactly(areas: seq<Area>, x: nat, l: nat) {
    exists t :: 0 <= t < |areas| && ExactTail(areas[t], x, l)
  }

  /** A break that cuts no area short leaves a well-formed list.  It is exact, but for what lies
      below the last area that it covers, if that is not the first; or it changes nothing. */
  lemma BreakLeaves(areas: seq<Area>, x: nat, l: nat)
    requires Breakable(areas, x, l)
    ensures WellFormed(Break(areas, x, l))
    ensures forall k :: 0 < k && LastCovered(areas, k, x, l) ==>
              LostBelow(areas, Break(areas, x, l), areas[k].start, x, l)
    ensures !CoversLater(areas, x, l) ==> BreakFits(areas, x, l) || EndsExactly(areas, x, l)
    ensures EndsExactly(areas, x, l) ==> Break(areas, x, l) == areas
  {
    hide *;
    BreakableFacts(areas, x, l);
    LaterLoses(areas, x, l);
    if !CoversLater(areas, x, l) {
      FitsOrTail(areas, x, l);
      BreakExactIff(areas, x, l);
    }
    if EndsExactly(areas, x, l) {
      TailChangesNothing(areas, x, l);
    }
  }

  lemma BreakableFacts(areas: seq<Area>, x: nat, l: nat)
    requires Breakable(areas, x, l)
    ensures WellFormed(areas) && x < l && x % PAGE_SIZE == 0 && l % PAGE_SIZE == 0
  {}

  lemma LastLosesBelow(areas: seq<Area>, k: nat, x: nat, l: nat)
    requires Breakable(areas, x, l) && LastCovered(areas, k, x, l)
    ensures WellFormed(Break(areas, x, l)) && LostBelow(areas, Break(areas, x, l), areas[k].start, x, l)
  {
    LosesBelow(areas, 0, k, x, l);
    hide WellFormed, BreakFrom, LostBelow;
  }

  lemma LaterLoses(areas: seq<Area>, x: nat, l: nat)
    requires Breakable(areas, x, l)
    ensures CoversLater(areas, x, l) ==> WellFormed(Break(areas, x, l))
    ensures forall k :: 0 < k && LastCovered(areas, k, x, l) ==>
              LostBelow(areas, Break(areas, x, l), areas[k].start, x, l)
  {
    hide WellFormed, Breakable, Break, LostBelow, Covered;
    BreakableFacts(areas, x, l);
    forall k | 0 < k && LastCovered(areas, k, x, l)
      ensures LostBelow(areas, Break(areas, x, l), areas[k].start, x, l)
    {
      LastLosesBelow(areas, k, x, l);
    }
    if CoversLater(areas, x, l) {
      var k := LastLater(areas, x, l);
      LastLosesBelow(areas, k, x, l);
    }
  }

  lemma LastLater(areas: seq<Area>, x: nat, l: nat) returns (k: nat)
    requires CoversLater(areas, x, l)
    ensures 0 < k && LastCovered(areas, k, x, l)
  {
    var n :| 0 < n < |areas| && Covered(areas[n], x, l);
    k := FindLast(areas, n, x, l);
  }

  lemma TailChangesNothing(areas: seq<Area>, x: nat, l: nat)
    requires WellFormed(areas) && x < l && EndsExactly(areas, x, l)
    ensures Break(areas, x, l) == areas
  {
    var t: nat :| t < |areas| && ExactTail(areas[t], x, l);
    BreakMissesTail(areas, t, x, l);
  }

  lemma FitsOrTail(areas: seq<Area>, x: nat, l: nat)
    requires Breakable(areas, x, l) && !CoversLater(areas, x, l)
    ensures BreakFits(areas, x, l) || EndsExactly(areas, x, l)
  {
    if !BreakFits(areas, x, l) {
      var k :| 0 <= k < |areas| && EndsIn(areas[k], x, l) && !(k == 0 && x <= areas[0].start);
      assert areas[k] in areas && !TailCut(areas[k], x, l);
      assert ExactTail(areas[k], x, l);
    }
  }
}
