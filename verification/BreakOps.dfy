/** Breaking huge areas, and undoing it. */
module BreakOps {
  import opened Words
  import opened Areas
  import opened AreaOps
  import opened HugeOps

  /** The area is a huge one that the request cuts short: it starts below the request and
      ends strictly inside it. */
  predicate TailCut(ar: Area, x: nat, l: nat) {
    ar.kind == HugePage && ar.start < x < ar.end < l
  }

  ghost predicate Breakable(areas: seq<Area>, x: nat, l: nat) {
    && WellFormed(areas) && x < l && x % PAGE_SIZE == 0 && l % PAGE_SIZE == 0
    && forall ar :: ar in areas ==> !TailCut(ar, x, l)
  }

  /** What the call is meant to say of an address. */
  function Broken(t: Option<Attr>, a: nat, x: nat, l: nat): Option<Attr> {
    if t.Some? && t.value.kind == HugePage && x <= a < l then Some(Attr(t.value.flags, Normal)) else t
  }

  // ---- one round of the loop, on any list ----

  /** The list after the branch for an area wholly inside the request, at position `i`: the
      walk keeps no predecessor, so unlinking this area unlinks every area before it. */
  function BreakWhole(areas: seq<Area>, i: nat): seq<Area>
    requires i < |areas|
  {
    Insert(areas[i + 1..], areas[i].(kind := Normal))
  }

  function CutHead(areas: seq<Area>, i: nat, l: nat): seq<Area>
    requires i < |areas|
  {
    areas[i := areas[i].(start := l)]
  }

  function HeadNode(ar: Area, l: nat): Area { Area(ar.start, l, ar.flags, Normal) }

  /** The list after the branch for an area that starts inside the request and ends after it. */
  function BreakHead(areas: seq<Area>, i: nat, l: nat): seq<Area>
    requires i < |areas|
  {
    Insert(CutHead(areas, i, l), HeadNode(areas[i], l))
  }

  /** The position after that branch in a well-formed list. */
  function AfterHeadAt(areas: seq<Area>, i: nat, l: nat): nat
    requires i < |areas| && |BreakHead(areas, i, l)| >= |areas|
  {
    i + 1 + |BreakHead(areas, i, l)| - |areas|
  }

  function CutTail(areas: seq<Area>, i: nat, x: nat): seq<Area>
    requires i < |areas|
  {
    areas[i := areas[i].(end := x)]
  }

  function TailNode(ar: Area, l: nat): Area { Area(ar.end, l, ar.flags, Normal) }

  /** The list after the branch for an area that the request cuts short: the new normal area
      lies behind the old one, instead of on the part that is cut off. */
  function BreakTail(areas: seq<Area>, i: nat, x: nat, l: nat): seq<Area>
    requires i < |areas|
  {
    Insert(CutTail(areas, i, x), TailNode(areas[i], l))
  }

  /** The list after the branch for a request strictly inside an area. */
  function BreakMiddle(areas: seq<Area>, i: nat, x: nat, l: nat): seq<Area>
    requires i < |areas|
  {
    areas[..i]
    + [areas[i].(end := x), Area(x, l, areas[i].flags, Normal), areas[i].(start := l)]
    + areas[i + 1..]
  }

  /** One round, at position `i`: the list and the position after it. */
  function BreakRoundOf(areas: seq<Area>, i: nat, x: nat, l: nat): (seq<Area>, nat)
    requires i < |areas|
  {
    var cur := areas[i];
    if cur.kind == Normal then (areas, i + 1)
    else if cur.start >= x && cur.end <= l then
      (BreakWhole(areas, i), Where(areas[i + 1..], cur.(kind := Normal), 0))
    else if cur.start >= x && cur.start < l then
      (BreakHead(areas, i, l), Where(CutHead(areas, i, l), HeadNode(cur, l), i) + 1)
    else if cur.end > x && cur.end < l then
      (BreakTail(areas, i, x, l), Where(CutTail(areas, i, x), TailNode(cur, l), i) + 1)
    else if x >= cur.start && l < cur.end then (BreakMiddle(areas, i, x, l), i + 1)
    else (areas, i + 1)
  }

  /** The bytes that the round hands to `copy_hpp`. */
  function Part(ar: Area, x: nat, l: nat): (nat, nat) {
    if ar.kind == Normal then (0, 0)
    else if ar.start >= x && ar.end <= l then (ar.start, ar.end)
    else if ar.start >= x && ar.start < l then (ar.start, l)
    else if ar.end > x && ar.end < l then (ar.end, l)
    else if x >= ar.start && l < ar.end then (x, l)
    else (0, 0)
  }

  // ---- the loop ends ----

  /** Huge areas left to visit; one that a request splits leaves another. */
  function Acts(areas: seq<Area>, x: nat, l: nat): nat {
    if areas == [] then 0
    else
      (if areas[0].kind == Normal then 0 else if areas[0].start < x && l < areas[0].end then 2 else 1)
      + Acts(areas[1..], x, l)
  }

  lemma ActsCons(ar: Area, rest: seq<Area>, x: nat, l: nat)
    ensures Acts([ar] + rest, x, l) ==
            (if ar.kind == Normal then 0 else if ar.start < x && l < ar.end then 2 else 1) + Acts(rest, x, l)
  {
    assert ([ar] + rest)[1..] == rest;
  }

  /** The huge areas, in order: all that the loop looks at. */
  function Huges(areas: seq<Area>): seq<Area> {
    if areas == [] then []
    else if areas[0].kind == HugePage then [areas[0]] + Huges(areas[1..])
    else Huges(areas[1..])
  }

  lemma HugesCons(ar: Area, rest: seq<Area>)
    ensures Huges([ar] + rest) == if ar.kind == HugePage then [ar] + Huges(rest) else Huges(rest)
  {
    assert ([ar] + rest)[1..] == rest;
  }

  lemma {:induction false} ActsHuges(areas: seq<Area>, x: nat, l: nat)
    ensures Acts(Huges(areas), x, l) == Acts(areas, x, l)
  {
    if areas != [] {
      ActsHuges(areas[1..], x, l);
      ActsCons(areas[0], Huges(areas[1..]), x, l);
    }
  }

  lemma {:induction false} HugesIn(areas: seq<Area>)
    ensures forall ar :: ar in Huges(areas) <==> ar in areas && ar.kind == HugePage
  {
    if areas != [] {
      HugesIn(areas[1..]);
      assert areas == [areas[0]] + areas[1..];
    }
  }

  lemma PushHuges(node: Area, rest: seq<Area>)
    requires node.kind == Normal
    ensures Huges(PushFront(node, rest)) == Huges(rest)
  {
    if rest != [] && Joins(node, rest[0]) {
      HugesCons(node.(end := rest[0].end), rest[1..]);
    } else {
      HugesCons(node, rest);
    }
  }

  /** Insertion of a normal node leaves the huge areas as they are. */
  lemma {:induction false} InsertHuges(areas: seq<Area>, node: Area)
    requires node.kind == Normal
    ensures Huges(Insert(areas, node)) == Huges(areas)
    decreases areas
  {
    hide PushFront;
    PushHuges(node, areas);
    if areas != [] {
      PushHuges(node, areas[1..]);
      HugesCons(areas[0], PushFront(node, areas[1..]));
      if areas[0].start < node.end && |areas| > 1 && areas[1].start < node.end {
        InsertHuges(areas[1..], node);
        HugesCons(areas[0], Insert(areas[1..], node));
      } else if Joins(areas[0], node) {
        PushHuges(areas[0].(end := node.end), areas[1..]);
      }
    }
  }

  /** A normal node changes neither a huge area nor which huge areas lie behind it. */
  lemma {:induction false} InsertKeepsRest(areas: seq<Area>, node: Area, c: nat)
    requires node.kind == Normal && c < |areas| && areas[c].kind == HugePage
    ensures var out, w := Insert(areas, node), Where(areas, node, c);
            w < |out| && out[w] == areas[c] && Huges(out[w + 1..]) == Huges(areas[c + 1..])
    decreases areas
  {
    hide PushFront, PutBehind, Huges, Joins;
    if areas[0].start < node.end && |areas| > 1 && areas[1].start < node.end {
      var rest := Insert(areas[1..], node);
      assert ([areas[0]] + rest)[1..] == rest;
      if c == 0 {
        InsertHuges(areas[1..], node);
      } else {
        InsertKeepsRest(areas[1..], node, c - 1);
        assert areas[1..][c..] == areas[c + 1..];
        assert ([areas[0]] + rest)[Where(areas, node, c) + 1..] == rest[Where(areas, node, c)..];
      }
    } else if areas[0].start >= node.end {
      PushKeepsBehind(areas, node, c);
    } else {
      PutKeepsBehind(areas, node, c);
    }
  }

  lemma PushKeepsBehind(areas: seq<Area>, node: Area, c: nat)
    requires node.kind == Normal && c < |areas| && areas[c].kind == HugePage
    ensures var out := PushFront(node, areas);
            var w := c + |out| - |areas|;
            0 <= w < |out| && out[w] == areas[c] && out[w + 1..] == areas[c + 1..]
  {}

  lemma PutKeepsBehind(areas: seq<Area>, node: Area, c: nat)
    requires node.kind == Normal && c < |areas| && areas[c].kind == HugePage
    ensures var out := PutBehind(areas[0], node, areas[1..]);
            var w := if c == 0 then 0 else c + |out| - |areas|;
            0 <= w < |out| && out[w] == areas[c] && Huges(out[w + 1..]) == Huges(areas[c + 1..])
  {
    hide PushFront, Huges;
    var head, rest := areas[0], areas[1..];
    if c == 0 {
      PushHuges(node, rest);
      Behind(head, PushFront(node, rest), 0);
    } else if Joins(head, node) {
      PushKeepsBehind(rest, head.(end := node.end), c - 1);
      Behind(head, rest, c);
    } else {
      PushKeepsBehind(rest, node, c - 1);
      Behind(head, rest, c);
      Behind(head, PushFront(node, rest), c + |PushFront(node, rest)| - |rest|);
    }
  }

  lemma Behind(head: Area, rest: seq<Area>, k: nat)
    requires k <= |rest|
    ensures ([head] + rest)[1..] == rest && ([head] + rest)[k + 1..] == rest[k..]
    ensures k > 0 ==> ([head] + rest)[k] == rest[k - 1]
  {}

  lemma WholeHuges(areas: seq<Area>, i: nat)
    requires i < |areas| && areas[i].kind == HugePage
    ensures var w := Where(areas[i + 1..], areas[i].(kind := Normal), 0);
            w <= |BreakWhole(areas, i)| && Huges(BreakWhole(areas, i)[w..]) == Huges(areas[i + 1..])
  {
    var rest, node := areas[i + 1..], areas[i].(kind := Normal);
    InsertHuges(rest, node);
    var out, w := Insert(rest, node), Where(rest, node, 0);
    if Place(rest, node) == 0 {
      assert out == PushFront(node, rest);
      assert out[w..] == if w == 0 then out else rest;
    } else {
      assert out[w..] == out;
    }
  }

  lemma HeadHuges(areas: seq<Area>, i: nat, l: nat)
    requires i < |areas| && areas[i].kind == HugePage
    ensures var out, j := BreakHead(areas, i, l), Where(CutHead(areas, i, l), HeadNode(areas[i], l), i) + 1;
            j <= |out| && Huges(out[j..]) == Huges(areas[i + 1..])
  {
    hide Huges, Insert, Where;
    InsertKeepsRest(CutHead(areas, i, l), HeadNode(areas[i], l), i);
    assert CutHead(areas, i, l)[i + 1..] == areas[i + 1..];
  }

  lemma TailHuges(areas: seq<Area>, i: nat, x: nat, l: nat)
    requires i < |areas| && areas[i].kind == HugePage
    ensures var out, j := BreakTail(areas, i, x, l), Where(CutTail(areas, i, x), TailNode(areas[i], l), i) + 1;
            j <= |out| && Huges(out[j..]) == Huges(areas[i + 1..])
  {
    hide Huges, Insert, Where;
    InsertKeepsRest(CutTail(areas, i, x), TailNode(areas[i], l), i);
    assert CutTail(areas, i, x)[i + 1..] == areas[i + 1..];
  }

  lemma MiddleHuges(areas: seq<Area>, i: nat, x: nat, l: nat)
    requires i < |areas| && areas[i].kind == HugePage
    ensures var out := BreakMiddle(areas, i, x, l);
            i + 1 <= |out| && Huges(out[i + 1..]) == [areas[i].(start := l)] + Huges(areas[i + 1..])
  {
    hide Huges;
    var rest, v, above := areas[i + 1..], Area(x, l, areas[i].flags, Normal), areas[i].(start := l);
    HugesCons(v, [above] + rest);
    HugesCons(above, rest);
    assert BreakMiddle(areas, i, x, l)[i + 1..] == [v] + ([above] + rest);
  }

  predicate Splits(ar: Area, x: nat, l: nat) { ar.kind == HugePage && ar.start < x && l < ar.end }

  /** A round leaves to visit the huge areas behind its own, and what it has split off. */
  lemma RoundHuges(areas: seq<Area>, i: nat, x: nat, l: nat)
    requires i < |areas| && x < l
    ensures var (out, j) := BreakRoundOf(areas, i, x, l);
            j <= |out| &&
            Huges(out[j..]) == if Splits(areas[i], x, l) then [areas[i].(start := l)] + Huges(areas[i + 1..])
                               else Huges(areas[i + 1..])
  {
    var cur := areas[i];
    hide Huges, Insert, Where, BreakWhole, BreakHead, BreakTail, BreakMiddle, CutHead, CutTail;
    if cur.kind == HugePage {
      if cur.start >= x && cur.end <= l {
        WholeHuges(areas, i);
      } else if cur.start >= x && cur.start < l {
        HeadHuges(areas, i, l);
      } else if cur.end > x && cur.end < l {
        TailHuges(areas, i, x, l);
      } else if x >= cur.start && l < cur.end {
        MiddleHuges(areas, i, x, l);
      }
    }
  }

  /** Each round leaves less to do. */
  lemma RoundShrinks(areas: seq<Area>, i: nat, x: nat, l: nat)
    requires i < |areas| && x < l
    ensures var (out, j) := BreakRoundOf(areas, i, x, l);
            && j <= |out|
            && (Acts(out[j..], x, l) < Acts(areas[i..], x, l) ||
                (Acts(out[j..], x, l) == Acts(areas[i..], x, l) && |out| - j < |areas| - i))
            && (areas[i].kind == HugePage ==> Acts(out[j..], x, l) < Acts(areas[i..], x, l))
  {
    var cur, rest := areas[i], areas[i + 1..];
    var (out, j) := BreakRoundOf(areas, i, x, l);
    assert areas[i..] == [cur] + rest;
    ActsCons(cur, rest, x, l);
    if cur.kind == HugePage {
      hide Acts, Huges, BreakRoundOf;
      RoundHuges(areas, i, x, l);
      ActsHuges(out[j..], x, l);
      ActsHuges(rest, x, l);
      ActsCons(cur.(start := l), Huges(rest), x, l);
    }
  }

  /** The loop of `vm_area_break_hugepage` from position `i` on, on any list. */
  function BreakFrom(areas: seq<Area>, i: nat, x: nat, l: nat): seq<Area>
    requires x < l
    decreases if i < |areas| then Acts(areas[i..], x, l) else 0, |areas| - i
  {
    if i >= |areas| then areas
    else
      var (out, j) := BreakRoundOf(areas, i, x, l);
      RoundShrinks(areas, i, x, l);
      BreakFrom(out, j, x, l)
  }

  /** `vm_area_break_hugepage` */
  function Break(areas: seq<Area>, x: nat, l: nat): seq<Area>
    requires x < l
  {
    BreakFrom(areas, 0, x, l)
  }

  // ---- addresses that no round covers again ----

  ghost predicate NoneCovers(areas: seq<Area>, a: nat) { forall ar :: ar in areas ==> !Contains(ar, a) }

  lemma PushCovers(node: Area, rest: seq<Area>, a: nat)
    requires !Contains(node, a) && NoneCovers(rest, a)
    ensures NoneCovers(PushFront(node, rest), a)
  {
    assert rest != [] ==> rest[0] in rest;
  }

  /** Insertion maps no address that neither the list nor the node covers. */
  lemma {:induction false} InsertCovers(areas: seq<Area>, node: Area, a: nat)
    requires !Contains(node, a) && NoneCovers(areas, a)
    ensures NoneCovers(Insert(areas, node), a)
    decreases areas
  {
    hide PushFront;
    PushCovers(node, areas, a);
    if areas != [] {
      assert areas[0] in areas && forall ar :: ar in areas[1..] ==> ar in areas;
      InsertCovers(areas[1..], node, a);
      PushCovers(node, areas[1..], a);
      if Joins(areas[0], node) {
        PushCovers(areas[0].(end := node.end), areas[1..], a);
      }
    }
  }

  ghost predicate AllFrom(areas: seq<Area>, x: nat) { forall ar :: ar in areas ==> x <= ar.start }

  lemma {:induction false} InsertFrom(areas: seq<Area>, node: Area, x: nat)
    requires x <= node.start && AllFrom(areas, x)
    ensures AllFrom(Insert(areas, node), x)
    decreases areas
  {
    if areas != [] {
      assert areas[0] in areas && forall ar :: ar in areas[1..] ==> ar in areas;
      InsertFrom(areas[1..], node, x);
    }
  }

  /** Neither the address is covered, nor can a round cover it again: that takes an area
      across the start of the request, and an address above that. */
  ghost predicate Gone(areas: seq<Area>, x: nat, a: nat) {
    NoneCovers(areas, a) && (a <= x || NoneCovers(areas, x) || AllFrom(areas, x))
  }

  lemma RoundKeepsGone(areas: seq<Area>, i: nat, x: nat, l: nat, a: nat)
    requires i < |areas| && x < l && Gone(areas, x, a)
    ensures Gone(BreakRoundOf(areas, i, x, l).0, x, a)
  {
    RoundCovers(areas, i, x, l, a);
    if NoneCovers(areas, x) {
      RoundCovers(areas, i, x, l, x);
    }
    if AllFrom(areas, x) {
      RoundFrom(areas, i, x, l);
    }
    hide BreakRoundOf;
  }

  lemma RoundCovers(areas: seq<Area>, i: nat, x: nat, l: nat, a: nat)
    requires i < |areas| && x < l && Gone(areas, x, a)
    ensures NoneCovers(BreakRoundOf(areas, i, x, l).0, a)
  {
    var cur := areas[i];
    assert cur in areas;
    if cur.kind == HugePage {
      if cur.start >= x && cur.end <= l {
        assert forall ar :: ar in areas[i + 1..] ==> ar in areas;
        InsertCovers(areas[i + 1..], cur.(kind := Normal), a);
      } else if cur.start >= x && cur.start < l {
        var cut := CutHead(areas, i, l);
        assert forall ar :: ar in cut ==> ar in areas || ar == cur.(start := l);
        InsertCovers(cut, HeadNode(cur, l), a);
      } else if cur.end > x && cur.end < l {
        var cut := CutTail(areas, i, x);
        assert forall ar :: ar in cut ==> ar in areas || ar == cur.(end := x);
        InsertCovers(cut, TailNode(cur, l), a);
      } else if x >= cur.start && l < cur.end {
        assert forall ar :: ar in BreakMiddle(areas, i, x, l) ==>
                              ar in areas || (cur.start <= ar.start && ar.end <= cur.end);
      }
    }
  }

  lemma RoundFrom(areas: seq<Area>, i: nat, x: nat, l: nat)
    requires i < |areas| && x < l && AllFrom(areas, x)
    ensures AllFrom(BreakRoundOf(areas, i, x, l).0, x)
  {
    var cur := areas[i];
    assert cur in areas;
    if cur.kind == HugePage {
      if cur.end <= l {
        assert forall ar :: ar in areas[i + 1..] ==> ar in areas;
        InsertFrom(areas[i + 1..], cur.(kind := Normal), x);
      } else if cur.start < l {
        var cut := CutHead(areas, i, l);
        assert forall ar :: ar in cut ==> ar in areas || ar == cur.(start := l);
        InsertFrom(cut, HeadNode(cur, l), x);
      } else {
        assert forall ar :: ar in BreakMiddle(areas, i, x, l) ==> ar in areas || x <= ar.start;
      }
    }
  }

  lemma {:induction false} StaysGone(areas: seq<Area>, i: nat, x: nat, l: nat, a: nat)
    requires x < l && Gone(areas, x, a)
    ensures Lookup(BreakFrom(areas, i, x, l), a).None?
    decreases if i < |areas| then Acts(areas[i..], x, l) else 0, |areas| - i
  {
    if i < |areas| {
      RoundKeepsGone(areas, i, x, l, a);
      RoundShrinks(areas, i, x, l);
      var (out, j) := BreakRoundOf(areas, i, x, l);
      hide BreakRoundOf, Gone;
      StaysGone(out, j, x, l, a);
    } else {
      FindIn(areas, a);
    }
  }

  // ---- replacing one area of a list ----

  lemma AtIndex(areas: seq<Area>, i: nat)
    requires WellFormed(areas) && i < |areas|
    ensures WellFormed(areas[..i]) && WellFormed(areas[i + 1..]) && Sane(areas[i])
    ensures forall ar :: ar in areas[i + 1..] ==> areas[i].end <= ar.start
    ensures forall ar :: ar in areas[..i] ==> ar.end <= areas[i].start
  {
    var rest := areas[i + 1..];
    assert forall k :: 0 <= k < |rest| ==> rest[k] == areas[i + 1 + k];
  }

  /** The pieces lie in the area, and those at its ends keep its attributes. */
  ghost predicate Fills(ar: Area, pieces: seq<Area>) {
    && WellFormed(pieces) && pieces != []
    && ar.start <= pieces[0].start && pieces[|pieces| - 1].end <= ar.end
    && (pieces[0].start > ar.start || AttrOf(pieces[0]) == AttrOf(ar))
    && (pieces[|pieces| - 1].end < ar.end || AttrOf(pieces[|pieces| - 1]) == AttrOf(ar))
  }

  function Replaced(areas: seq<Area>, i: nat, pieces: seq<Area>): seq<Area>
    requires i < |areas|
  {
    areas[..i] + (pieces + areas[i + 1..])
  }

  lemma ReplaceWellFormed(areas: seq<Area>, i: nat, pieces: seq<Area>)
    requires WellFormed(areas) && i < |areas| && Fills(areas[i], pieces)
    ensures WellFormed(Replaced(areas, i, pieces))
  {
    AtIndex(areas, i);
    var pre, rest := areas[..i], areas[i + 1..];
    if rest != [] {
      assert rest[0] == areas[i + 1];
      assert !Joins(areas[i], areas[i + 1]);
    }
    Append(pieces, rest);
    if pre != [] {
      assert pre[|pre| - 1] == areas[i - 1];
      assert !Joins(areas[i - 1], areas[i]);
    }
    Append(pre, pieces + rest);
  }

  lemma PieceBounds(pieces: seq<Area>)
    requires WellFormed(pieces) && pieces != []
    ensures forall p :: p in pieces ==> pieces[0].start <= p.start && p.end <= pieces[|pieces| - 1].end
  {}

  lemma ReplaceLookup(areas: seq<Area>, i: nat, pieces: seq<Area>, a: nat)
    requires WellFormed(areas) && i < |areas| && Fills(areas[i], pieces)
    ensures Lookup(Replaced(areas, i, pieces), a) ==
            if Contains(areas[i], a) then Lookup(pieces, a) else Lookup(areas, a)
  {
    AtIndex(areas, i);
    PieceBounds(pieces);
    hide WellFormed;
    var pre, cur, rest := areas[..i], areas[i], areas[i + 1..];
    assert areas == pre + ([cur] + rest);
    FindAppend(pre, pieces + rest, a);
    FindAppend(pieces, rest, a);
    FindAppend(pre, [cur] + rest, a);
    assert ([cur] + rest)[1..] == rest;
    FindIn(pre, a);
    FindIn(pieces, a);
    FindIn(rest, a);
  }

  lemma FindFew(p: Area, q: Area, r: Area, a: nat)
    ensures Find([p], a) == if Contains(p, a) then Some(p) else None
    ensures Find([p, q, r], a) ==
            if Contains(p, a) then Some(p)
            else if Contains(q, a) then Some(q)
            else if Contains(r, a) then Some(r)
            else None
  {
    assert [p, q, r][1..] == [q, r] && [q, r][1..] == [r];
    FindAppend([q], [r], a);
    assert [q] + [r] == [q, r];
  }

  // ---- each branch ----

  lemma WholeShape(areas: seq<Area>, i: nat)
    requires WellFormed(areas) && i < |areas|
    ensures var rest, node := areas[i + 1..], areas[i].(kind := Normal);
            BreakWhole(areas, i) ==
            if rest != [] && Joins(node, rest[0]) then [node.(end := rest[0].end)] + rest[1..] else [node] + rest
  {
    AtIndex(areas, i);
  }

  lemma BreakWholeKeeps(areas: seq<Area>, i: nat, x: nat, l: nat)
    requires Breakable(areas, x, l) && i < |areas|
    ensures var out := BreakWhole(areas, i);
            && Breakable(out, x, l) && |areas| - i - 1 <= |out| <= |areas| - i
  {
    hide WellFormed, Lookup, Sane, Joins, Insert, TailCut;
    AtIndex(areas, i);
    NormalSane(areas[i]);
    InsertExact(areas[i + 1..], areas[i].(kind := Normal));
    WholeUncut(areas, i, x, l);
  }

  lemma NormalSane(ar: Area)
    requires Sane(ar)
    ensures Sane(ar.(kind := Normal))
  {}

  lemma WholeUncut(areas: seq<Area>, i: nat, x: nat, l: nat)
    requires Breakable(areas, x, l) && i < |areas|
    ensures |areas| - i - 1 <= |BreakWhole(areas, i)| <= |areas| - i
    ensures forall ar :: ar in BreakWhole(areas, i) ==> !TailCut(ar, x, l)
  {
    WholeShape(areas, i);
    hide WellFormed, BreakWhole;
    assert forall ar :: ar in areas[i + 1..] ==> ar in areas;
  }

  lemma BreakWholeLookup(areas: seq<Area>, x: nat, l: nat, a: nat)
    requires Breakable(areas, x, l) && areas != []
    requires areas[0].kind == HugePage && areas[0].start >= x && areas[0].end <= l
    ensures Broken(Lookup(BreakWhole(areas, 0), a), a, x, l) == Broken(Lookup(areas, a), a, x, l)
  {
    AtIndex(areas, 0);
    InsertExact(areas[1..], areas[0].(kind := Normal));
    FindIn(areas[1..], a);
  }

  /** Where insertion puts a node that does not join the area after it. */
  lemma InsertAt(areas: seq<Area>, i: nat, node: Area)
    requires i <= |areas|
    requires forall k :: 0 <= k < i ==> areas[k].start < node.end
    requires i < |areas| ==> areas[i].start >= node.end && !Joins(node, areas[i])
    ensures Insert(areas, node) ==
            if i > 0 && Joins(areas[i - 1], node)
            then areas[..i - 1] + [areas[i - 1].(end := node.end)] + areas[i..]
            else areas[..i] + [node] + areas[i..]
  {
    if i == 0 {
      InsertUnfolds(areas, node);
    } else {
      InsertSkips(areas, i - 1, node);
      InsertUnfolds(areas[i - 1..], node);
      assert areas[i - 1..][1..] == areas[i..] && areas[..i] == areas[..i - 1] + [areas[i - 1]];
    }
  }

  lemma CutHeadWellFormed(areas: seq<Area>, i: nat, l: nat)
    requires WellFormed(areas) && i < |areas| && areas[i].start < l < areas[i].end && l % PAGE_SIZE == 0
    ensures WellFormed(CutHead(areas, i, l))
    ensures forall ar :: ar in CutHead(areas, i, l) ==> ar in areas || ar == areas[i].(start := l)
    ensures forall ar :: ar in CutHead(areas, i, l) ==> ar.end <= areas[i].start || l <= ar.start
    ensures forall a: nat :: Lookup(CutHead(areas, i, l), a) ==
              if areas[i].start <= a < l then None else Lookup(areas, a)
  {
    AtIndex(areas, i);
    var pieces := [areas[i].(start := l)];
    ReplaceWellFormed(areas, i, pieces);
    assert CutHead(areas, i, l) == Replaced(areas, i, pieces);
    forall a: nat
      ensures Lookup(CutHead(areas, i, l), a) == if areas[i].start <= a < l then None else Lookup(areas, a)
    {
      hide WellFormed;
      ReplaceLookup(areas, i, pieces, a);
      FindFew(pieces[0], pieces[|pieces| / 2], pieces[|pieces| - 1], a);
      FindOnlyAt(areas, i, a);
    }
  }

  lemma FindOnlyAt(areas: seq<Area>, i: nat, a: nat)
    requires WellFormed(areas) && i < |areas|
    ensures Contains(areas[i], a) ==> Find(areas, a) == Some(areas[i])
  {
    if Contains(areas[i], a) {
      FindOnly(areas, areas[i], a);
    }
  }

  lemma HeadShape(areas: seq<Area>, i: nat, l: nat)
    requires WellFormed(areas) && i < |areas| && areas[i].kind == HugePage && areas[i].start < l < areas[i].end
    ensures var cut, node := CutHead(areas, i, l), Area(areas[i].start, l, areas[i].flags, Normal);
            BreakHead(areas, i, l) ==
            if i > 0 && Joins(areas[i - 1], node)
            then areas[..i - 1] + [areas[i - 1].(end := l)] + cut[i..]
            else areas[..i] + [node] + cut[i..]
  {
    var cut, node := CutHead(areas, i, l), Area(areas[i].start, l, areas[i].flags, Normal);
    InsertAt(cut, i, node);
    assert cut[..i] == areas[..i];
    assert i > 0 ==> cut[..i - 1] == areas[..i - 1];
  }

  lemma BreakHeadKeeps(areas: seq<Area>, i: nat, x: nat, l: nat)
    requires Breakable(areas, x, l) && i < |areas| && areas[i].kind == HugePage
    requires x <= areas[i].start < l < areas[i].end
    ensures var out := BreakHead(areas, i, l);
            && Breakable(out, x, l) && |areas| <= |out| <= |areas| + 1
    ensures forall a: nat :: Lookup(BreakHead(areas, i, l), a) ==
              if areas[i].start <= a < l then Some(Attr(areas[i].flags, Normal)) else Lookup(areas, a)
  {
    HeadSane(areas, i, l);
    CutHeadWellFormed(areas, i, l);
    HeadUncut(areas, i, x, l);
    hide WellFormed, TailCut, Lookup, CutHead, Insert;
    var cut, node := CutHead(areas, i, l), Area(areas[i].start, l, areas[i].flags, Normal);
    InsertExact(cut, node);
    InsertLength(cut, node);
    PlaceOrSize(areas, i, l);
  }

  lemma HeadSane(areas: seq<Area>, i: nat, l: nat)
    requires WellFormed(areas) && i < |areas| && areas[i].start < l < areas[i].end && l % PAGE_SIZE == 0
    ensures Sane(Area(areas[i].start, l, areas[i].flags, Normal))
  {
    AtIndex(areas, i);
  }

  lemma PlaceOrSize(areas: seq<Area>, i: nat, l: nat)
    requires WellFormed(areas) && i < |areas| && areas[i].kind == HugePage && areas[i].start < l < areas[i].end
    ensures |areas| <= |BreakHead(areas, i, l)| <= |areas| + 1
  {
    HeadShape(areas, i, l);
  }

  /** Nothing that the branch leaves is cut short by the request. */
  lemma HeadUncut(areas: seq<Area>, i: nat, x: nat, l: nat)
    requires Breakable(areas, x, l) && i < |areas| && areas[i].kind == HugePage
    requires x <= areas[i].start < l < areas[i].end
    ensures forall ar :: ar in BreakHead(areas, i, l) ==> !TailCut(ar, x, l)
  {
    HeadShape(areas, i, l);
    CutHeadAt(areas, i, l);
    hide WellFormed, BreakHead, CutHead;
    forall ar | ar in BreakHead(areas, i, l)
      ensures !TailCut(ar, x, l)
    {
      assert ar in areas[..i] || ar in areas[i + 1..] || ar.kind == Normal || ar == areas[i].(start := l);
    }
  }

  lemma BreakMiddleKeeps(areas: seq<Area>, i: nat, x: nat, l: nat)
    requires Breakable(areas, x, l) && i < |areas| && areas[i].kind == HugePage
    requires areas[i].start < x && l < areas[i].end
    ensures Breakable(BreakMiddle(areas, i, x, l), x, l)
    ensures forall a: nat :: Lookup(BreakMiddle(areas, i, x, l), a) ==
              if x <= a < l then Some(Attr(areas[i].flags, Normal)) else Lookup(areas, a)
  {
    AtIndex(areas, i);
    var cur := areas[i];
    var pieces := [cur.(end := x), Area(x, l, cur.flags, Normal), cur.(start := l)];
    assert BreakMiddle(areas, i, x, l) == Replaced(areas, i, pieces);
    ReplaceWellFormed(areas, i, pieces);
    forall a: nat
      ensures Lookup(BreakMiddle(areas, i, x, l), a) ==
              if x <= a < l then Some(Attr(cur.flags, Normal)) else Lookup(areas, a)
    {
      hide WellFormed;
      ReplaceLookup(areas, i, pieces, a);
      FindFew(pieces[0], pieces[|pieces| / 2], pieces[|pieces| - 1], a);
      FindOnlyAt(areas, i, a);
    }
  }

  // ---- the whole loop ----

  /** Nothing of the area is left to break. */
  predicate Settled(ar: Area, x: nat, l: nat) {
    ar.kind == Normal || ar.end <= x || l <= ar.start
  }

  /** The area is huge and ends inside the request or at its end. */
  predicate EndsIn(ar: Area, x: nat, l: nat) {
    ar.kind == HugePage && x < ar.end <= l
  }

  lemma AfterWhole(areas: seq<Area>, i: nat)
    requires WellFormed(areas) && i < |areas|
    ensures var out := BreakWhole(areas, i);
            var j := |out| - |areas| + i + 1;
            && 0 <= j <= 1 && j <= |out| && out != []
            && out[0].start == areas[i].start && out[0].kind == Normal
            && forall k :: 1 <= k < |out| ==> out[k] == areas[k + |areas| - |out|]
  {
    AtIndex(areas, i);
    WholeShape(areas, i);
  }

  lemma AfterHead(areas: seq<Area>, i: nat, x: nat, l: nat)
    requires WellFormed(areas) && i < |areas| && areas[i].kind == HugePage && areas[i].start < l < areas[i].end && x < l
    ensures var out := BreakHead(areas, i, l);
            var j := |out| - |areas| + i + 1;
            && i + 1 <= j <= i + 2 && j <= |out| && out[j..] == areas[i + 1..]
            && forall k :: 0 <= k < j ==> (k < i && out[k] == areas[k]) || Settled(out[k], x, l)
  {
    hide WellFormed, BreakHead, CutHead, Joins;
    HeadShape(areas, i, l);
    CutHeadAt(areas, i, l);
    var node, cut := Area(areas[i].start, l, areas[i].flags, Normal), areas[i].(start := l);
    var out := BreakHead(areas, i, l);
    if i > 0 && Joins(areas[i - 1], node) {
      JoinsSame(areas[i - 1], node);
      PutBefore(areas, out, i - 1, areas[i - 1].(end := l), cut, areas[i + 1..], x, l);
    } else {
      PutBefore(areas, out, i, node, cut, areas[i + 1..], x, l);
    }
  }

  lemma JoinsSame(p: Area, q: Area)
    requires Joins(p, q)
    ensures AttrOf(p) == AttrOf(q)
  {}

  /** Two settled areas behind the first `n`. */
  lemma PutBefore(areas: seq<Area>, out: seq<Area>, n: nat, p: Area, q: Area, rest: seq<Area>, x: nat, l: nat)
    requires n <= |areas| && out == areas[..n] + [p] + ([q] + rest) && Settled(p, x, l) && Settled(q, x, l)
    ensures |out| == n + 2 + |rest| && out[n + 2..] == rest
    ensures forall k :: 0 <= k < n + 2 ==> (k < n && out[k] == areas[k]) || Settled(out[k], x, l)
  {
    assert out[n] == p && out[n + 1] == q;
    hide Settled;
  }

  lemma CutHeadAt(areas: seq<Area>, i: nat, l: nat)
    requires i < |areas|
    ensures CutHead(areas, i, l)[i..] == [areas[i].(start := l)] + areas[i + 1..]
  {}

  lemma AfterMiddle(areas: seq<Area>, i: nat, x: nat, l: nat)
    requires i < |areas|
    ensures var out := BreakMiddle(areas, i, x, l);
            && |out| == |areas| + 2 && out[i + 3..] == areas[i + 1..]
            && forall k :: 0 <= k < i + 3 ==> (k < i && out[k] == areas[k]) || Settled(out[k], x, l)
  {}

  /** The two lists mean the same once broken. */
  ghost predicate SameBroken(p: seq<Area>, q: seq<Area>, x: nat, l: nat) {
    forall a: nat :: Broken(Lookup(p, a), a, x, l) == Broken(Lookup(q, a), a, x, l)
  }

  lemma HeadSameBroken(areas: seq<Area>, i: nat, x: nat, l: nat)
    requires Breakable(areas, x, l) && i < |areas| && areas[i].kind == HugePage
      && x <= areas[i].start < l < areas[i].end
    ensures SameBroken(BreakHead(areas, i, l), areas, x, l)
  {
    BreakHeadKeeps(areas, i, x, l);
    forall a: nat
      ensures Broken(Lookup(BreakHead(areas, i, l), a), a, x, l) == Broken(Lookup(areas, a), a, x, l)
    {
      FindOnlyAt(areas, i, a);
    }
  }

  lemma MiddleSameBroken(areas: seq<Area>, i: nat, x: nat, l: nat)
    requires Breakable(areas, x, l) && i < |areas| && areas[i].kind == HugePage && areas[i].start < x
      && l < areas[i].end
    ensures SameBroken(BreakMiddle(areas, i, x, l), areas, x, l)
  {
    BreakMiddleKeeps(areas, i, x, l);
    forall a: nat
      ensures Broken(Lookup(BreakMiddle(areas, i, x, l), a), a, x, l) == Broken(Lookup(areas, a), a, x, l)
    {
      FindOnlyAt(areas, i, a);
    }
  }

  lemma WholeSameBroken(areas: seq<Area>, x: nat, l: nat)
    requires Breakable(areas, x, l) && areas != []
    requires areas[0].kind == HugePage && areas[0].start >= x && areas[0].end <= l
    ensures SameBroken(BreakWhole(areas, 0), areas, x, l)
  {
    forall a: nat
      ensures Broken(Lookup(BreakWhole(areas, 0), a), a, x, l) == Broken(Lookup(areas, a), a, x, l)
    {
      BreakWholeLookup(areas, x, l, a);
    }
  }

  lemma BrokenThrough(areas: seq<Area>, mid: seq<Area>, out: seq<Area>, x: nat, l: nat)
    requires SameBroken(mid, areas, x, l)
    requires forall a: nat :: Lookup(out, a) == Broken(Lookup(mid, a), a, x, l)
    ensures forall a: nat :: Lookup(out, a) == Broken(Lookup(areas, a), a, x, l)
  {
    hide Lookup, Broken;
  }

  /** The walk may stand at position `i`: all before is settled, and no huge area still to
      visit ends in the request, except a first one that it covers. */
  ghost predicate Ready(areas: seq<Area>, i: nat, x: nat, l: nat) {
    && Breakable(areas, x, l) && i <= |areas|
    && (forall k :: 0 <= k < i ==> Settled(areas[k], x, l))
    && (forall k :: i <= k < |areas| && EndsIn(areas[k], x, l) ==> k == 0 && x <= areas[0].start)
  }

  /** A round takes the walk from `areas` at `i` to `out` at `j`. */
  ghost predicate Advances(areas: seq<Area>, i: nat, out: seq<Area>, j: nat, x: nat, l: nat)
    requires Ready(areas, i, x, l)
  {
    && Ready(out, j, x, l) && SameBroken(out, areas, x, l) && |out| - j < |areas| - i
    && BreakFrom(areas, i, x, l) == BreakFrom(out, j, x, l)
  }

  lemma ReadyWellFormed(areas: seq<Area>, i: nat, x: nat, l: nat)
    requires Ready(areas, i, x, l)
    ensures WellFormed(areas) && x < l
  {}

  lemma PassAdvances(areas: seq<Area>, i: nat, x: nat, l: nat)
    requires Ready(areas, i, x, l) && i < |areas|
    requires areas[i].kind == Normal || (areas[i].start < x && areas[i].end <= l) || l <= areas[i].start
    ensures Advances(areas, i, areas, i + 1, x, l)
  {
    AtIndex(areas, i);
    hide WellFormed;
  }

  lemma WholeAreaAdvances(areas: seq<Area>, i: nat, x: nat, l: nat) returns (j: nat)
    requires Ready(areas, i, x, l) && i < |areas|
    requires areas[i].kind == HugePage && areas[i].start >= x && areas[i].end <= l
    ensures Advances(areas, i, BreakWhole(areas, i), j, x, l)
  {
    AtIndex(areas, i);
    assert EndsIn(areas[i], x, l) && i == 0;
    WholeReady(areas, x, l);
    WholeSameBroken(areas, x, l);
    WholeUnfolds(areas, 0, x, l);
    hide WellFormed, BreakWhole, BreakFrom, SameBroken, Ready;
    j := |BreakWhole(areas, 0)| - |areas| + 1;
  }

  lemma WholeReady(areas: seq<Area>, x: nat, l: nat)
    requires Ready(areas, 0, x, l) && areas != []
    requires areas[0].kind == HugePage && areas[0].start >= x && areas[0].end <= l
    ensures var out := BreakWhole(areas, 0);
            0 <= |out| - |areas| + 1 <= 1 && Ready(out, |out| - |areas| + 1, x, l)
  {
    BreakWholeKeeps(areas, 0, x, l);
    AfterWhole(areas, 0);
    hide WellFormed, BreakWhole, Breakable;
    var out := BreakWhole(areas, 0);
    forall m | 1 <= m < |out|
      ensures !EndsIn(out[m], x, l)
    {
      assert out[m] == areas[m + |areas| - |out|];
    }
  }

  lemma HeadAreaAdvances(areas: seq<Area>, i: nat, x: nat, l: nat) returns (j: nat)
    requires Ready(areas, i, x, l) && i < |areas|
    requires areas[i].kind == HugePage && x <= areas[i].start < l < areas[i].end
    ensures Advances(areas, i, BreakHead(areas, i, l), j, x, l)
  {
    HeadUnfolds(areas, i, x, l);
    ReadyWellFormed(areas, i, x, l);
    assert x < l;
    hide WellFormed, BreakHead, SameBroken, BreakFrom, Breakable, Ready, Settled;
    var out := BreakHead(areas, i, l);
    AfterHead(areas, i, x, l);
    j := |out| - |areas| + i + 1;
    StaysReady(areas, i, out, j, x, l);
    HeadSameBroken(areas, i, x, l);
  }

  /** What is behind the visited area is as before, and what the round has left is settled. */
  lemma StaysReady(areas: seq<Area>, i: nat, out: seq<Area>, j: nat, x: nat, l: nat)
    requires Ready(areas, i, x, l) && i < |areas| && Breakable(out, x, l)
    requires j <= |out| && out[j..] == areas[i + 1..]
    requires forall k :: 0 <= k < j ==> (k < i && out[k] == areas[k]) || Settled(out[k], x, l)
    ensures Ready(out, j, x, l) && |out| - j < |areas| - i
  {
    hide Breakable, Settled;
    SuffixFrom(out, j, areas, i + 1);
    forall k | j <= k < |out|
      ensures !EndsIn(out[k], x, l)
    {
      assert out[k] == areas[k - j + i + 1];
    }
    assert |out| - j == |areas[i + 1..]|;
  }

  lemma HeadUnfolds(areas: seq<Area>, i: nat, x: nat, l: nat)
    requires Breakable(areas, x, l) && i < |areas|
    requires areas[i].kind == HugePage && x <= areas[i].start < l < areas[i].end
    ensures var out := BreakHead(areas, i, l);
            && Breakable(out, x, l) && |out| - |areas| + i + 1 >= 0 && x < l
            && BreakFrom(areas, i, x, l) == BreakFrom(out, |out| - |areas| + i + 1, x, l)
  {
    BreakHeadKeeps(areas, i, x, l);
    HeadWhere(areas, i, l);
    hide WellFormed, BreakHead, Where, Insert, CutHead, Breakable;
  }

  lemma HeadWhere(areas: seq<Area>, i: nat, l: nat)
    requires WellFormed(areas) && i < |areas| && areas[i].kind == HugePage && areas[i].start < l < areas[i].end
    ensures |BreakHead(areas, i, l)| >= |areas|
    ensures Where(CutHead(areas, i, l), HeadNode(areas[i], l), i) + 1 == AfterHeadAt(areas, i, l)
  {
    HeadShape(areas, i, l);
    EarlierStarts(areas, i);
    PlaceAt(CutHead(areas, i, l), i, HeadNode(areas[i], l));
    hide WellFormed, Place, Insert;
  }

  lemma EarlierStarts(areas: seq<Area>, i: nat)
    requires WellFormed(areas) && i < |areas|
    ensures forall k :: 0 <= k < i ==> areas[k].start < areas[i].start
  {
    AtIndex(areas, i);
    assert forall k :: 0 <= k < i ==> areas[k] in areas[..i] && Sane(areas[k]);
  }

  lemma {:induction false} PlaceAt(areas: seq<Area>, i: nat, node: Area)
    requires i <= |areas| && forall k :: 0 <= k < i ==> areas[k].start < node.end
    requires i < |areas| ==> areas[i].start >= node.end
    ensures Place(areas, node) == i
  {
    if i > 1 {
      PlaceAt(areas[1..], i - 1, node);
    }
  }

  /** The interior branch leaves two areas in front of the walk that it passes over. */
  lemma MiddleUnfolds(areas: seq<Area>, i: nat, x: nat, l: nat)
    requires x < l && i < |areas| && areas[i].kind == HugePage && areas[i].start < x && l < areas[i].end
    ensures var out := BreakMiddle(areas, i, x, l);
            BreakFrom(areas, i, x, l) == BreakFrom(out, i + 1, x, l) == BreakFrom(out, i + 3, x, l)
  {
    var out := BreakMiddle(areas, i, x, l);
    assert out[i + 1].kind == Normal && out[i + 2].start == l;
    assert BreakFrom(out, i + 1, x, l) == BreakFrom(out, i + 2, x, l);
  }

  lemma MiddleAreaAdvances(areas: seq<Area>, i: nat, x: nat, l: nat)
    requires Ready(areas, i, x, l) && i < |areas|
    requires areas[i].kind == HugePage && areas[i].start < x && l < areas[i].end
    ensures Advances(areas, i, BreakMiddle(areas, i, x, l), i + 3, x, l)
  {
    BreakMiddleKeeps(areas, i, x, l);
    AfterMiddle(areas, i, x, l);
    StaysReady(areas, i, BreakMiddle(areas, i, x, l), i + 3, x, l);
    MiddleSameBroken(areas, i, x, l);
    MiddleUnfolds(areas, i, x, l);
    hide WellFormed, BreakMiddle, SameBroken, Ready, BreakFrom;
  }

  lemma {:induction false} BreakFromExact(areas: seq<Area>, i: nat, x: nat, l: nat)
    requires Ready(areas, i, x, l)
    ensures WellFormed(BreakFrom(areas, i, x, l))
    ensures forall a: nat :: Lookup(BreakFrom(areas, i, x, l), a) == Broken(Lookup(areas, a), a, x, l)
    decreases |areas| - i
  {
    hide WellFormed, Lookup, Broken, BreakWhole, BreakHead, BreakMiddle, SameBroken, Breakable;
    ReadyWellFormed(areas, i, x, l);
    if i >= |areas| {
      AllSettled(areas, x, l);
    } else {
      var cur := areas[i];
      var out, j := areas, i + 1;
      if cur.kind == HugePage && cur.start >= x && cur.end <= l {
        out := BreakWhole(areas, i);
        j := WholeAreaAdvances(areas, i, x, l);
      } else if cur.kind == HugePage && x <= cur.start < l {
        out := BreakHead(areas, i, l);
        j := HeadAreaAdvances(areas, i, x, l);
      } else if cur.kind == HugePage && cur.start < x && l < cur.end {
        out := BreakMiddle(areas, i, x, l);
        j := i + 3;
        MiddleAreaAdvances(areas, i, x, l);
      } else {
        PassAdvances(areas, i, x, l);
      }
      hide BreakFrom, Ready;
      BreakFromExact(out, j, x, l);
      BrokenThrough(areas, out, BreakFrom(areas, i, x, l), x, l);
    }
  }

  lemma SuffixFrom(p: seq<Area>, i: nat, q: seq<Area>, j: nat)
    requires i <= |p| && j <= |q| && p[i..] == q[j..]
    ensures forall k :: i <= k < |p| ==> k - i + j < |q| && p[k] == q[k - i + j]
  {
    forall k | i <= k < |p|
      ensures k - i + j < |q| && p[k] == q[k - i + j]
    {
      assert p[k] == p[i..][k - i] && |p[i..]| == |q[j..]|;
    }
  }

  lemma AllSettled(areas: seq<Area>, x: nat, l: nat)
    requires forall k :: 0 <= k < |areas| ==> Settled(areas[k], x, l)
    ensures forall a: nat :: Broken(Lookup(areas, a), a, x, l) == Lookup(areas, a)
  {
    forall a: nat
      ensures Broken(Lookup(areas, a), a, x, l) == Lookup(areas, a)
    {
      FindIn(areas, a);
    }
  }

  lemma WholeUnfolds(areas: seq<Area>, i: nat, x: nat, l: nat)
    requires WellFormed(areas) && x < l && i < |areas|
    requires areas[i].kind == HugePage && areas[i].start >= x && areas[i].end <= l
    ensures var out := BreakWhole(areas, i);
            && |out| - |areas| + i + 1 >= 0
            && BreakFrom(areas, i, x, l) == BreakFrom(out, |out| - |areas| + i + 1, x, l)
  {
    AfterWhole(areas, i);
    WholeWhere(areas, i);
    hide WellFormed, Insert, Where;
  }

  /** After that round the walk stands at the area behind, if it was not merged into, and
      otherwise at the merged one. */
  lemma WholeWhere(areas: seq<Area>, i: nat)
    requires WellFormed(areas) && i < |areas|
    ensures Where(areas[i + 1..], areas[i].(kind := Normal), 0) == |BreakWhole(areas, i)| - |areas| + i + 1
  {
    AtIndex(areas, i);
    assert areas[i + 1..] != [] ==> areas[i + 1..][0] in areas[i + 1..];
    PlaceAt(areas[i + 1..], 0, areas[i].(kind := Normal));
    hide WellFormed, Insert, Place;
  }

  /** A round passes over an area that is normal, or outside the request, or ends where the
      request does. */
  predicate Passed(ar: Area, x: nat, l: nat) {
    ar.kind == Normal || l <= ar.start || ar.end <= x || (ar.start < x && ar.end == l)
  }

  predicate Covered(ar: Area, x: nat, l: nat) { ar.kind == HugePage && x <= ar.start && ar.end <= l }

  lemma {:induction false} PassesTo(areas: seq<Area>, i: nat, k: nat, x: nat, l: nat)
    requires x < l && i <= k <= |areas|
    requires forall m :: i <= m < k ==> Passed(areas[m], x, l) && !Covered(areas[m], x, l)
    ensures BreakFrom(areas, i, x, l) == BreakFrom(areas, k, x, l)
    decreases k - i
  {
    if i < k {
      PassesTo(areas, i + 1, k, x, l);
    }
  }

  /** A covered area that is not the first takes with it the first one, which nothing behind
      it covers. */
  lemma {:induction false} DropsFirst(areas: seq<Area>, i: nat, k: nat, x: nat, l: nat, a: nat)
    requires x < l && 0 < i <= k < |areas| && Covered(areas[k], x, l)
    requires forall m :: i <= m < k ==> Passed(areas[m], x, l) || Covered(areas[m], x, l)
    requires NoneCovers(areas[1..], a) && (a <= x || AllFrom(areas, x))
    ensures Lookup(BreakFrom(areas, i, x, l), a).None?
    decreases k - i
  {
    hide Insert, BreakWhole, BreakHead, BreakTail, BreakMiddle, Where, NoneCovers, AllFrom;
    var cur, rest := areas[i], areas[i + 1..];
    BehindAll(areas, i, x, a);
    if Covered(cur, x, l) {
      WholeIs(areas, i);
      InsertCovers(rest, cur.(kind := Normal), a);
      if AllFrom(areas, x) {
        InsertFrom(rest, cur.(kind := Normal), x);
      }
      RoundShrinks(areas, i, x, l);
      StaysGone(BreakWhole(areas, i), Where(rest, cur.(kind := Normal), 0), x, l, a);
    } else {
      DropsFirst(areas, i + 1, k, x, l, a);
    }
  }

  lemma BehindAll(areas: seq<Area>, i: nat, x: nat, a: nat)
    requires 0 < i < |areas| && NoneCovers(areas[1..], a)
    ensures NoneCovers(areas[i + 1..], a) && !Contains(areas[i], a)
    ensures AllFrom(areas, x) ==> AllFrom(areas[i + 1..], x) && x <= areas[i].start
  {
    assert areas[i] in areas[1..] && areas[i] in areas;
    assert forall ar :: ar in areas[i + 1..] ==> ar in areas[1..] && ar in areas;
  }

  lemma WholeIs(areas: seq<Area>, i: nat)
    requires i < |areas|
    ensures BreakWhole(areas, i) == Insert(areas[i + 1..], areas[i].(kind := Normal))
  {}

  /** A huge area that starts below the request and ends with it is left as it is, and so is
      the whole list. */
  lemma BreakMissesTail(areas: seq<Area>, k: nat, x: nat, l: nat)
    requires WellFormed(areas) && x < l && k < |areas|
    requires areas[k].kind == HugePage && areas[k].start < x && areas[k].end == l
    ensures Break(areas, x, l) == areas
  {
    StandsApart(areas, k);
    hide WellFormed;
    PassesTo(areas, 0, |areas|, x, l);
  }

  /** The areas before one end before it, those behind it start after it, and none is empty. */
  lemma StandsApart(areas: seq<Area>, k: nat)
    requires WellFormed(areas) && k < |areas|
    ensures forall m :: 0 <= m < |areas| ==> areas[m].start < areas[m].end
    ensures forall m :: 0 <= m < k ==> areas[m].end <= areas[k].start
    ensures forall m :: k < m < |areas| ==> areas[k].end <= areas[m].start
  {
    assert forall m :: 0 <= m < |areas| ==> Sane(areas[m]);
  }

  /** The rounds before the one that cuts an area short change nothing. */
  lemma ReachesTail(areas: seq<Area>, t: nat, x: nat, l: nat)
    requires WellFormed(areas) && x < l && t < |areas| && TailCut(areas[t], x, l)
    ensures Break(areas, x, l) ==
            BreakFrom(BreakTail(areas, t, x, l), Where(CutTail(areas, t, x), TailNode(areas[t], l), t) + 1, x, l)
  {
    StandsApart(areas, t);
    hide WellFormed, Where;
    PassesTo(areas, 0, t, x, l);
  }

  /** The call unmaps the part inside the request of a huge area that the request cuts short. */
  lemma BreakTailLoses(areas: seq<Area>, t: nat, x: nat, l: nat, a: nat)
    requires WellFormed(areas) && t < |areas| && TailCut(areas[t], x, l) && x <= a < areas[t].end
    ensures Lookup(areas, a) == Some(Attr(areas[t].flags, HugePage))
    ensures Lookup(Break(areas, x, l), a).None?
  {
    FindOnly(areas, areas[t], a);
    ReachesTail(areas, t, x, l);
    CutTailCovers(areas, t, x, l, a);
    CutTailCovers(areas, t, x, l, x);
    StaysGone(BreakTail(areas, t, x, l), Where(CutTail(areas, t, x), TailNode(areas[t], l), t) + 1, x, l, a);
  }

  lemma CutTailCovers(areas: seq<Area>, t: nat, x: nat, l: nat, a: nat)
    requires WellFormed(areas) && t < |areas| && TailCut(areas[t], x, l) && x <= a < areas[t].end
    ensures NoneCovers(BreakTail(areas, t, x, l), a)
  {
    StandsApart(areas, t);
    var cut := CutTail(areas, t, x);
    forall ar | ar in cut
      ensures !Contains(ar, a)
    {
      var m :| 0 <= m < |cut| && cut[m] == ar;
      assert m != t ==> cut[m] == areas[m];
    }
    InsertCovers(cut, TailNode(areas[t], l), a);
  }

  /** A call that covers a huge area other than the first loses the first area of the list. */
  lemma BreakLosesFirst(areas: seq<Area>, k: nat, x: nat, l: nat)
    requires WellFormed(areas) && x < l && 0 < k < |areas| && Covered(areas[k], x, l)
    ensures Lookup(areas, areas[0].start) == Some(AttrOf(areas[0]))
    ensures Lookup(Break(areas, x, l), areas[0].start).None?
  {
    StandsApart(areas, 0);
    StandsApart(areas, k);
    FindOnly(areas, areas[0], areas[0].start);
    if t: nat :| t < k && TailCut(areas[t], x, l) {
      TailThenDrops(areas, t, k, x, l);
    } else if Covered(areas[0], x, l) {
      WholeThenDrops(areas, k, x, l);
    } else {
      hide WellFormed;
      PassesTo(areas, 0, 1, x, l);
      DropsFirst(areas, 1, k, x, l, areas[0].start);
    }
  }

  lemma WholeThenDrops(areas: seq<Area>, k: nat, x: nat, l: nat)
    requires WellFormed(areas) && x < l && 0 < k < |areas| && Covered(areas[k], x, l) && Covered(areas[0], x, l)
    ensures Lookup(Break(areas, x, l), areas[0].start).None?
  {
    var out := BreakWhole(areas, 0);
    var j := |out| - |areas| + 1;
    AfterWhole(areas, 0);
    WholeUnfolds(areas, 0, x, l);
    WholeLeaves(areas, k, x, l);
    WholeAbove(areas, x);
    hide *;
    PassesTo(out, j, 1, x, l);
    DropsFirst(out, 1, k + j - 1, x, l, areas[0].start);
  }

  /** After a round that breaks the first area, the rest of the list is as before. */
  lemma WholeLeaves(areas: seq<Area>, k: nat, x: nat, l: nat)
    requires WellFormed(areas) && x < l && 0 < k < |areas| && Covered(areas[k], x, l) && Covered(areas[0], x, l)
    ensures var out := BreakWhole(areas, 0);
            var j := |out| - |areas| + 1;
            && 0 <= j <= 1 <= k + j - 1 < |out| && Covered(out[k + j - 1], x, l)
            && (forall m :: j <= m < 1 ==> Passed(out[m], x, l) && !Covered(out[m], x, l))
            && (forall m :: 1 <= m < k + j - 1 ==> Passed(out[m], x, l) || Covered(out[m], x, l))
  {
    hide WellFormed, BreakWhole, Passed, Covered;
    AfterWhole(areas, 0);
    var out := BreakWhole(areas, 0);
    var d := |areas| - |out|;
    NormalPasses(out[0], x, l);
    if k == 1 {
      WholeBeforeHuge(areas, x, l);
    }
    forall m | 1 <= m < k - d
      ensures Passed(out[m], x, l) || Covered(out[m], x, l)
    {
      assert out[m] == areas[m + d];
      BetweenCovered(areas, m + d, k, x, l);
    }
  }

  lemma WholeBeforeHuge(areas: seq<Area>, x: nat, l: nat)
    requires WellFormed(areas) && |areas| > 1 && Covered(areas[1], x, l)
    ensures |BreakWhole(areas, 0)| == |areas|
  {
    assert Sane(areas[0]);
    assert areas[1..][0] == areas[1];
    InsertUnfolds(areas[1..], areas[0].(kind := Normal));
    hide WellFormed, Insert;
  }

  lemma NormalPasses(ar: Area, x: nat, l: nat)
    requires ar.kind == Normal
    ensures Passed(ar, x, l) && !Covered(ar, x, l)
  {}

  lemma BetweenCovered(areas: seq<Area>, m: nat, k: nat, x: nat, l: nat)
    requires WellFormed(areas) && x < l && 0 < m < k < |areas|
    requires Covered(areas[0], x, l) && Covered(areas[k], x, l)
    ensures Passed(areas[m], x, l) || Covered(areas[m], x, l)
  {
    StandsApart(areas, 0);
    StandsApart(areas, k);
    hide WellFormed;
  }

  lemma WholeAbove(areas: seq<Area>, x: nat)
    requires WellFormed(areas) && areas != [] && x <= areas[0].start
    ensures NoneCovers(BreakWhole(areas, 0)[1..], areas[0].start) && AllFrom(BreakWhole(areas, 0), x)
  {
    hide WellFormed, BreakWhole;
    AfterWhole(areas, 0);
    StandsApart(areas, 0);
    var out := BreakWhole(areas, 0);
    forall m | 1 <= m < |out|
      ensures areas[0].start < out[m].start
    {
      assert out[m] == areas[m + |areas| - |out|];
    }
  }

  lemma TailThenDrops(areas: seq<Area>, t: nat, k: nat, x: nat, l: nat)
    requires WellFormed(areas) && x < l && t < k < |areas| && Covered(areas[k], x, l) && TailCut(areas[t], x, l)
    ensures Lookup(Break(areas, x, l), areas[0].start).None?
  {
    hide *;
    ReachesTail(areas, t, x, l);
    StandsApart(areas, 0);
    TailLeaves(areas, t, k, x, l);
    TailAbove(areas, t, k, x, l);
    TailCutStarts(areas, t, x, l);
    DropsFirst(BreakTail(areas, t, x, l), t + 1, k, x, l, areas[0].start);
  }

  lemma TailCutStarts(areas: seq<Area>, t: nat, x: nat, l: nat)
    requires WellFormed(areas) && t < |areas| && TailCut(areas[t], x, l)
    ensures areas[0].start <= x
  {
    StandsApart(areas, 0);
  }

  /** After the round that cuts an area short, the areas up to a covered one are as before. */
  lemma TailLeaves(areas: seq<Area>, t: nat, k: nat, x: nat, l: nat)
    requires WellFormed(areas) && x < l && t < k < |areas| && Covered(areas[k], x, l) && TailCut(areas[t], x, l)
    ensures Where(CutTail(areas, t, x), TailNode(areas[t], l), t) == t
    ensures var out := BreakTail(areas, t, x, l);
            && k < |out| && Covered(out[k], x, l)
            && forall m :: t < m < k ==> Passed(out[m], x, l) || Covered(out[m], x, l)
  {
    StandsApart(areas, t);
    StandsApart(areas, k);
    hide WellFormed, Insert, Where;
    var cut, node := CutTail(areas, t, x), TailNode(areas[t], l);
    TailPlace(cut, k, node);
    forall m | t < m < k
      ensures Passed(BreakTail(areas, t, x, l)[m], x, l) || Covered(BreakTail(areas, t, x, l)[m], x, l)
    {
      assert BreakTail(areas, t, x, l)[m] == areas[m];
    }
  }

  lemma TailAbove(areas: seq<Area>, t: nat, k: nat, x: nat, l: nat)
    requires WellFormed(areas) && x < l && t < k < |areas| && Covered(areas[k], x, l) && TailCut(areas[t], x, l)
    ensures BreakTail(areas, t, x, l) != [] && NoneCovers(BreakTail(areas, t, x, l)[1..], areas[0].start)
  {
    var cut, node, a := CutTail(areas, t, x), TailNode(areas[t], l), areas[0].start;
    TailStarts(areas, t, k, x, l);
    CutsAbove(cut, k, a);
    TailPlace(cut, k, node);
    hide WellFormed, Insert, Where, CutTail;
    InsertCovers(cut[k..], node, a);
    assert BreakTail(areas, t, x, l)[1..] == cut[1..k] + Insert(cut[k..], node);
  }

  lemma TailStarts(areas: seq<Area>, t: nat, k: nat, x: nat, l: nat)
    requires WellFormed(areas) && x < l && t < k < |areas| && Covered(areas[k], x, l) && TailCut(areas[t], x, l)
    ensures var cut := CutTail(areas, t, x);
            && |cut| == |areas| && cut[k] == areas[k]
            && (forall m :: 1 <= m < |cut| ==> areas[0].start < cut[m].start)
            && (forall m :: 0 <= m <= k ==> cut[m].start < l)
    ensures areas[0].start < areas[t].end
  {
    StandsApart(areas, 0);
    StandsApart(areas, t);
    StandsApart(areas, k);
    hide WellFormed;
    assert forall m :: 0 <= m < |areas| ==> CutTail(areas, t, x)[m].start == areas[m].start;
  }

  lemma CutsAbove(areas: seq<Area>, k: nat, a: nat)
    requires 0 < k <= |areas| && forall m :: 1 <= m < |areas| ==> a < areas[m].start
    ensures NoneCovers(areas[1..k], a) && NoneCovers(areas[k..], a)
  {}

  /** Insertion leaves alone a huge area that starts before the end of a normal node, and all
      before it. */
  lemma TailPlace(areas: seq<Area>, k: nat, node: Area)
    requires k < |areas| && areas[k].kind == HugePage && node.kind == Normal
    requires forall m :: 0 <= m <= k ==> areas[m].start < node.end
    ensures Insert(areas, node) == areas[..k] + Insert(areas[k..], node)
    ensures k < |Insert(areas, node)| && Insert(areas, node)[k] == areas[k]
    ensures forall t :: 0 <= t <= k ==> Where(areas, node, t) == t
  {
    InsertSkips(areas, k, node);
    PlaceBehind(areas, k, node);
  }

  lemma {:induction false} PlaceBehind(areas: seq<Area>, k: nat, node: Area)
    requires k < |areas| && forall m :: 0 <= m <= k ==> areas[m].start < node.end
    ensures Place(areas, node) > k
  {
    if k > 0 {
      PlaceBehind(areas[1..], k - 1, node);
    }
  }

  ghost predicate BrokenExactly(areas: seq<Area>, out: seq<Area>, x: nat, l: nat) {
    forall a: nat :: Lookup(out, a) == Broken(Lookup(areas, a), a, x, l)
  }

  /** No huge area ends inside the request or at its end, except the first area of the
      list when the request covers it. */
  ghost predicate BreakFits(areas: seq<Area>, x: nat, l: nat) {
    forall k :: 0 <= k < |areas| && EndsIn(areas[k], x, l) ==> k == 0 && x <= areas[0].start
  }

  /** The call turns exactly the huge addresses of the request into normal ones if and only
      if `BreakFits`. */
  lemma BreakExactIff(areas: seq<Area>, x: nat, l: nat)
    requires WellFormed(areas) && x < l && x % PAGE_SIZE == 0 && l % PAGE_SIZE == 0
    ensures BrokenExactly(areas, Break(areas, x, l), x, l) <==> BreakFits(areas, x, l)
    ensures BreakFits(areas, x, l) ==> WellFormed(Break(areas, x, l))
  {
    if BreakFits(areas, x, l) {
      FitsReady(areas, x, l);
      BreakFromExact(areas, 0, x, l);
    } else {
      hide WellFormed, Break, Find;
      var k :| 0 <= k < |areas| && EndsIn(areas[k], x, l) && !(k == 0 && x <= areas[0].start);
      if areas[k].start >= x {
        BreakLosesFirst(areas, k, x, l);
        assert Broken(Some(AttrOf(areas[0])), areas[0].start, x, l).Some?;
      } else {
        FindOnlyAt(areas, k, x);
        if areas[k].end == l {
          BreakMissesTail(areas, k, x, l);
        } else {
          BreakTailLoses(areas, k, x, l, x);
        }
        assert Broken(Lookup(areas, x), x, x, l) != Lookup(Break(areas, x, l), x);
      }
    }
  }

  lemma FitsReady(areas: seq<Area>, x: nat, l: nat)
    requires WellFormed(areas) && x < l && x % PAGE_SIZE == 0 && l % PAGE_SIZE == 0 && BreakFits(areas, x, l)
    ensures Ready(areas, 0, x, l)
  {
    forall ar | ar in areas
      ensures !TailCut(ar, x, l)
    {
      var k :| 0 <= k < |areas| && areas[k] == ar;
    }
  }

  lemma Between(areas: seq<Area>, i: nat, j: nat)
    requires WellFormed(areas) && i < j < |areas|
    ensures areas[i].end < areas[j].start || (j == i + 1 && !Joins(areas[i], areas[j]))
  {
    assert areas[i].end <= areas[i + 1].start && Sane(areas[i + 1]);
    assert i + 1 < j ==> areas[i + 1].end <= areas[j].start;
  }

  /** In a well-formed list, neighbouring addresses with the same attributes lie in one area. */
  lemma NoSeam(areas: seq<Area>, a: nat)
    requires WellFormed(areas) && a > 0
    requires Lookup(areas, a - 1).Some? && Lookup(areas, a - 1) == Lookup(areas, a)
    ensures Find(areas, a - 1) == Find(areas, a)
  {
    FindIn(areas, a - 1);
    FindIn(areas, a);
    var i :| 0 <= i < |areas| && areas[i] == Find(areas, a - 1).value;
    var j :| 0 <= j < |areas| && areas[j] == Find(areas, a).value;
    if i < j {
      Between(areas, i, j);
    }
  }

  /** Breaking a range that lies in one huge area and making it huge again with the same
      protection restores the list, node for node. */
  lemma BreakThenMakeHuge(areas: seq<Area>, x: nat, l: nat, prot: nat)
    requires WellFormed(areas) && x < l <= TOP && x % PAGE_SIZE == 0 && l % PAGE_SIZE == 0 && BreakFits(areas, x, l)
    requires forall a: nat :: x <= a < l ==> Lookup(areas, a) == Some(Attr(prot, HugePage))
    ensures MakeHuge(Break(areas, x, l), x, l, prot) == areas
  {
    var broken := Break(areas, x, l);
    BreakExactIff(areas, x, l);
    NoneStraddles(areas, broken, x, l, prot);
    hide WellFormed, Break, MakeHuge, Lookup, Straddles;
    MakeHugeExactIff(broken, x, l, prot);
    Canonical(MakeHuge(broken, x, l, prot), areas);
  }

  /** A range that was all of one kind and is now all of the other has no area across its end. */
  lemma NoneStraddles(areas: seq<Area>, broken: seq<Area>, x: nat, l: nat, prot: nat)
    requires WellFormed(broken) && x < l
    requires forall a: nat :: x <= a < l ==> Lookup(areas, a) == Some(Attr(prot, HugePage))
    requires forall a: nat :: Lookup(broken, a) == Broken(Lookup(areas, a), a, x, l)
    ensures forall ar :: ar in broken ==>
              !Straddles(ar, x, l) && (ar.end > x && l > ar.start ==> ar.kind == Normal)
  {
    SaneAreas(broken);
    forall ar | ar in broken
      ensures !Straddles(ar, x, l) && (ar.end > x && l > ar.start ==> ar.kind == Normal)
    {
      if ar.end > x && l > ar.start {
        var a := if ar.start > x then ar.start else x;
        FindOnly(broken, ar, a);
        assert Lookup(broken, a) == Some(Attr(prot, Normal));
      }
      if Straddles(ar, x, l) {
        FindOnly(broken, ar, ar.start);
        assert Lookup(broken, ar.start - 1) == Some(Attr(prot, Normal)) == Lookup(broken, ar.start);
        NoSeam(broken, ar.start);
        FindIn(broken, ar.start - 1);
      }
    }
  }
}
