/** The list of mapped areas as a value: what it says of each address, and insertion. */
module Areas {
  import opened Words

  const MMAP_START := 0x1_8020_0000
  /** End of the dummy node at the head of every list. */
  const DUMMY_END := MMAP_START + PAGE_SIZE

  datatype Area = Area(start: nat, end: nat, flags: nat, kind: Kind)

  /** What the list says of a mapped address. */
  datatype Attr = Attr(flags: nat, kind: Kind)

  function AttrOf(ar: Area): Attr { Attr(ar.flags, ar.kind) }

  predicate Contains(ar: Area, a: nat) { ar.start <= a < ar.end }

  /** The walk of `vm_area_pagefault`: the first area that contains the address. */
  function Find(areas: seq<Area>, a: nat): Option<Area> {
    if areas == [] then None
    else if Contains(areas[0], a) then Some(areas[0])
    else Find(areas[1..], a)
  }

  function Lookup(areas: seq<Area>, a: nat): Option<Attr> {
    match Find(areas, a)
    case None => None
    case Some(ar) => Some(AttrOf(ar))
  }

  predicate Disjoint(p: Area, q: Area) { p.end <= q.start || q.end <= p.start }

  /** The test that makes two neighbours one area. */
  predicate Joins(p: Area, q: Area) {
    p.end == q.start && p.flags == q.flags && p.kind == q.kind
  }

  ghost predicate Sorted(areas: seq<Area>) {
    forall i, j :: 0 <= i < j < |areas| ==> areas[i].end <= areas[j].start
  }

  /** End of the 48-bit space that the page table covers. */
  const TOP := PAGES * PAGE_SIZE

  predicate Sane(ar: Area) {
    ar.start < ar.end <= TOP && ar.start % PAGE_SIZE == 0 && ar.end % PAGE_SIZE == 0
  }

  /** No two neighbours could be one area. */
  ghost predicate Merged(areas: seq<Area>) {
    forall i :: 0 <= i < |areas| - 1 ==> !Joins(areas[i], areas[i + 1])
  }

  /** Sorted, pairwise disjoint, non-empty, page-aligned and maximally merged. */
  ghost predicate WellFormed(areas: seq<Area>) {
    && Sorted(areas) && Merged(areas)
    && forall i :: 0 <= i < |areas| ==> Sane(areas[i])
  }

  lemma Tail(areas: seq<Area>)
    requires WellFormed(areas) && areas != []
    ensures WellFormed(areas[1..])
    ensures forall ar :: ar in areas[1..] ==> areas[0].end <= ar.start
    ensures |areas| > 1 ==> !Joins(areas[0], areas[1])
  {
    var rest := areas[1..];
    assert forall i :: 0 <= i < |rest| ==> rest[i] == areas[i + 1];
  }

  lemma Cons(ar: Area, rest: seq<Area>)
    requires Sane(ar) && WellFormed(rest)
    requires rest != [] ==> ar.end <= rest[0].start && !Joins(ar, rest[0])
    ensures WellFormed([ar] + rest)
  {
    var areas := [ar] + rest;
    assert forall i :: 0 < i < |areas| ==> areas[i] == rest[i - 1];
  }

  // ---- what lookup finds ----

  lemma {:induction false} FindIn(areas: seq<Area>, a: nat)
    ensures Find(areas, a).Some? ==> Find(areas, a).value in areas && Contains(Find(areas, a).value, a)
    ensures Find(areas, a).None? ==> forall ar :: ar in areas ==> !Contains(ar, a)
  {
    if areas != [] && !Contains(areas[0], a) {
      FindIn(areas[1..], a);
      assert areas == [areas[0]] + areas[1..];
    }
  }

  /** In a sorted list an address lies in at most one area, and lookup finds it. */
  lemma {:induction false} FindOnly(areas: seq<Area>, ar: Area, a: nat)
    requires WellFormed(areas) && ar in areas && Contains(ar, a)
    ensures Find(areas, a) == Some(ar)
  {
    Tail(areas);
    if ar != areas[0] {
      assert ar in areas[1..];
      FindOnly(areas[1..], ar, a);
    }
  }

  lemma {:induction false} FindAppend(p: seq<Area>, q: seq<Area>, a: nat)
    ensures Find(p + q, a) == if Find(p, a).Some? then Find(p, a) else Find(q, a)
  {
    if p == [] {
      assert p + q == q;
    } else {
      assert (p + q)[1..] == p[1..] + q;
      FindAppend(p[1..], q, a);
    }
  }

  ghost predicate SameLookup(p: seq<Area>, q: seq<Area>) {
    forall a: nat :: Lookup(p, a) == Lookup(q, a)
  }

  /** A well-formed list is determined by what it says of each address. */
  lemma {:induction false} Canonical(p: seq<Area>, q: seq<Area>)
    requires WellFormed(p) && WellFormed(q) && SameLookup(p, q)
    ensures p == q
    decreases |p|
  {
    if p == [] && q != [] {
      NotLost(q, p);
    }
    if p != [] {
      NotLost(p, q);
      FirstNotLater(p, q);
      FirstNotLater(q, p);
      assert Lookup(p, p[0].start) == Lookup(q, p[0].start);
      FirstNotLonger(p, q);
      FirstNotLonger(q, p);
      assert p[0] == q[0];
      Tail(p);
      Tail(q);
      forall a: nat
        ensures Lookup(p[1..], a) == Lookup(q[1..], a)
      {
        assert Lookup(p, a) == Lookup(q, a);
        FindIn(p[1..], a);
        FindIn(q[1..], a);
      }
      Canonical(p[1..], q[1..]);
    }
  }

  lemma NotLost(p: seq<Area>, q: seq<Area>)
    requires WellFormed(p) && SameLookup(p, q) && p != []
    ensures q != []
  {
    assert Lookup(q, p[0].start) == Lookup(p, p[0].start);
  }

  lemma FirstNotLater(p: seq<Area>, q: seq<Area>)
    requires WellFormed(p) && WellFormed(q) && SameLookup(p, q) && p != [] && q != []
    ensures p[0].start <= q[0].start
  {
    assert Lookup(q, q[0].start).Some?;
    assert Lookup(p, q[0].start) == Lookup(q, q[0].start);
    FindIn(p, q[0].start);
  }

  lemma FirstNotLonger(p: seq<Area>, q: seq<Area>)
    requires WellFormed(p) && WellFormed(q) && SameLookup(p, q) && p != [] && q != []
    requires p[0].start == q[0].start && AttrOf(p[0]) == AttrOf(q[0])
    ensures p[0].end <= q[0].end
  {
    var a := q[0].end;
    Tail(q);
    FindIn(q[1..], a);
    assert Lookup(p, a) == Lookup(q, a);
  }

  // ---- insertion ----

  /** Put a node before `rest`, merging it with the first node when the two join. */
  function PushFront(node: Area, rest: seq<Area>): seq<Area> {
    if rest != [] && Joins(node, rest[0]) then [node.(end := rest[0].end)] + rest[1..]
    else [node] + rest
  }

  /** A node put behind `head` merges with the neighbours it joins, on either side. */
  function PutBehind(head: Area, node: Area, rest: seq<Area>): seq<Area> {
    if Joins(head, node) then PushFront(head.(end := node.end), rest) else [head] + PushFront(node, rest)
  }

  /** `sorted_Insert`: find the last area that starts before the node ends, put the node
      after it, and merge with the neighbours on both sides. */
  function Insert(areas: seq<Area>, node: Area): seq<Area> {
    if areas == [] || areas[0].start >= node.end then PushFront(node, areas)
    else if |areas| > 1 && areas[1].start < node.end then [areas[0]] + Insert(areas[1..], node)
    else PutBehind(areas[0], node, areas[1..])
  }

  /** How many areas insertion puts a node behind. */
  function Place(areas: seq<Area>, node: Area): (p: nat)
    ensures p <= |areas|
  {
    if areas == [] || areas[0].start >= node.end then 0
    else if |areas| > 1 && areas[1].start < node.end then 1 + Place(areas[1..], node)
    else 1
  }

  lemma {:induction false} InsertLength(areas: seq<Area>, node: Area)
    ensures |areas| - 1 <= |Insert(areas, node)| <= |areas| + 1
    ensures Place(areas, node) == 0 ==> |Insert(areas, node)| >= |areas|
  {
    if areas != [] {
      InsertLength(areas[1..], node);
    }
  }

  /** The position, after insertion, of the area at position `c`. */
  function Where(areas: seq<Area>, node: Area, c: nat): (w: nat)
  {
    InsertLength(areas, node);
    if Place(areas, node) > c then c else c + |Insert(areas, node)| - |areas|
  }

  lemma PushFrontWellFormed(node: Area, rest: seq<Area>)
    requires Sane(node) && WellFormed(rest) && (rest != [] ==> node.end <= rest[0].start)
    ensures WellFormed(PushFront(node, rest))
    ensures PushFront(node, rest)[0].start == node.start && AttrOf(PushFront(node, rest)[0]) == AttrOf(node)
  {
    if rest != [] && Joins(node, rest[0]) {
      Tail(rest);
      var whole := node.(end := rest[0].end);
      Cons(whole, rest[1..]);
    } else {
      Cons(node, rest);
    }
  }

  lemma InsertHead(areas: seq<Area>, node: Area)
    requires WellFormed(areas) && Sane(node) && areas != [] && Disjoint(areas[0], node)
    ensures var head := Insert(areas, node)[0];
            if areas[0].start >= node.end then head.start == node.start
            else && head.start == areas[0].start && AttrOf(head) == AttrOf(areas[0])
                 && (head.end == areas[0].end || Joins(areas[0], node))
  {
    Tail(areas);
  }

  lemma {:induction false} InsertWellFormed(areas: seq<Area>, node: Area)
    requires WellFormed(areas) && Sane(node) && forall ar :: ar in areas ==> Disjoint(ar, node)
    ensures WellFormed(Insert(areas, node))
  {
    if areas == [] || areas[0].start >= node.end {
      PushFrontWellFormed(node, areas);
    } else {
      Tail(areas);
      var head, rest := areas[0], areas[1..];
      assert head in areas;
      if |areas| > 1 && areas[1].start < node.end {
        assert areas[1] in areas;
        InsertWellFormed(rest, node);
        InsertHead(rest, node);
        Cons(head, Insert(rest, node));
      } else if Joins(head, node) {
        PushFrontWellFormed(head.(end := node.end), rest);
      } else {
        PushFrontWellFormed(node, rest);
        Cons(head, PushFront(node, rest));
      }
    }
  }

  lemma PushFrontFinds(node: Area, rest: seq<Area>, a: nat)
    requires WellFormed(rest) && node.start < node.end && (rest != [] ==> node.end <= rest[0].start)
    ensures Lookup(PushFront(node, rest), a) ==
            if Contains(node, a) then Some(AttrOf(node)) else Lookup(rest, a)
    ensures Contains(node, a) ==> Lookup(rest, a).None?
  {
    if rest == [] {
      assert [node][1..] == [];
    } else {
      Tail(rest);
      assert Sane(rest[0]);
      assert ([node.(end := rest[0].end)] + rest[1..])[1..] == rest[1..] && ([node] + rest)[1..] == rest;
      FindIn(rest[1..], a);
    }
  }

  /** Wherever the node lies, the areas that were there keep their addresses, and it gets the
      others of its own. */
  lemma {:induction false} InsertFinds(areas: seq<Area>, node: Area, a: nat)
    requires WellFormed(areas) && node.start < node.end
    ensures Lookup(Insert(areas, node), a) ==
            if Lookup(areas, a).Some? then Lookup(areas, a)
            else if Contains(node, a) then Some(AttrOf(node)) else None
  {
    if areas == [] || areas[0].start >= node.end {
      PushFrontFinds(node, areas, a);
    } else {
      Tail(areas);
      var head, rest := areas[0], areas[1..];
      assert Sane(head);
      hide WellFormed, PushFront;
      if |areas| > 1 && areas[1].start < node.end {
        InsertFinds(rest, node, a);
        assert ([head] + Insert(rest, node))[1..] == Insert(rest, node);
      } else if Joins(head, node) {
        PushFrontFinds(head.(end := node.end), rest, a);
      } else {
        PushFrontFinds(node, rest, a);
        assert ([head] + PushFront(node, rest))[1..] == PushFront(node, rest);
      }
    }
  }

  /** Inserting a node that overlaps no area keeps the list well formed and adds exactly
      the node's addresses, whichever neighbours it merges with. */
  lemma InsertExact(areas: seq<Area>, node: Area)
    requires WellFormed(areas) && Sane(node) && forall ar :: ar in areas ==> Disjoint(ar, node)
    ensures WellFormed(Insert(areas, node))
    ensures forall a: nat :: Lookup(Insert(areas, node), a) ==
              if Contains(node, a) then Some(AttrOf(node)) else Lookup(areas, a)
  {
    InsertWellFormed(areas, node);
    forall a: nat
      ensures Lookup(Insert(areas, node), a) == if Contains(node, a) then Some(AttrOf(node)) else Lookup(areas, a)
    {
      InsertFinds(areas, node, a);
      FindIn(areas, a);
    }
  }

  ghost predicate Apart(areas: seq<Area>, node: Area) { forall ar :: ar in areas ==> Disjoint(ar, node) }

  /** A node that overlaps an area ends up out of order behind it. */
  lemma {:induction false} InsertUnsorted(areas: seq<Area>, node: Area)
    requires WellFormed(areas) && node.start < node.end && !Apart(areas, node)
    ensures !WellFormed(Insert(areas, node))
  {
    Tail(areas);
    var head, rest, out := areas[0], areas[1..], Insert(areas, node);
    assert Sane(head) && (|areas| > 1 ==> Sane(areas[1]) && areas[1] in rest);
    assert areas == [head] + rest;
    assert head.start >= node.end ==> Apart(areas, node);
    if |areas| > 1 && head.start < node.end && areas[1].start < node.end {
      InsertUnsorted(rest, node);
      assert out[1..] == Insert(rest, node);
      hide Insert;
      if WellFormed(out) {
        Tail(out);
      }
    } else if head.start < node.end {
      assert head.end > node.start;
      assert out == [head] + PushFront(node, rest) && out[1].start == node.start;
      assert out[0].end > out[1].start && !Sorted(out);
    }
  }

  /** Some area reaches to the end of what was inserted. */
  lemma {:induction false} InsertReaches(areas: seq<Area>, node: Area)
    requires WellFormed(areas)
    ensures exists ar :: ar in Insert(areas, node) && ar.end >= node.end
  {
    var out := Insert(areas, node);
    if areas != [] && areas[0].start < node.end {
      Tail(areas);
      if |areas| > 1 && areas[1].start < node.end {
        InsertReaches(areas[1..], node);
        var ar :| ar in Insert(areas[1..], node) && ar.end >= node.end;
        assert ar in out;
      } else {
        assert |areas| > 1 ==> Sane(areas[1]);
        assert if Joins(areas[0], node) then out[0].end >= node.end else out[1].end >= node.end;
      }
    } else {
      assert areas != [] ==> Sane(areas[0]);
      assert out[0].end >= node.end;
    }
  }

  /** Inserting keeps the list well formed if and only if the node overlaps no area and does
      not reach beyond the address space. */
  lemma InsertWellFormedIff(areas: seq<Area>, node: Area)
    requires WellFormed(areas) && node.start < node.end && node.start % PAGE_SIZE == 0 && node.end % PAGE_SIZE == 0
    ensures WellFormed(Insert(areas, node)) <==> Apart(areas, node) && node.end <= TOP
  {
    if !Apart(areas, node) {
      InsertUnsorted(areas, node);
    } else if node.end <= TOP {
      InsertWellFormed(areas, node);
    } else {
      InsertReaches(areas, node);
      var ar :| ar in Insert(areas, node) && ar.end >= node.end;
      assert !Sane(ar);
    }
  }

  lemma Assoc<T>(a: seq<T>, b: seq<T>, c: seq<T>)
    ensures a + b + c == a + (b + c)
  {}

  /** A sequence with `x` put in at `k`, and one without the element at `k`. */
  function PlusAt<T>(s: seq<T>, k: nat, x: T): seq<T>
    requires k <= |s|
  {
    s[..k] + [x] + s[k..]
  }

  function MinusAt<T>(s: seq<T>, k: nat): seq<T>
    requires k < |s|
  {
    s[..k] + s[k + 1..]
  }

  lemma PlusIs<T>(s: seq<T>, k: nat, x: T)
    requires k <= |s|
    ensures var m := PlusAt(s, k, x);
            && |m| == |s| + 1
            && forall i :: 0 <= i < |m| ==> m[i] == if i < k then s[i] else if i == k then x else s[i - 1]
  {}

  lemma MinusIs<T>(s: seq<T>, k: nat)
    requires k < |s|
    ensures var m := MinusAt(s, k);
            |m| == |s| - 1 && forall i :: 0 <= i < |m| ==> m[i] == if i < k then s[i] else s[i + 1]
  {}

  /** Insertion leaves alone the areas it walks past. */
  lemma {:induction false} InsertSkips(areas: seq<Area>, h: nat, node: Area)
    requires h < |areas| && areas[0].start < node.end
    requires forall k :: 0 < k <= h ==> areas[k].start < node.end
    ensures Insert(areas, node) == areas[..h] + Insert(areas[h..], node)
    decreases h
  {
    hide PushFront, PutBehind;
    if h > 0 {
      InsertSkips(areas[1..], h - 1, node);
      assert areas[1..][h - 1..] == areas[h..];
      assert areas[..h] == [areas[0]] + areas[1..][..h - 1];
    }
  }

  lemma InsertUnfolds(areas: seq<Area>, v: Area)
    ensures areas == [] || areas[0].start >= v.end ==> Insert(areas, v) == PushFront(v, areas)
    ensures areas != [] && areas[0].start < v.end && (|areas| > 1 ==> areas[1].start >= v.end) ==>
              Insert(areas, v) == PutBehind(areas[0], v, areas[1..])
  {}
}
