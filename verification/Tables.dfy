/** The four-level page table as a value: which frames are reachable, where, and
    what each virtual page translates to. */
module Tables {
  import opened Words

  /** A physical frame, by the allocator region it comes from. */
  datatype Frame = Table(n: nat) | Page(n: nat) | Huge(n: nat)

  /** A position in the tree: the table of level `level` (0 is the root, 3 holds
      4 KiB leaves) that serves the pages with prefix `n`, or, at level 4, page `n`
      itself.  A 2 MiB leaf stands where a level-3 table would. */
  datatype Place = Place(level: nat, n: nat)

  datatype Mapping = Unmapped | Small(frame: nat, flags: nat) | Big(frame: nat, flags: nat)

  /** Contents of the table frames. */
  type Memory = map<nat, seq<nat>>

  function Entry(mem: Memory, f: nat, i: nat): nat {
    if f in mem && i < |mem[f]| then mem[f][i] else 0
  }

  /** What a present word in a table of the given level points to. */
  function Target(level: nat, w: nat): Frame {
    if level >= 3 then Page(Pfn(w))
    else if level == 2 && HugeBit(w) then Huge(HugePfn(w))
    else Table(Pfn(w))
  }

  /** The table of the given level on the way to page `v`. */
  function Walk(mem: Memory, root: nat, v: nat, level: nat): Option<nat> {
    if level == 0 then Some(root)
    else
      match Walk(mem, root, v, level - 1)
      case None => None
      case Some(f) =>
        var w := Entry(mem, f, Slot(v, level - 1));
        if Present(w) && Target(level - 1, w).Table? then Some(Pfn(w)) else None
  }

  /** The translation the processor finds for page `v`. */
  function Translate(mem: Memory, root: nat, v: nat): Mapping {
    match Walk(mem, root, v, 2)
    case None => Unmapped
    case Some(f) =>
      var w := Entry(mem, f, Slot(v, 2));
      if !Present(w) then Unmapped
      else if HugeBit(w) then Big(HugePfn(w), Flags(w))
      else
        var leaf := Entry(mem, Pfn(w), Slot(v, 3));
        if Present(leaf) then Small(Pfn(leaf), Flags(leaf)) else Unmapped
  }

  /** The frame that present slot `i` of table `f` points to stands one level below it. */
  ghost predicate Hangs(owner: map<Frame, Place>, f: nat, i: nat, w: nat)
    requires Table(f) in owner
  {
    var t := Target(owner[Table(f)].level, w);
    t in owner && owner[t] == Place(owner[Table(f)].level + 1, owner[Table(f)].n * SLOTS + i)
  }

  /** No place is held by two frames. */
  ghost predicate OnePerPlace(owner: map<Frame, Place>) {
    forall a, b :: a in owner && b in owner && owner[a] == owner[b] ==> a == b
  }

  /** `owner` after frame `t` takes over the place `q`. */
  ghost function Put(owner: map<Frame, Place>, t: Frame, q: Place): map<Frame, Place> {
    (map fr | fr in owner && owner[fr] != q :: owner[fr])[t := q]
  }

  /** The tables form a tree: `owner` gives every frame in use its one place. */
  ghost predicate Tree(mem: Memory, root: nat, owner: map<Frame, Place>) {
    && Table(root) in owner && owner[Table(root)] == Place(0, 0)
    && OnePerPlace(owner)
    && (forall f :: Table(f) in owner ==> f in mem && |mem[f]| == SLOTS && owner[Table(f)].level <= 3)
    && (forall f, i :: Table(f) in owner && 0 <= i < SLOTS && Present(Entry(mem, f, i)) ==>
          Hangs(owner, f, i, Entry(mem, f, i)))
  }

  /** Table `f` lies on the way to page `v`, at `level`. */
  ghost predicate OnPath(owner: map<Frame, Place>, f: nat, v: nat, level: nat) {
    Table(f) in owner && owner[Table(f)] == Place(level, Prefix(v, level))
  }

  lemma {:induction false} WalkOnPath(mem: Memory, root: nat, owner: map<Frame, Place>, v: nat, level: nat)
    requires Tree(mem, root, owner) && v < PAGES && level <= 3
    ensures Walk(mem, root, v, level).Some? ==> OnPath(owner, Walk(mem, root, v, level).value, v, level)
  {
    if level > 0 {
      WalkOnPath(mem, root, owner, v, level - 1);
      PrefixSplits(v, level - 1);
      match Walk(mem, root, v, level - 1)
      case None =>
      case Some(f) =>
        assert Present(Entry(mem, f, Slot(v, level - 1))) ==>
          Hangs(owner, f, Slot(v, level - 1), Entry(mem, f, Slot(v, level - 1)));
    }
  }

  /** The level-3 table of a page, when there is one, decides its translation. */
  lemma LeafDecides(mem: Memory, root: nat, v: nat)
    ensures match Walk(mem, root, v, 3)
            case Some(g) =>
              var w := Entry(mem, g, Slot(v, 3));
              Translate(mem, root, v) == if Present(w) then Small(Pfn(w), Flags(w)) else Unmapped
            case None => !Translate(mem, root, v).Small?
  {}

  /** Every translation is a frame whose place is that page or that 2 MiB block. */
  lemma TranslatePlace(mem: Memory, root: nat, owner: map<Frame, Place>, v: nat)
    requires Tree(mem, root, owner) && v < PAGES
    ensures var m := Translate(mem, root, v);
            && (m.Small? ==> Page(m.frame) in owner && owner[Page(m.frame)] == Place(4, v))
            && (m.Big? ==> Huge(m.frame) in owner && owner[Huge(m.frame)] == Place(3, v / SLOTS))
  {
    WalkOnPath(mem, root, owner, v, 2);
    PrefixSplits(v, 2);
    PrefixSplits(v, 3);
    match Walk(mem, root, v, 2)
    case None =>
    case Some(f) =>
      var w := Entry(mem, f, Slot(v, 2));
      if Present(w) {
        assert Hangs(owner, f, Slot(v, 2), w);
        if !HugeBit(w) {
          var leaf := Entry(mem, Pfn(w), Slot(v, 3));
          assert Present(leaf) ==> Hangs(owner, Pfn(w), Slot(v, 3), leaf);
        }
      }
  }

  /** No frame backs two virtual pages, and no 2 MiB frame backs two blocks. */
  lemma NoSharing(mem: Memory, root: nat, owner: map<Frame, Place>, u: nat, v: nat)
    requires Tree(mem, root, owner) && u < PAGES && v < PAGES
    ensures var m, k := Translate(mem, root, u), Translate(mem, root, v);
            && (m.Small? && k.Small? && m.frame == k.frame ==> u == v)
            && (m.Big? && k.Big? && m.frame == k.frame ==> u / SLOTS == v / SLOTS)
  {
    TranslatePlace(mem, root, owner, u);
    TranslatePlace(mem, root, owner, v);
  }

  // ---- the effect of one slot write ----

  /** `mem'` differs from `mem`, on the tables in use, at most in slot `i` of table `f`. */
  ghost predicate OneSlot(mem: Memory, mem': Memory, owner: map<Frame, Place>, f: nat, i: nat) {
    forall g: nat, j: nat :: Table(g) in owner && j < SLOTS && !(g == f && j == i) ==>
      Entry(mem', g, j) == Entry(mem, g, j)
  }

  /** The slot that the walk of `v` uses in table `g` is not slot `i` of table `f`. */
  lemma SlotMissed(owner: map<Frame, Place>, f: nat, i: nat, g: nat, v: nat, level: nat)
    requires OnPath(owner, g, v, level) && Table(f) in owner && v < PAGES && level <= 3
    requires var p := owner[Table(f)];
             p.level == level ==> Prefix(v, level + 1) != p.n * SLOTS + i
    ensures !(g == f && Slot(v, level) == i) && Slot(v, level) < SLOTS
  {
    PrefixSplits(v, level);
  }

  lemma WalkStart(mem: Memory, root: nat, v: nat)
    ensures Walk(mem, root, v, 0) == Some(root)
  {}

  lemma WalkStep(mem: Memory, root: nat, v: nat, level: nat)
    requires level > 0
    ensures Walk(mem, root, v, level) ==
            match Walk(mem, root, v, level - 1)
            case None => None
            case Some(f) =>
              var w := Entry(mem, f, Slot(v, level - 1));
              if Present(w) && Target(level - 1, w).Table? then Some(Pfn(w)) else None
  {}

  /** A slot write is invisible to every page whose walk does not use the slot. */
  lemma {:induction false} WalkElsewhere(mem: Memory, mem': Memory, root: nat, owner: map<Frame, Place>,
                                         f: nat, i: nat, v: nat, level: nat)
    requires Tree(mem, root, owner) && OneSlot(mem, mem', owner, f, i)
    requires v < PAGES && level <= 3 && Table(f) in owner
    requires var p := owner[Table(f)];
             p.level < level ==> Prefix(v, p.level + 1) != p.n * SLOTS + i
    ensures Walk(mem', root, v, level) == Walk(mem, root, v, level)
  {
    hide *;
    if level == 0 {
      WalkStart(mem, root, v);
      WalkStart(mem', root, v);
    } else {
      WalkElsewhere(mem, mem', root, owner, f, i, v, level - 1);
      WalkOnPath(mem, root, owner, v, level - 1);
      WalkStep(mem, root, v, level);
      WalkStep(mem', root, v, level);
      match Walk(mem, root, v, level - 1)
      case None =>
      case Some(g) =>
        SlotMissed(owner, f, i, g, v, level - 1);
        SameEntry(mem, mem', owner, f, i, g, v, level - 1);
    }
  }

  lemma SameEntry(mem: Memory, mem': Memory, owner: map<Frame, Place>, f: nat, i: nat, g: nat, v: nat, level: nat)
    requires OneSlot(mem, mem', owner, f, i) && OnPath(owner, g, v, level)
    requires !(g == f && Slot(v, level) == i) && Slot(v, level) < SLOTS
    ensures Entry(mem', g, Slot(v, level)) == Entry(mem, g, Slot(v, level))
  {
    hide Slot, Prefix, Entry;
  }

  /** The translation, from the two lowest tables. */
  lemma TranslateIs(mem: Memory, root: nat, v: nat)
    ensures Translate(mem, root, v) ==
            match Walk(mem, root, v, 2)
            case None => Unmapped
            case Some(f) =>
              var w := Entry(mem, f, Slot(v, 2));
              if !Present(w) then Unmapped
              else if HugeBit(w) then Big(HugePfn(w), Flags(w))
              else
                match Walk(mem, root, v, 3)
                case None => Unmapped
                case Some(g) =>
                  var leaf := Entry(mem, g, Slot(v, 3));
                  if Present(leaf) then Small(Pfn(leaf), Flags(leaf)) else Unmapped
  {}

  lemma TranslateElsewhere(mem: Memory, mem': Memory, root: nat, owner: map<Frame, Place>,
                           f: nat, i: nat, v: nat)
    requires Tree(mem, root, owner) && OneSlot(mem, mem', owner, f, i)
    requires v < PAGES && Table(f) in owner
    requires var p := owner[Table(f)];
             Prefix(v, p.level + 1) != p.n * SLOTS + i
    ensures Translate(mem', root, v) == Translate(mem, root, v)
  {
    hide Tree, OnPath, OneSlot, Slot, Prefix, Entry, Present, HugeBit, Walk, Translate;
    WalkElsewhere(mem, mem', root, owner, f, i, v, 2);
    WalkElsewhere(mem, mem', root, owner, f, i, v, 3);
    WalkOnPath(mem, root, owner, v, 2);
    WalkOnPath(mem, root, owner, v, 3);
    TranslateIs(mem, root, v);
    TranslateIs(mem', root, v);
    if g :| Walk(mem, root, v, 2) == Some(g) {
      SlotMissed(owner, f, i, g, v, 2);
      SameEntry(mem, mem', owner, f, i, g, v, 2);
    }
    if g :| Walk(mem, root, v, 3) == Some(g) {
      SlotMissed(owner, f, i, g, v, 3);
      SameEntry(mem, mem', owner, f, i, g, v, 3);
    }
  }

  /** Walks read only tables in use. */
  lemma {:induction false} WalkReadsOwned(mem: Memory, mem': Memory, root: nat, owner: map<Frame, Place>, v: nat,
      level: nat)
    requires Tree(mem, root, owner) && v < PAGES && level <= 3
    requires forall g: nat :: Table(g) in owner ==> g in mem && g in mem' && mem'[g] == mem[g]
    ensures Walk(mem', root, v, level) == Walk(mem, root, v, level)
  {
    if level > 0 {
      WalkReadsOwned(mem, mem', root, owner, v, level - 1);
      WalkOnPath(mem, root, owner, v, level - 1);
    }
  }

  /** Pages with the same prefix walk through the same tables. */
  lemma {:induction false} WalkShared(mem: Memory, root: nat, u: nat, v: nat, level: nat)
    requires level <= 3 && Prefix(u, level) == Prefix(v, level)
    ensures Walk(mem, root, u, level) == Walk(mem, root, v, level)
  {
    if level > 0 {
      PrefixSplits(u, level - 1);
      PrefixSplits(v, level - 1);
      WalkShared(mem, root, u, v, level - 1);
    }
  }

  ghost predicate Empty(table: seq<nat>) {
    |table| == SLOTS && forall i :: 0 <= i < SLOTS ==> !Present(table[i])
  }

  function Written(mem: Memory, f: nat, i: nat, w: nat): Memory
    requires f in mem && i < |mem[f]|
  {
    var table: seq<nat> := mem[f][i := w];
    mem[f := table]
  }

  /** Hanging an empty table in an absent slot maps nothing and unmaps nothing. */
  lemma LinkTable(mem: Memory, root: nat, owner: map<Frame, Place>, v: nat, level: nat,
                  f: nat, t: nat, table: seq<nat>, flags: nat)
    requires Tree(mem, root, owner) && v < PAGES && level < 3
    requires Walk(mem, root, v, level) == Some(f) && OnPath(owner, f, v, level)
    requires !Present(Entry(mem, f, Slot(v, level)))
    requires Table(t) !in owner && t < 0x1_0000_0000 && Empty(table) && flags < 8 && Present(flags)
    ensures var mem' := Written(mem[t := table], f, Slot(v, level), SmallWord(t, flags));
            && Tree(mem', root, Put(owner, Table(t), Place(level + 1, Prefix(v, level + 1))))
            && Walk(mem', root, v, level) == Some(f) && Walk(mem', root, v, level + 1) == Some(t)
            && (level < 2 ==> Walk(mem', root, v, 3) == Walk(mem, root, v, 3))
            && forall u: nat :: u < PAGES ==> Translate(mem', root, u) == Translate(mem, root, u)
  {
    var i, w := Slot(v, level), SmallWord(t, flags);
    var mem' := Written(mem[t := table], f, i, w);
    SmallWordDecodes(t, flags);
    PrefixSplits(v, level);
    assert OneSlot(mem, mem', owner, f, i);
    WalkElsewhere(mem, mem', root, owner, f, i, v, level);
    forall u: nat | u < PAGES
      ensures Translate(mem', root, u) == Translate(mem, root, u)
    {
      if Prefix(u, level + 1) != Prefix(v, level + 1) {
        TranslateElsewhere(mem, mem', root, owner, f, i, u);
      } else {
        UnderNewTable(mem, mem', root, u, v, level, t);
      }
    }
    UnderNewTable(mem, mem', root, v, v, level, t);
    LinkKeepsTree(mem, root, owner, v, level, f, t, table, flags);
  }

  lemma UnderNewTable(mem: Memory, mem': Memory, root: nat, u: nat, v: nat, level: nat, t: nat)
    requires level < 3 && Prefix(u, level + 1) == Prefix(v, level + 1)
    requires Walk(mem, root, v, level).Some?
    requires !Present(Entry(mem, Walk(mem, root, v, level).value, Slot(v, level)))
    requires Walk(mem', root, v, level + 1) == Some(t)
    requires t in mem' && Empty(mem'[t])
    ensures Translate(mem', root, u) == Translate(mem, root, u) == Unmapped
    ensures level < 2 ==> Walk(mem', root, u, 3) == Walk(mem, root, u, 3) == None
  {
    PrefixSplits(u, level);
    PrefixSplits(v, level);
    WalkShared(mem, root, u, v, level);
    WalkShared(mem', root, u, v, level + 1);
    assert !Present(Entry(mem', t, Slot(u, level + 1)));
    if level == 0 {
      assert Walk(mem, root, u, 1).None? && Walk(mem', root, u, 2).None?;
    }
  }

  /** A frame that hangs from another slot does not stand at the place below slot `i` of `f`. */
  lemma OtherSlot(mem: Memory, root: nat, owner: map<Frame, Place>, f: nat, i: nat, g: nat, j: nat)
    requires Tree(mem, root, owner)
    requires Table(f) in owner && Table(g) in owner && i < SLOTS && j < SLOTS && !(g == f && j == i)
    requires Present(Entry(mem, g, j))
    ensures Hangs(owner, g, j, Entry(mem, g, j))
    ensures owner[Target(owner[Table(g)].level, Entry(mem, g, j))]
            != Place(owner[Table(f)].level + 1, owner[Table(f)].n * SLOTS + i)
  {}

  /** A present word written to a slot, for a frame that was not in use, keeps the tables a tree. */
  lemma PutKeepsTree(mem: Memory, mem': Memory, root: nat, owner: map<Frame, Place>, f: nat, i: nat, t: Frame)
    requires Tree(mem, root, owner) && Table(f) in owner && i < SLOTS && OneSlot(mem, mem', owner, f, i)
    requires forall g :: Table(g) in owner ==> g in mem' && |mem'[g]| == SLOTS
    requires t !in owner && Present(Entry(mem', f, i)) && Target(owner[Table(f)].level, Entry(mem', f, i)) == t
    requires t.Table? ==> owner[Table(f)].level < 3 && t.n in mem' && Empty(mem'[t.n])
    ensures Tree(mem', root, Put(owner, t, Place(owner[Table(f)].level + 1, owner[Table(f)].n * SLOTS + i)))
  {
    var owner' := Put(owner, t, Place(owner[Table(f)].level + 1, owner[Table(f)].n * SLOTS + i));
    hide Target;
    forall g, j | Table(g) in owner' && 0 <= j < SLOTS && Present(Entry(mem', g, j))
      ensures Hangs(owner', g, j, Entry(mem', g, j))
    {
      if t != Table(g) && !(g == f && j == i) {
        assert Entry(mem', g, j) == Entry(mem, g, j);
        OtherSlot(mem, root, owner, f, i, g, j);
      }
    }
    hide Entry, Hangs, Present, Empty;
  }

  lemma LinkKeepsTree(mem: Memory, root: nat, owner: map<Frame, Place>, v: nat, level: nat,
                      f: nat, t: nat, table: seq<nat>, flags: nat)
    requires Tree(mem, root, owner) && v < PAGES && level < 3
    requires OnPath(owner, f, v, level) && !Present(Entry(mem, f, Slot(v, level)))
    requires Table(t) !in owner && t < 0x1_0000_0000 && Empty(table) && flags < 8 && Present(flags)
    ensures var mem' := Written(mem[t := table], f, Slot(v, level), SmallWord(t, flags));
            Tree(mem', root, Put(owner, Table(t), Place(level + 1, Prefix(v, level + 1))))
  {
    hide *;
    TreeSizes(mem, root, owner);
    PathFacts(owner, f, v, level);
    WrittenBeside(mem, owner, f, Slot(v, level), SmallWord(t, flags), t, table);
    SmallWordDecodes(t, flags);
    TargetIs(level, SmallWord(t, flags));
    var mem' := Written(mem[t := table], f, Slot(v, level), SmallWord(t, flags));
    PutKeepsTree(mem, mem', root, owner, f, Slot(v, level), Table(t));
  }

  /** The same with a table `t` that was not in use. */
  lemma WrittenBeside(mem: Memory, owner: map<Frame, Place>, f: nat, i: nat, w: nat, t: nat, table: seq<nat>)
    requires f in mem && i < |mem[f]| && Table(f) in owner && Table(t) !in owner
    ensures var mem' := Written(mem[t := table], f, i, w);
            && Entry(mem', f, i) == w && OneSlot(mem, mem', owner, f, i) && t in mem' && mem'[t] == table
            && forall g :: Table(g) in owner && g in mem ==> g in mem' && |mem'[g]| == |mem[g]|
  {}

  /** A write to a level-3 slot changes no walk and no other page's translation. */
  lemma LeafWrite(mem: Memory, mem': Memory, root: nat, owner: map<Frame, Place>, v: nat, f: nat)
    requires Tree(mem, root, owner) && v < PAGES && Walk(mem, root, v, 3) == Some(f) && OnPath(owner, f, v, 3)
    requires OneSlot(mem, mem', owner, f, Slot(v, 3))
    ensures forall u: nat, k: nat :: u < PAGES && k <= 3 ==> Walk(mem', root, u, k) == Walk(mem, root, u, k)
    ensures forall u: nat :: u < PAGES && u != v ==> Translate(mem', root, u) == Translate(mem, root, u)
    ensures var w := Entry(mem', f, Slot(v, 3));
            Translate(mem', root, v) == if Present(w) then Small(Pfn(w), Flags(w)) else Unmapped
  {
    PrefixSplits(v, 3);
    hide Tree, OneSlot, Slot, Entry, Present, Walk, Translate;
    forall u: nat, k: nat | u < PAGES && k <= 3
      ensures Walk(mem', root, u, k) == Walk(mem, root, u, k)
    {
      WalkElsewhere(mem, mem', root, owner, f, Slot(v, 3), u, k);
    }
    forall u: nat | u < PAGES && u != v
      ensures Translate(mem', root, u) == Translate(mem, root, u)
    {
      WholePrefix(u);
      WholePrefix(v);
      TranslateElsewhere(mem, mem', root, owner, f, Slot(v, 3), u);
    }
    assert Walk(mem', root, v, 3) == Some(f);
    LeafDecides(mem', root, v);
  }

  lemma WholePrefix(v: nat)
    ensures Prefix(v, 4) == v
  {}

  /** Writing a 4 KiB leaf over page `v`'s slot maps `v` and changes no other page. */
  lemma WriteLeaf(mem: Memory, root: nat, owner: map<Frame, Place>, v: nat, f: nat, p: nat, flags: nat)
    requires Tree(mem, root, owner) && v < PAGES
    requires Walk(mem, root, v, 3) == Some(f) && OnPath(owner, f, v, 3)
    requires Page(p) !in owner && p < 0x1_0000_0000 && flags < 8 && Present(flags)
    ensures var mem' := Written(mem, f, Slot(v, 3), SmallWord(p, flags));
            && Tree(mem', root, Put(owner, Page(p), Place(4, v)))
            && (forall u: nat, k: nat :: u < PAGES && k <= 3 ==> Walk(mem', root, u, k) == Walk(mem, root, u, k))
            && forall u: nat :: u < PAGES ==>
                 Translate(mem', root, u) == if u == v then Small(p, flags) else Translate(mem, root, u)
  {
    hide *;
    TreeSizes(mem, root, owner);
    PathFacts(owner, f, v, 3);
    WrittenAt(mem, owner, f, Slot(v, 3), SmallWord(p, flags));
    SmallWordDecodes(p, flags);
    LeafWrite(mem, Written(mem, f, Slot(v, 3), SmallWord(p, flags)), root, owner, v, f);
    WriteLeafTree(mem, root, owner, v, f, p, flags);
  }

  lemma PathFacts(owner: map<Frame, Place>, f: nat, v: nat, level: nat)
    requires OnPath(owner, f, v, level) && level < 4
    ensures Table(f) in owner && owner[Table(f)].level == level && Slot(v, level) < SLOTS
    ensures owner[Table(f)].n * SLOTS + Slot(v, level) == Prefix(v, level + 1)
  {
    PrefixSplits(v, level);
  }

  lemma WriteLeafTree(mem: Memory, root: nat, owner: map<Frame, Place>, v: nat, f: nat, p: nat, flags: nat)
    requires Tree(mem, root, owner) && v < PAGES && OnPath(owner, f, v, 3) && f in mem && |mem[f]| == SLOTS
    requires Page(p) !in owner && p < 0x1_0000_0000 && flags < 8 && Present(flags)
    ensures Tree(Written(mem, f, Slot(v, 3), SmallWord(p, flags)), root, Put(owner, Page(p), Place(4, v)))
  {
    hide *;
    TreeSizes(mem, root, owner);
    PathFacts(owner, f, v, 3);
    WholePrefix(v);
    WrittenAt(mem, owner, f, Slot(v, 3), SmallWord(p, flags));
    SmallWordDecodes(p, flags);
    TargetIs(3, SmallWord(p, flags));
    PutKeepsTree(mem, Written(mem, f, Slot(v, 3), SmallWord(p, flags)), root, owner, f, Slot(v, 3), Page(p));
  }

  lemma TargetIs(level: nat, w: nat)
    ensures level == 3 ==> Target(level, w) == Page(Pfn(w))
    ensures level == 2 && HugeBit(w) ==> Target(level, w) == Huge(HugePfn(w))
    ensures level < 3 && !HugeBit(w) ==> Target(level, w) == Table(Pfn(w))
  {}

  lemma TreeSizes(mem: Memory, root: nat, owner: map<Frame, Place>)
    requires Tree(mem, root, owner)
    ensures forall g :: Table(g) in owner ==> g in mem && |mem[g]| == SLOTS
    ensures OnePerPlace(owner)
  {}

  lemma WrittenAt(mem: Memory, owner: map<Frame, Place>, f: nat, i: nat, w: nat)
    requires f in mem && i < |mem[f]|
    ensures var mem' := Written(mem, f, i, w);
            && Entry(mem', f, i) == w && OneSlot(mem, mem', owner, f, i)
            && forall g :: g in mem ==> g in mem' && |mem'[g]| == |mem[g]|
  {}

  /** Clearing the present bit of page `v`'s leaf unmaps `v` and changes no other page;
      the frame is no longer in use. */
  lemma ClearLeaf(mem: Memory, root: nat, owner: map<Frame, Place>, v: nat, f: nat)
    requires Tree(mem, root, owner) && v < PAGES
    requires Walk(mem, root, v, 3) == Some(f) && OnPath(owner, f, v, 3)
    requires Present(Entry(mem, f, Slot(v, 3)))
    ensures var w := Entry(mem, f, Slot(v, 3));
            var mem' := Written(mem, f, Slot(v, 3), Cleared(w));
            && Translate(mem, root, v) == Small(Pfn(w), Flags(w))
            && Tree(mem', root, owner - {Page(Pfn(w))})
            && (forall u: nat, k: nat :: u < PAGES && k <= 3 ==> Walk(mem', root, u, k) == Walk(mem, root, u, k))
            && forall u: nat :: u < PAGES ==>
                 Translate(mem', root, u) == if u == v then Unmapped else Translate(mem, root, u)
  {
    var w := Entry(mem, f, Slot(v, 3));
    var mem' := Written(mem, f, Slot(v, 3), Cleared(w));
    PrefixSplits(v, 3);
    LeafDecides(mem, root, v);
    WrittenAt(mem, owner, f, Slot(v, 3), Cleared(w));
    TreeSizes(mem, root, owner);
    assert !Present(Cleared(w));
    hide Slot, Prefix, Present, Pfn, HugeBit, Entry, Walk, Translate, Cleared;
    LeafWrite(mem, mem', root, owner, v, f);
    hide Written;
    ClearKeepsTree(mem, mem', root, owner, f, Slot(v, 3));
  }

  lemma ClearKeepsTree(mem: Memory, mem': Memory, root: nat, owner: map<Frame, Place>, f: nat, i: nat)
    requires Tree(mem, root, owner) && Table(f) in owner && i < SLOTS && OneSlot(mem, mem', owner, f, i)
    requires owner[Table(f)].level == 3 && Present(Entry(mem, f, i)) && !Present(Entry(mem', f, i))
    requires forall g :: Table(g) in owner ==> g in mem' && |mem'[g]| == SLOTS
    ensures Tree(mem', root, owner - {Page(Pfn(Entry(mem, f, i)))})
  {
    var owner' := owner - {Page(Pfn(Entry(mem, f, i)))};
    assert Hangs(owner, f, i, Entry(mem, f, i));
    forall g, j | Table(g) in owner' && 0 <= j < SLOTS && Present(Entry(mem', g, j))
      ensures Hangs(owner', g, j, Entry(mem', g, j))
    {
      assert Entry(mem', g, j) == Entry(mem, g, j);
      OtherSlot(mem, root, owner, f, i, g, j);
    }
    hide Entry, Hangs, Present, Pfn;
  }

  /** Writing a 2 MiB leaf over the level-2 slot of page `v` maps the whole block of `v`
      and changes no page outside it. */
  lemma WriteHugeLeaf(mem: Memory, root: nat, owner: map<Frame, Place>, v: nat, f: nat, h: nat, flags: nat)
    requires Tree(mem, root, owner) && v < PAGES
    requires Walk(mem, root, v, 2) == Some(f) && OnPath(owner, f, v, 2)
    requires Huge(h) !in owner && h < 0x1_0000_0000 && flags < 8 && Present(flags)
    ensures var mem' := Written(mem, f, Slot(v, 2), HugeWord(h, flags));
            && Tree(mem', root, Put(owner, Huge(h), Place(3, v / SLOTS)))
            && Walk(mem', root, v, 2) == Some(f)
            && forall u: nat :: u < PAGES ==>
                 Translate(mem', root, u) == if u / SLOTS == v / SLOTS then Big(h, flags) else Translate(mem, root, u)
  {
    hide *;
    TreeSizes(mem, root, owner);
    PathFacts(owner, f, v, 2);
    BlockPrefix(v);
    WrittenAt(mem, owner, f, Slot(v, 2), HugeWord(h, flags));
    HugeWordDecodes(h, flags);
    TargetIs(2, HugeWord(h, flags));
    var mem' := Written(mem, f, Slot(v, 2), HugeWord(h, flags));
    BlockWrite(mem, mem', root, owner, v, f);
    PutKeepsTree(mem, mem', root, owner, f, Slot(v, 2), Huge(h));
    forall u: nat | u < PAGES && u / SLOTS == v / SLOTS
      ensures Translate(mem', root, u) == Big(h, flags)
    {
      TranslateIs(mem', root, u);
    }
  }

  lemma BlockPrefix(u: nat)
    ensures Prefix(u, 3) == u / SLOTS
  {}

  /** A write to a level-2 slot changes no translation outside its block; in the block every
      walk comes to that slot. */
  lemma BlockWrite(mem: Memory, mem': Memory, root: nat, owner: map<Frame, Place>, v: nat, f: nat)
    requires Tree(mem, root, owner) && v < PAGES && Walk(mem, root, v, 2) == Some(f) && OnPath(owner, f, v, 2)
    requires OneSlot(mem, mem', owner, f, Slot(v, 2))
    ensures Walk(mem', root, v, 2) == Some(f)
    ensures forall u: nat :: u < PAGES && u / SLOTS != v / SLOTS ==> Translate(mem', root, u) == Translate(mem, root, u)
    ensures forall u: nat :: u < PAGES && u / SLOTS == v / SLOTS ==>
              Walk(mem', root, u, 2) == Some(f) && Slot(u, 2) == Slot(v, 2)
  {
    PrefixSplits(v, 2);
    BlockPrefix(v);
    hide Tree, OneSlot, Slot, Prefix, Entry, Present, Walk, Translate;
    WalkElsewhere(mem, mem', root, owner, f, Slot(v, 2), v, 2);
    forall u: nat | u < PAGES
      ensures u / SLOTS != v / SLOTS ==> Translate(mem', root, u) == Translate(mem, root, u)
      ensures u / SLOTS == v / SLOTS ==> Walk(mem', root, u, 2) == Some(f) && Slot(u, 2) == Slot(v, 2)
    {
      PrefixSplits(u, 2);
      BlockPrefix(u);
      if u / SLOTS != v / SLOTS {
        TranslateElsewhere(mem, mem', root, owner, f, Slot(v, 2), u);
      } else {
        WalkShared(mem', root, u, v, 2);
      }
    }
  }

  /** The place is block `b` or one of its pages. */
  ghost predicate Inside(q: Place, b: nat) {
    q == Place(3, b) || (q.level == 4 && q.n / SLOTS == b)
  }

  ghost function IndexOf(s: seq<nat>, x: nat): (k: nat)
    requires x in s
    ensures k < |s| && s[k] == x
  {
    var k :| 0 <= k < |s| && s[k] == x; k
  }

  ghost predicate Distinct(s: seq<nat>) {
    forall j, k :: 0 <= j < k < |s| ==> s[j] != s[k]
  }

  /** `owner'` is `owner` after table `g` and its 512 pages have taken over block `b`. */
  ghost predicate TakesBlock(owner: map<Frame, Place>, owner': map<Frame, Place>, g: nat, pages: seq<nat>, b: nat) {
    && Table(g) in owner' && owner'[Table(g)] == Place(3, b)
    && (forall j :: 0 <= j < |pages| ==> Page(pages[j]) in owner' && owner'[Page(pages[j])] == Place(4, b * SLOTS + j))
    && (forall fr :: fr in owner && !Inside(owner[fr], b) ==> fr in owner' && owner'[fr] == owner[fr])
    && (forall fr :: fr in owner' ==>
          || fr == Table(g)
          || (fr.Page? && fr.n in pages)
          || (fr in owner && !Inside(owner[fr], b) && owner'[fr] == owner[fr]))
  }

  ghost function PutBlock(owner: map<Frame, Place>, g: nat, pages: seq<nat>, b: nat): map<Frame, Place> {
    var mine := set j | 0 <= j < |pages| :: Page(pages[j]);
    (map fr | fr in owner && !Inside(owner[fr], b) :: owner[fr])
    + (map fr | fr in mine :: Place(4, b * SLOTS + IndexOf(pages, fr.n)))
    + map[Table(g) := Place(3, b)]
  }

  lemma PutBlockTakes(owner: map<Frame, Place>, g: nat, pages: seq<nat>, b: nat)
    requires Table(g) !in owner && Distinct(pages)
    requires forall j :: 0 <= j < |pages| ==> Page(pages[j]) !in owner
    ensures TakesBlock(owner, PutBlock(owner, g, pages, b), g, pages, b)
  {
    var owner' := PutBlock(owner, g, pages, b);
    forall j | 0 <= j < |pages|
      ensures Page(pages[j]) in owner' && owner'[Page(pages[j])] == Place(4, b * SLOTS + j)
    {
      PutBlockPage(owner, g, pages, b, j);
    }
    hide IndexOf, Distinct;
    forall fr | fr in owner && !Inside(owner[fr], b)
      ensures fr in owner' && owner'[fr] == owner[fr]
    {
      assert forall j :: 0 <= j < |pages| ==> fr != Page(pages[j]);
    }
  }

  lemma PutBlockPage(owner: map<Frame, Place>, g: nat, pages: seq<nat>, b: nat, j: nat)
    requires Distinct(pages) && j < |pages|
    ensures Page(pages[j]) in PutBlock(owner, g, pages, b)
    ensures PutBlock(owner, g, pages, b)[Page(pages[j])] == Place(4, b * SLOTS + j)
  {
    var mine := set j | 0 <= j < |pages| :: Page(pages[j]);
    assert Page(pages[j]) in mine && IndexOf(pages, pages[j]) == j;
    hide Inside, IndexOf, Distinct;
  }

  /** Replacing a 2 MiB leaf by a table of 512 leaves maps page `k` of the block to the
      `k`-th frame and changes no page outside the block. */
  lemma SplitHugeLeaf(mem: Memory, root: nat, owner: map<Frame, Place>, v: nat, f: nat,
                      g: nat, table: seq<nat>, pages: seq<nat>, flags: nat)
    requires Tree(mem, root, owner) && v < PAGES
    requires Walk(mem, root, v, 2) == Some(f) && OnPath(owner, f, v, 2)
    requires Table(g) !in owner && g < 0x1_0000_0000 && flags < 8 && Present(flags)
    requires |pages| == |table| == SLOTS && Distinct(pages)
    requires forall j :: 0 <= j < SLOTS ==>
               pages[j] < 0x1_0000_0000 && Page(pages[j]) !in owner && table[j] == SmallWord(pages[j], flags)
    ensures var mem' := Written(mem[g := table], f, Slot(v, 2), SmallWord(g, flags));
            && Tree(mem', root, PutBlock(owner, g, pages, v / SLOTS))
            && forall u: nat :: u < PAGES ==>
                 Translate(mem', root, u) ==
                 if u / SLOTS == v / SLOTS then Small(pages[u % SLOTS], flags) else Translate(mem, root, u)
  {
    hide PutBlock;
    var i, w := Slot(v, 2), SmallWord(g, flags);
    var mem' := Written(mem[g := table], f, i, w);
    SmallWordDecodes(g, flags);
    PrefixSplits(v, 2);
    assert OneSlot(mem, mem', owner, f, i);
    WalkElsewhere(mem, mem', root, owner, f, i, v, 2);
    forall u: nat | u < PAGES
      ensures Translate(mem', root, u) ==
              if u / SLOTS == v / SLOTS then Small(pages[u % SLOTS], flags) else Translate(mem, root, u)
    {
      PrefixSplits(u, 2);
      PrefixSplits(u, 3);
      if Prefix(u, 3) != Prefix(v, 3) {
        TranslateElsewhere(mem, mem', root, owner, f, i, u);
      } else {
        WalkShared(mem', root, u, v, 2);
        assert Entry(mem', f, Slot(u, 2)) == w;
        assert Entry(mem', g, Slot(u, 3)) == table[u % SLOTS];
        SmallWordDecodes(pages[u % SLOTS], flags);
      }
    }
    SplitKeepsTree(mem, root, owner, v, f, g, table, pages, flags);
  }

  lemma BlockOnePerPlace(owner: map<Frame, Place>, owner': map<Frame, Place>, g: nat, pages: seq<nat>, b: nat)
    requires OnePerPlace(owner) && TakesBlock(owner, owner', g, pages, b) && |pages| == SLOTS
    ensures OnePerPlace(owner')
  {
    forall x, y | x in owner' && y in owner' && owner'[x] == owner'[y]
      ensures x == y
    {
      if x.Page? && x.n in pages {
        assert owner'[x] == Place(4, b * SLOTS + IndexOf(pages, x.n));
        assert Inside(owner'[x], b);
      }
      if y.Page? && y.n in pages {
        assert owner'[y] == Place(4, b * SLOTS + IndexOf(pages, y.n));
        assert Inside(owner'[y], b);
      }
    }
  }

  lemma TableKept(owner: map<Frame, Place>, owner': map<Frame, Place>, g: nat, pages: seq<nat>, b: nat, h: nat)
    requires TakesBlock(owner, owner', g, pages, b) && h != g
    ensures Table(h) in owner' <==> Table(h) in owner && !Inside(owner[Table(h)], b)
    ensures Table(h) in owner' ==> owner'[Table(h)] == owner[Table(h)]
  {}

  lemma SplitPage(owner: map<Frame, Place>, owner': map<Frame, Place>, g: nat, pages: seq<nat>, b: nat, j: nat, w: nat)
    requires TakesBlock(owner, owner', g, pages, b) && j < |pages| && Pfn(w) == pages[j]
    ensures Table(g) in owner' && Hangs(owner', g, j, w)
  {}

  lemma SplitSlot(owner: map<Frame, Place>, owner': map<Frame, Place>, f: nat, v: nat, g: nat, pages: seq<nat>, w: nat)
    requires TakesBlock(owner, owner', g, pages, v / SLOTS) && OnPath(owner, f, v, 2) && f != g
    requires Pfn(w) == g && !HugeBit(w)
    ensures Table(f) in owner' && Hangs(owner', f, Slot(v, 2), w)
  {
    PathFacts(owner, f, v, 2);
    BlockPrefix(v);
    TableKept(owner, owner', g, pages, v / SLOTS, f);
    TargetIs(2, w);
    hide Prefix, Slot, HugeBit, Pfn, Target;
  }

  lemma SplitOther(mem: Memory, root: nat, owner: map<Frame, Place>, owner': map<Frame, Place>, f: nat, v: nat,
                   g: nat, pages: seq<nat>, h: nat, j: nat)
    requires Tree(mem, root, owner) && OnPath(owner, f, v, 2)
    requires TakesBlock(owner, owner', g, pages, v / SLOTS) && Table(h) in owner' && h != g
    requires j < SLOTS && !(h == f && j == Slot(v, 2)) && Present(Entry(mem, h, j))
    ensures Hangs(owner', h, j, Entry(mem, h, j))
  {
    TableKept(owner, owner', g, pages, v / SLOTS, h);
    PathFacts(owner, f, v, 2);
    BlockPrefix(v);
    OtherSlot(mem, root, owner, f, Slot(v, 2), h, j);
    hide Prefix, Slot, Present, Entry, Target, Tree;
    var q := owner[Table(h)];
    assert q.level == 3 ==> q.n != v / SLOTS;
    assert !Inside(Place(q.level + 1, q.n * SLOTS + j), v / SLOTS);
  }

  lemma SplitKeepsTree(mem: Memory, root: nat, owner: map<Frame, Place>, v: nat, f: nat,
                       g: nat, table: seq<nat>, pages: seq<nat>, flags: nat)
    requires Tree(mem, root, owner) && v < PAGES && OnPath(owner, f, v, 2)
    requires Table(g) !in owner && g < 0x1_0000_0000 && flags < 8 && Present(flags)
    requires |pages| == |table| == SLOTS && Distinct(pages)
    requires forall j :: 0 <= j < SLOTS ==>
               pages[j] < 0x1_0000_0000 && Page(pages[j]) !in owner && table[j] == SmallWord(pages[j], flags)
    ensures var mem' := Written(mem[g := table], f, Slot(v, 2), SmallWord(g, flags));
            Tree(mem', root, PutBlock(owner, g, pages, v / SLOTS))
  {
    hide *;
    var i, w, b := Slot(v, 2), SmallWord(g, flags), v / SLOTS;
    TreeSizes(mem, root, owner);
    PathFacts(owner, f, v, 2);
    WrittenBeside(mem, owner, f, i, w, g, table);
    var mem' := Written(mem[g := table], f, i, w);
    var owner' := PutBlock(owner, g, pages, b);
    SmallWordDecodes(g, flags);
    PutBlockTakes(owner, g, pages, b);
    BlockOnePerPlace(owner, owner', g, pages, b);
    forall h: nat, j: nat | Table(h) in owner' && j < SLOTS && Present(Entry(mem', h, j))
      ensures Hangs(owner', h, j, Entry(mem', h, j))
    {
      if h == g {
        SmallWordDecodes(pages[j], flags);
        EntryIs(mem', g, j);
        SplitPage(owner, owner', g, pages, b, j, Entry(mem', h, j));
      } else if h == f && j == i {
        SplitSlot(owner, owner', f, v, g, pages, w);
      } else {
        TableKept(owner, owner', g, pages, b, h);
        SameWord(mem, mem', owner, f, i, h, j);
        SplitOther(mem, root, owner, owner', f, v, g, pages, h, j);
      }
    }
    SplitSizes(mem, mem', root, owner, owner', g, pages, b);
    TreeIs(mem', root, owner');
  }

  lemma EntryIs(mem: Memory, f: nat, j: nat)
    requires f in mem && j < |mem[f]|
    ensures Entry(mem, f, j) == mem[f][j]
  {}

  lemma SameWord(mem: Memory, mem': Memory, owner: map<Frame, Place>, f: nat, i: nat, h: nat, j: nat)
    requires OneSlot(mem, mem', owner, f, i) && Table(h) in owner && j < SLOTS && !(h == f && j == i)
    ensures Entry(mem', h, j) == Entry(mem, h, j)
  {}

  lemma SplitSizes(mem: Memory, mem': Memory, root: nat, owner: map<Frame, Place>, owner': map<Frame, Place>,
                   g: nat, pages: seq<nat>, b: nat)
    requires Tree(mem, root, owner) && TakesBlock(owner, owner', g, pages, b)
    requires forall h :: Table(h) in owner && h in mem ==> h in mem' && |mem'[h]| == |mem[h]|
    requires g in mem' && |mem'[g]| == SLOTS && Table(g) !in owner
    ensures Table(root) in owner' && owner'[Table(root)] == Place(0, 0)
    ensures forall f :: Table(f) in owner' ==> f in mem' && |mem'[f]| == SLOTS && owner'[Table(f)].level <= 3
  {}

  lemma TreeIs(mem: Memory, root: nat, owner: map<Frame, Place>)
    requires Table(root) in owner && owner[Table(root)] == Place(0, 0) && OnePerPlace(owner)
    requires forall f :: Table(f) in owner ==> f in mem && |mem[f]| == SLOTS && owner[Table(f)].level <= 3
    requires forall f, i :: Table(f) in owner && 0 <= i < SLOTS && Present(Entry(mem, f, i)) ==>
               Hangs(owner, f, i, Entry(mem, f, i))
    ensures Tree(mem, root, owner)
  {}
}
