/** Page-table words and the split of a virtual address into table indices.

    The kernel works on 64-bit words with masks and shifts.  The model works on
    natural numbers; the lemmas on `bv64` below say that, on a machine word, each
    mask-and-shift of the kernel is the division and remainder used here. */
module Words {

  datatype Option<+T> = None | Some(value: T)

  /** How a mapped area is backed: by 4 KiB pages or by 2 MiB pages. */
  datatype Kind = Normal | HugePage

  const PAGE_SIZE := 0x1000
  const HUGE_PAGE_SIZE := 0x20_0000
  /** Number of 4 KiB pages in the 48-bit space that four 9-bit indices can name. */
  const PAGES := 0x10_0000_0000
  /** Number of entries in one table frame. */
  const SLOTS := 512

  /** Conversion of a 64-bit word to a C `int`: keep 32 bits, read them as signed. */
  function ToInt(x: int): int {
    var low := x % 0x1_0000_0000;
    if low < 0x8000_0000 then low else low - 0x1_0000_0000
  }

  // ---- bits of a table word ----

  predicate Present(w: nat) { w % 2 == 1 }

  predicate HugeBit(w: nat) { w / 0x80 % 2 == 1 }

  function Pfn(w: nat): nat { w / 0x1000 % 0x1_0000_0000 }

  function HugePfn(w: nat): nat { w / 0x20_0000 % 0x1_0000_0000 }

  /** Present, write and user bits. */
  function Flags(w: nat): nat { w % 8 }

  /** `0x5 | (code & 0x2)`: present and user, and write when the code asks for it. */
  function AcFlags(code: nat): (f: nat)
    ensures f < 8 && Present(f)
    ensures f / 2 % 2 == code / 2 % 2
    ensures f / 4 == 1
  {
    if code / 2 % 2 == 1 then 7 else 5
  }

  function SmallWord(pfn: nat, flags: nat): nat { pfn * 0x1000 + flags }

  function HugeWord(pfn: nat, flags: nat): nat { pfn * 0x20_0000 + flags + 0x80 }

  /** Quotient and remainder are unique. */
  lemma DivMod(a: nat, b: nat, q: nat, r: nat)
    requires r < b && a == q * b + r
    ensures a / b == q && a % b == r
  {
    var k := a / b - q;
    assert k * b == r - a % b;
    assert k >= 1 ==> k * b >= b;
    assert k <= -1 ==> k * b + b <= 0;
  }

  lemma SmallWordDecodes(pfn: nat, flags: nat)
    requires pfn < 0x1_0000_0000 && flags < 8 && Present(flags)
    ensures var w := SmallWord(pfn, flags);
            Present(w) && !HugeBit(w) && Pfn(w) == pfn && Flags(w) == flags
  {
    var w := SmallWord(pfn, flags);
    DivMod(w, 2, pfn * 0x800 + flags / 2, 1);
    DivMod(w, 8, pfn * 0x200, flags);
    DivMod(w, 0x80, pfn * 0x20, flags);
    DivMod(pfn * 0x20, 2, pfn * 0x10, 0);
    DivMod(w, 0x1000, pfn, flags);
  }

  lemma HugeWordDecodes(pfn: nat, flags: nat)
    requires pfn < 0x1_0000_0000 && flags < 8 && Present(flags)
    ensures var w := HugeWord(pfn, flags);
            Present(w) && HugeBit(w) && HugePfn(w) == pfn && Flags(w) == flags
  {
    var w := HugeWord(pfn, flags);
    DivMod(w, 2, pfn * 0x10_0000 + 0x40 + flags / 2, 1);
    DivMod(w, 8, pfn * 0x4_0000 + 0x10, flags);
    DivMod(w, 0x80, pfn * 0x4000 + 1, flags);
    DivMod(pfn * 0x4000 + 1, 2, pfn * 0x2000, 1);
    DivMod(w, 0x20_0000, pfn, flags + 0x80);
  }

  /** `*entry ^ 1` on a present entry. */
  function Cleared(w: nat): (c: nat)
    requires Present(w)
    ensures !Present(c) && c / 2 == w / 2
  {
    w - 1
  }

  // ---- indices ----

  /** The page of an address; bits above the 48 used by the tables are ignored. */
  function PageOf(addr: nat): (v: nat)
    ensures v < PAGES
    ensures addr < PAGES * PAGE_SIZE ==> v == addr / PAGE_SIZE
  {
    addr / PAGE_SIZE % PAGES
  }

  /** Page `v` with its lowest `4 - level` indices dropped. */
  function Prefix(v: nat, level: nat): nat {
    if level == 0 then v / 0x10_0000_0000
    else if level == 1 then v / 0x800_0000
    else if level == 2 then v / 0x4_0000
    else if level == 3 then v / 0x200
    else v
  }

  /** The slot that page `v` uses in its table of the given level (0 is the root). */
  function Slot(v: nat, level: nat): (i: nat)
    ensures i < SLOTS
  {
    Prefix(v, level + 1) % SLOTS
  }

  lemma PrefixSplits(v: nat, level: nat)
    requires level < 4
    ensures Prefix(v, level + 1) == Prefix(v, level) * SLOTS + Slot(v, level)
  {
    if level == 0 {
      assert v / 0x800_0000 / 0x200 == v / 0x10_0000_0000;
    } else if level == 1 {
      assert v / 0x4_0000 / 0x200 == v / 0x800_0000;
    } else if level == 2 {
      assert v / 0x200 / 0x200 == v / 0x4_0000;
    }
  }

  // ---- the kernel's bit operations, on machine words ----

  lemma IndexMasks(a: bv64)
    ensures ((a & 0xff8000000000) >> 39) == a / 0x1000 / 0x800_0000 % 512
    ensures ((a & 0x7fc0000000) >> 30) == a / 0x1000 / 0x4_0000 % 512
    ensures ((a & 0x3fe00000) >> 21) == a / 0x1000 / 0x200 % 512
    ensures ((a & 0x1ff000) >> 12) == a / 0x1000 % 512
  {}

  lemma SmallEntryBits(p: bv64, f: bv64)
    requires p < 0x1_0000_0000 && f < 8
    ensures (p << 12) | f == p * 0x1000 + f
  {}

  lemma HugeEntryBits(p: bv64, f: bv64)
    requires p < 0x1_0000_0000 && f < 8
    ensures (p << 21) | f | (1 << 7) == p * 0x20_0000 + f + 0x80
  {}

  lemma DecodeBits(w: bv64)
    ensures (w >> 12) & 0xFFFF_FFFF == w / 0x1000 % 0x1_0000_0000
    ensures (w >> 21) & 0xFFFF_FFFF == w / 0x20_0000 % 0x1_0000_0000
    ensures w & 1 == w % 2 && (w & 0x80 != 0 <==> w / 0x80 % 2 == 1)
    ensures w & 1 == 1 ==> w ^ 1 == w - 1
  {}
}
