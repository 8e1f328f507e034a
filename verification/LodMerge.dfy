/** Merging the platform and the application image of the firmware, with the gap between them filled. */
module LodMerge {
  import opened Prelude

  /** Words by the address of their block. */
  type Blocks = map<nat, seq<nat>>

  const WORDS := 0x1_0000_0000
  const BLANK := 0xffff_ffff

  /** A dictionary, which two images may share. */
  class Memory {
    var blocks: Blocks

    constructor (blocks: Blocks)
      ensures this.blocks == blocks
    {
      this.blocks := blocks;
    }
  }

  class LOD {
    var attrnames: seq<string>
    var attrs: map<string, string>
    var memory: Memory

    constructor (attrnames: seq<string>, attrs: map<string, string>, memory: Memory)
      ensures this.attrnames == attrnames && this.attrs == attrs && this.memory == memory
    {
      this.attrnames, this.attrs, this.memory := attrnames, attrs, memory;
    }
  }

  // ---------------------------------------------------------------- the content of an image

  /** The block at `base` covers the address. */
  predicate Covers(m: Blocks, base: nat, a: nat) {
    base in m && base <= a < base + 4 * |m[base]|
  }

  ghost predicate Covered(m: Blocks, a: nat) {
    exists base: nat :: Covers(m, base, a)
  }

  /** The image has the word `w` at the address. */
  ghost predicate Reads(m: Blocks, a: nat, w: nat) {
    exists base: nat :: Covers(m, base, a) && m[base][(a - base) / 4] == w
  }

  /** No block is empty and no two blocks overlap. */
  ghost predicate WellFormed(m: Blocks) {
    && (forall base :: base in m ==> m[base] != [])
    && (forall b, c :: b in m && c in m && b < c ==> b + 4 * |m[b]| <= c)
  }

  /** In a well-formed image an address has one word at most. */
  lemma {:induction false} OneWord(m: Blocks, a: nat, v: nat, w: nat)
    requires WellFormed(m) && Reads(m, a, v) && Reads(m, a, w)
    ensures v == w
  {
    var b: nat :| Covers(m, b, a) && m[b][(a - b) / 4] == v;
    var c: nat :| Covers(m, c, a) && m[c][(a - c) / 4] == w;
    assert b == c;
  }

  ghost predicate IsStart(m: Blocks, s: nat) {
    s in m && forall base :: base in m ==> s <= base
  }

  ghost predicate IsEnd(m: Blocks, e: nat) {
    && (forall base :: base in m ==> base + 4 * |m[base]| <= e)
    && (e == 0 || exists base :: base in m && base + 4 * |m[base]| == e)
  }

  function Sum(data: seq<nat>): nat {
    if data == [] then 0 else Sum(data[..|data| - 1]) + data[|data| - 1]
  }

  /** The sum of all words of an image, in any order of its blocks. */
  ghost function Total(m: Blocks): nat
    decreases |m|
  {
    if m.Keys == {} then 0 else
      var base: nat :| base in m.Keys;
      Sum(m[base]) + Total(m - {base})
  }

  lemma {:induction false} TotalOfAny(m: Blocks, base: nat)
    requires base in m
    ensures Total(m) == Sum(m[base]) + Total(m - {base})
    decreases |m|
  {
    var first: nat :| first in m.Keys && Total(m) == Sum(m[first]) + Total(m - {first});
    if first != base {
      TotalOfAny(m - {first}, base);
      TotalOfAny(m - {base}, first);
      assert m - {first} - {base} == m - {base} - {first};
    }
  }

  lemma {:induction false} TotalOfMore(m: Blocks, base: nat, data: seq<nat>)
    requires base !in m
    ensures Total(m[base := data]) == Total(m) + Sum(data)
  {
    var more := m[base := data];
    TotalOfAny(more, base);
    assert more - {base} == m;
  }

  lemma {:induction false} AddLast(m: Blocks, n: Blocks, base: nat)
    requires base in n && base !in m
    ensures base !in m + (n - {base}) && m + n == (m + (n - {base}))[base := n[base]]
  {
  }

  lemma {:induction false} NothingTotal(m: Blocks)
    requires m.Keys == {}
    ensures Total(m) == 0
  {
  }

  lemma {:induction false} TotalOfUnion(m: Blocks, n: Blocks)
    requires m.Keys !! n.Keys
    ensures Total(m + n) == Total(m) + Total(n)
    decreases |n|
  {
    hide Sum, Total;
    if n.Keys == {} {
      assert m + n == m;
      NothingTotal(n);
    } else {
      var base: nat :| base in n.Keys;
      TotalOfUnion(m, n - {base});
      AddLast(m, n, base);
      TotalOfMore(m + (n - {base}), base, n[base]);
      TotalOfAny(n, base);
    }
  }

  /** `checksum` of an image. */
  ghost function Checksum(m: Blocks): nat {
    Total(m) % WORDS
  }

  // ---------------------------------------------------------------- the methods of LOD

  lemma {:induction false} NoWords(data: seq<nat>)
    ensures Sum(data[..0]) == 0
  {
  }

  lemma {:induction false} SumOfMore(data: seq<nat>, i: nat)
    requires i < |data|
    ensures Sum(data[..i + 1]) == Sum(data[..i]) + data[i]
  {
    assert data[..i + 1][..i] == data[..i];
  }

  /** The inner loop of LOD.checksum: the words of one block. */
  method AddWords(before: nat, data: seq<nat>) returns (sum: nat)
    ensures sum == before + Sum(data)
  {
    hide Sum;
    sum := before;
    var i := 0;
    assert Sum(data[..0]) == 0 by { NoWords(data); }
    while i < |data|
      invariant 0 <= i <= |data| && sum == before + Sum(data[..i])
    {
      SumOfMore(data, i);
      sum := sum + data[i];
      i := i + 1;
    }
    assert data[..|data|] == data;
  }

  /** LOD.checksum: the order in which the dictionary is walked does not matter. */
  method ComputeChecksum(m: Blocks) returns (sum: nat)
    ensures sum == Checksum(m)
  {
    hide Sum, Total;
    sum := 0;
    var rest := m;
    while rest.Keys != {}
      invariant sum + Total(rest) == Total(m)
      decreases |rest|
    {
      var base: nat :| base in rest.Keys;
      TotalOfAny(rest, base);
      sum := AddWords(sum, rest[base]);
      rest := rest - {base};
    }
    NothingTotal(rest);
    sum := sum % WORDS;
  }

  /** LOD.end_address. */
  method EndAddress(m: Blocks) returns (e: nat)
    ensures IsEnd(m, e)
  {
    e := 0;
    var rest := m;
    while rest.Keys != {}
      invariant forall base :: base in rest ==> base in m && rest[base] == m[base]
      invariant forall base :: base in m && base !in rest ==> base + 4 * |m[base]| <= e
      invariant e == 0 || exists base :: base in m && base + 4 * |m[base]| == e
      decreases |rest|
    {
      var base: nat :| base in rest.Keys;
      var bea := base + |rest[base]| * 4;
      if bea > e {
        e := bea;
      }
      rest := rest - {base};
    }
  }

  /** LOD.start_address, which fails on an empty image. */
  method StartAddress(m: Blocks) returns (s: Option<nat>)
    ensures s.None? <==> m == map[]
    ensures s.Some? ==> IsStart(m, s.value)
  {
    if m.Keys == {} {
      return None;
    }
    var first: nat :| first in m.Keys;
    var least := first;
    var rest := m - {first};
    while rest.Keys != {}
      invariant least in m && (forall base :: base in rest ==> base in m)
      invariant forall base :: base in m && base !in rest ==> least <= base
      decreases |rest|
    {
      var base: nat :| base in rest.Keys;
      if base < least {
        least := base;
      }
      rest := rest - {base};
    }
    s := Some(least);
  }

  // ---------------------------------------------------------------- padding

  /** The blocks fill the addresses from `lo` up to `hi`, and nothing else, with blank words. */
  ghost predicate Tiles(pads: Blocks, lo: nat, hi: nat) {
    && WellFormed(pads)
    && (forall base :: base in pads ==> lo <= base && base + 4 * |pads[base]| <= hi)
    && (forall base, i :: base in pads && 0 <= i < |pads[base]| ==> pads[base][i] == BLANK)
    && (forall a: nat :: lo <= a < hi ==> Covered(pads, a))
  }

  function Blanks(n: nat): (data: seq<nat>)
    ensures |data| == n && forall i :: 0 <= i < n ==> data[i] == BLANK
  {
    seq(n, _ => BLANK)
  }

  lemma {:induction false} SumOfBlanks(n: nat)
    ensures Sum(Blanks(n)) == n * BLANK
  {
    if n > 0 {
      SumOfBlanks(n - 1);
      assert Blanks(n)[..n - 1] == Blanks(n - 1);
    }
  }

  /** One more tile. */
  lemma {:induction false} TileMore(pads: Blocks, lo: nat, pa: nat, size: nat)
    requires Tiles(pads, lo, pa) && lo <= pa && 0 < size && size % 4 == 0
    ensures pa !in pads && Tiles(pads[pa := Blanks(size / 4)], lo, pa + size)
  {
    var more := pads[pa := Blanks(size / 4)];
    forall a: nat | lo <= a < pa + size ensures Covered(more, a) {
      if a < pa {
        assert Covered(pads, a);
        var base: nat :| Covers(pads, base, a);
        assert Covers(more, base, a);
      } else {
        assert Covers(more, pa, a);
      }
    }
  }

  lemma {:induction false} NoTiles(lo: nat)
    ensures Tiles(map[], lo, lo) && Total(map[]) == 0
  {
  }

  lemma {:induction false} MultipleAligned(k: nat)
    ensures (0x1000 * k) % 0x1000 == 0
  {
  }

  /** Steps of aligned sizes keep addresses aligned. */
  lemma {:induction false} StaysAligned(pa: nat, size: nat)
    requires pa % 0x1000 == 0 && size % 0x1000 == 0
    ensures (pa + size) % 0x1000 == 0
  {
    MultipleAligned(pa / 0x1000 + size / 0x1000);
  }

  /** What is aligned to 64 KiB is aligned to 4 KiB. */
  lemma {:induction false} CoarselyAligned(pa: nat)
    requires pa % 0x10000 == 0
    ensures pa % 0x1000 == 0
  {
    var k := pa / 0x10000;
    MultipleAligned(16 * k);
    assert pa == 0x1000 * (16 * k);
  }

  /** The size of the next padding block: 64 KiB, 4 KiB, or none. */
  method BlockSize(pa: nat, sa2: nat) returns (blockSize: nat)
    requires pa < sa2
    ensures blockSize <= sa2 - pa && blockSize % 4 == 0 && (blockSize > 0 ==> (pa + blockSize) % 0x1000 == 0)
    ensures blockSize > 0 <==> pa % 0x1000 == 0 && sa2 - pa >= 0x1000
    ensures blockSize > 0 ==> blockSize == if pa % 0x10000 == 0 && sa2 - pa >= 0x10000 then 0x10000 else 0x1000
  {
    blockSize := sa2 - pa;
    if pa % 0x10000 == 0 && blockSize >= 0x10000 {
      blockSize := 0x10000;
      CoarselyAligned(pa);
      StaysAligned(pa, blockSize);
    } else if pa % 0x1000 == 0 && blockSize >= 0x1000 {
      blockSize := 0x1000;
      StaysAligned(pa, blockSize);
    } else {
      blockSize := 0;
    }
  }

  /** One padding block. */
  method AddTile(memory: Memory, pa: nat, size: nat, ghost ea1: nat, ghost pads: Blocks) returns (ghost more: Blocks)
    requires ea1 <= pa && 0 < size && size % 4 == 0
    requires Tiles(pads, ea1, pa) && 4 * Total(pads) == (pa - ea1) * BLANK
    modifies memory
    ensures Tiles(more, ea1, pa + size) && 4 * Total(more) == (pa + size - ea1) * BLANK
    ensures pads.Keys !! more.Keys - pads.Keys && memory.blocks == old(memory.blocks) + (more - pads.Keys)
    ensures more == pads + (more - pads.Keys)
    ensures forall base :: base in more - pads.Keys ==> base == pa && |more[base]| == size / 4
  {
    hide Tiles, Total, Sum, Blanks;
    var data := Blanks(size / 4);
    TileMore(pads, ea1, pa, size);
    TotalOfMore(pads, pa, data);
    SumOfBlanks(size / 4);
    memory.blocks := memory.blocks[pa := data];
    more := pads[pa := data];
    assert more - pads.Keys == map[pa := data];
  }

  /** What is left of a gap between two aligned addresses is aligned itself. */
  lemma {:induction false} Misaligned(pa: nat, sa2: nat)
    requires pa < sa2
    ensures pa % 0x1000 == 0 && sa2 % 0x1000 == 0 ==> sa2 - pa >= 0x1000
  {
  }

  /**
   The padding loop of dual_merge. It succeeds exactly when there is no gap or both of its ends are aligned;
   otherwise the dictionary keeps the tiles that were added.
   */
  method FillGap(memory: Memory, ea1: nat, sa2: nat) returns (ok: bool, ghost pads: Blocks)
    modifies memory
    ensures ok <==> ea1 >= sa2 || (ea1 % 0x1000 == 0 && sa2 % 0x1000 == 0)
    ensures memory.blocks == old(memory.blocks) + pads
    ensures ok && ea1 <= sa2 ==> Tiles(pads, ea1, sa2) && 4 * Total(pads) == (sa2 - ea1) * BLANK
    ensures ok && ea1 == sa2 ==> pads == map[]
    ensures forall base :: base in pads ==>
              4 * |pads[base]| == if base % 0x10000 == 0 && sa2 - base >= 0x10000 then 0x10000 else 0x1000
    ensures !ok ==> exists pa :: ea1 <= pa < sa2 && Tiles(pads, ea1, pa)
  {
    hide Tiles, Total;
    pads := map[];
    NoTiles(ea1);
    var pa := ea1;
    while pa < sa2
      invariant ea1 <= pa && (pa <= sa2 || pa == ea1) && (pa == ea1 || pa % 0x1000 == 0 == ea1 % 0x1000)
      invariant pa == ea1 ==> pads == map[]
      invariant memory.blocks == old(memory.blocks) + pads
      invariant Tiles(pads, ea1, pa) && 4 * Total(pads) == (pa - ea1) * BLANK
      invariant forall base :: base in pads ==>
                  4 * |pads[base]| == if base % 0x10000 == 0 && sa2 - base >= 0x10000 then 0x10000 else 0x1000
      decreases sa2 - pa
    {
      var blockSize := BlockSize(pa, sa2);
      if blockSize == 0 {
        Misaligned(pa, sa2);
        return false, pads;
      }
      ghost var more := AddTile(memory, pa, blockSize, ea1, pads);
      assert memory.blocks == old(memory.blocks) + more;
      pads := more;
      pa := pa + blockSize;
    }
    ok := true;
  }

  // ---------------------------------------------------------------- the merge

  datatype Outcome = Merged | NoBootSector | NoBootData | EmptyImage | NotFirst | TooBig | Unaligned

  /** x | 0x08000000. */
  function WithFlashBit(x: int): int {
    if (x / 0x0800_0000) % 2 == 1 then x else x + 0x0800_0000
  }

  /** The bit is set, those above and below it are as they were. */
  lemma {:induction false} OneBitSet(x: int)
    ensures var y := WithFlashBit(x);
            (y / 0x0800_0000) % 2 == 1 && y % 0x0800_0000 == x % 0x0800_0000 && y / 0x1000_0000 == x / 0x1000_0000
  {
    var q, r := x / 0x0800_0000, x % 0x0800_0000;
    assert x == q * 0x0800_0000 + r;
    if q % 2 == 0 {
      assert (x + 0x0800_0000) / 0x0800_0000 == q + 1;
    }
  }

  /**
   The merged image reads as the platform image below `ea1`, blank in the gap if it was filled, and as the application
   image from `sa2`; every blank word takes one from the checksum.
   */
  ghost predicate MergedImage(o: Blocks, p: Blocks, a: Blocks, ea1: nat, sa2: nat, filled: bool) {
    && WellFormed(o)
    && (forall at: nat, w: nat :: at < ea1 ==> (Reads(o, at, w) <==> Reads(p, at, w)))
    && (forall at: nat, w: nat :: ea1 <= at < sa2 ==> (Reads(o, at, w) <==> filled && w == 0xffff_ffff))
    && (forall at: nat, w: nat :: sa2 <= at ==> (Reads(o, at, w) <==> Reads(a, at, w)))
    && Checksum(o) == (Checksum(p) + Checksum(a) - (if filled then (sa2 - ea1) / 4 else 0)) % 0x1_0000_0000
  }

  /** Blocks that lie below those of another image. */
  ghost predicate Below(low: Blocks, at: nat, high: Blocks) {
    && (forall base :: base in low ==> base < base + 4 * |low[base]| <= at)
    && (forall base :: base in high ==> at <= base)
  }

  /** Two well-formed images, one below the other, are one well-formed image. */
  lemma {:induction false} WellFormedUnion(high: Blocks, low: Blocks, at: nat)
    requires WellFormed(high) && WellFormed(low) && Below(low, at, high)
    ensures high.Keys !! low.Keys && WellFormed(high + low)
  {
  }

  /** Where the blocks of the three parts lie. */
  lemma {:induction false} PartsApart(p: Blocks, a: Blocks, pads: Blocks, ea1: nat, sa2: nat)
    requires WellFormed(p) && WellFormed(a) && IsEnd(p, ea1) && IsStart(a, sa2) && ea1 <= sa2
    requires pads == map[] || Tiles(pads, ea1, sa2)
    ensures a.Keys !! pads.Keys && (a + pads).Keys !! p.Keys && WellFormed(a + pads + p)
    ensures forall base :: base in p ==> base + 4 * |p[base]| <= ea1 && base < ea1
    ensures forall base :: base in pads ==> ea1 <= base && base + 4 * |pads[base]| <= sa2
    ensures forall base :: base in a ==> sa2 <= base
  {
    assert Below(pads, sa2, a);
    WellFormedUnion(a, pads, sa2);
    assert Below(p, ea1, a + pads);
    WellFormedUnion(a + pads, p, ea1);
  }

  /** A part of an image reads the same in the whole. */
  lemma {:induction false} ReadsPart(o: Blocks, part: Blocks, at: nat, w: nat)
    requires forall base :: base in part ==> base in o && o[base] == part[base]
    ensures Reads(part, at, w) ==> Reads(o, at, w)
  {
    if Reads(part, at, w) {
      var base: nat :| Covers(part, base, at) && part[base][(at - base) / 4] == w;
      assert Covers(o, base, at);
    }
  }

  lemma {:induction false} OnlyParts(a: Blocks, pads: Blocks, p: Blocks, at: nat, w: nat)
    ensures Reads(a + pads + p, at, w) ==> Reads(a, at, w) || Reads(pads, at, w) || Reads(p, at, w)
  {
    if Reads(a + pads + p, at, w) {
      var o := a + pads + p;
      var base: nat :| Covers(o, base, at) && o[base][(at - base) / 4] == w;
      if base in p {
        assert Covers(p, base, at);
      } else if base in pads {
        assert Covers(pads, base, at);
      } else {
        assert Covers(a, base, at);
      }
    }
  }

  lemma {:induction false} NotBeyond(m: Blocks, at: nat, w: nat)
    ensures Reads(m, at, w) ==> exists base: nat :: base in m && base <= at < base + 4 * |m[base]|
  {
    if Reads(m, at, w) {
      var base: nat :| Covers(m, base, at) && m[base][(at - base) / 4] == w;
      assert base in m && base <= at < base + 4 * |m[base]|;
    }
  }

  lemma {:induction false} BlankReads(pads: Blocks, lo: nat, hi: nat, at: nat, w: nat)
    requires pads == map[] || Tiles(pads, lo, hi)
    ensures lo <= at < hi ==> (Reads(pads, at, w) <==> pads != map[] && w == BLANK)
  {
    if lo <= at < hi && pads != map[] {
      assert Covered(pads, at);
      var base: nat :| Covers(pads, base, at);
      assert pads[base][(at - base) / 4] == BLANK;
    }
    if Reads(pads, at, w) {
      var base: nat :| Covers(pads, base, at) && pads[base][(at - base) / 4] == w;
      assert pads[base][(at - base) / 4] == BLANK;
    }
  }

  lemma {:induction false} MergedReads(p: Blocks, a: Blocks, pads: Blocks, ea1: nat, sa2: nat, at: nat, w: nat)
    requires WellFormed(p) && WellFormed(a) && IsEnd(p, ea1) && IsStart(a, sa2) && ea1 <= sa2
    requires pads == map[] || Tiles(pads, ea1, sa2)
    ensures at < ea1 ==> (Reads(a + pads + p, at, w) <==> Reads(p, at, w))
    ensures ea1 <= at < sa2 ==> (Reads(a + pads + p, at, w) <==> pads != map[] && w == BLANK)
    ensures sa2 <= at ==> (Reads(a + pads + p, at, w) <==> Reads(a, at, w))
  {
    hide *;
    PartsApart(p, a, pads, ea1, sa2);
    var o := a + pads + p;
    ReadsPart(o, p, at, w);
    ReadsPart(o, pads, at, w);
    ReadsPart(o, a, at, w);
    OnlyParts(a, pads, p, at, w);
    NotBeyond(p, at, w);
    NotBeyond(pads, at, w);
    NotBeyond(a, at, w);
    BlankReads(pads, ea1, sa2, at, w);
  }

  lemma {:induction false} AddWraps(z: int, k: nat)
    ensures (z + k * WORDS) % WORDS == z % WORDS
  {
    if k > 0 {
      AddWraps(z, k - 1);
      assert z + k * WORDS == (z + (k - 1) * WORDS) + WORDS;
    }
  }

  lemma {:induction false} Wraps(x: nat, y: nat, n: nat)
    ensures (y + (n * WORDS - n) + x) % WORDS == (x % WORDS + y % WORDS - n) % WORDS
  {
    var k := x / WORDS + y / WORDS + n;
    assert y + (n * WORDS - n) + x == (x % WORDS + y % WORDS - n) + k * WORDS;
    AddWraps(x % WORDS + y % WORDS - n, k);
  }

  /** Each blank word takes one from the checksum. */
  lemma {:induction false} MergedChecksum(p: Blocks, a: Blocks, pads: Blocks, gap: nat)
    requires a.Keys !! pads.Keys && (a + pads).Keys !! p.Keys && gap % 4 == 0 && 4 * Total(pads) == gap * BLANK
    ensures Checksum(a + pads + p) == (Checksum(p) + Checksum(a) - gap / 4) % WORDS
  {
    TotalOfUnion(a, pads);
    TotalOfUnion(a + pads, p);
    var n := gap / 4;
    assert Total(pads) == n * BLANK == n * WORDS - n;
    Wraps(Total(p), Total(a), n);
  }

  lemma {:induction false} MergedIs(p: Blocks, a: Blocks, pads: Blocks, ea1: nat, sa2: nat, filled: bool)
    requires WellFormed(p) && WellFormed(a) && IsEnd(p, ea1) && IsStart(a, sa2) && ea1 <= sa2
    requires if filled then Tiles(pads, ea1, sa2) && (ea1 == sa2 ==> pads == map[]) else pads == map[]
    requires var gap := if filled then sa2 - ea1 else 0; gap % 4 == 0 && 4 * Total(pads) == gap * BLANK
    ensures MergedImage(a + pads + p, p, a, ea1, sa2, filled)
  {
    hide Reads, WellFormed, IsEnd, IsStart, Checksum, Total;
    PartsApart(p, a, pads, ea1, sa2);
    MergedChecksum(p, a, pads, if filled then sa2 - ea1 else 0);
    if filled && ea1 < sa2 {
      assert Covered(pads, ea1);
      var base: nat :| Covers(pads, base, ea1);
    }
    forall at: nat, w: nat
      ensures at < ea1 ==> (Reads(a + pads + p, at, w) <==> Reads(p, at, w))
      ensures ea1 <= at < sa2 ==> (Reads(a + pads + p, at, w) <==> filled && w == BLANK)
      ensures sa2 <= at ==> (Reads(a + pads + p, at, w) <==> Reads(a, at, w))
    {
      MergedReads(p, a, pads, ea1, sa2, at, w);
    }
  }

  lemma {:induction false} MergeCorrect(p: Blocks, a: Blocks, pads: Blocks, ea1: nat, sa2: nat, filled: bool)
    requires IsEnd(p, ea1) && IsStart(a, sa2) && ea1 <= sa2
    requires if filled then Tiles(pads, ea1, sa2) && (ea1 == sa2 ==> pads == map[]) else pads == map[]
    requires filled ==> ea1 == sa2 || (ea1 % 0x1000 == 0 && sa2 % 0x1000 == 0)
    requires 4 * Total(pads) == (if filled then sa2 - ea1 else 0) * BLANK
    ensures WellFormed(p) && WellFormed(a) ==> MergedImage(a + pads + p, p, a, ea1, sa2, filled)
  {
    hide *;
    if WellFormed(p) && WellFormed(a) {
      MergedIs(p, a, pads, ea1, sa2, filled);
    }
  }

  /** The attributes of the output: those of the application image, the boot sector of the platform image. */
  function MergedAttrs(names: seq<string>, attrs: map<string, string>, boot: string): map<string, string>
    requires forall name :: name in names ==> name in attrs
  {
    (map name | name in names :: attrs[name])["BOOT_SECTOR" := boot]
  }

  lemma {:induction false} AttrsMerged(names: seq<string>, attrs: map<string, string>, boot: string)
    requires forall name :: name in names ==> name in attrs
    ensures var merged := MergedAttrs(names, attrs, boot);
            && "BOOT_SECTOR" in merged && merged["BOOT_SECTOR"] == boot
            && (forall name :: name in names && name != "BOOT_SECTOR" ==> name in merged && merged[name] == attrs[name])
            && (forall name :: name in merged ==> name == "BOOT_SECTOR" || name in names)
  {
  }

  /** The image starts at that address. */
  ghost predicate StartsAt(m: Blocks, s: int) {
    s >= 0 && IsStart(m, s)
  }

  lemma {:induction false} OneStart(m: Blocks, s: nat)
    requires IsStart(m, s)
    ensures forall t :: StartsAt(m, t) <==> t == s
  {
  }

  /**
   dual_merge. `number` is int(text, 0). The output shares its dictionary with the application image,
   which is changed also when the padding fails.
   */
  method DualMerge(bl: LOD, lod: LOD, fillBlank: bool, number: string -> int)
    returns (outcome: Outcome, output: LOD?, ghost ea1: nat, ghost sa2: nat)
    requires bl.memory != lod.memory
    requires forall name :: name in bl.attrnames ==> name in bl.attrs
    requires forall name :: name in lod.attrnames ==> name in lod.attrs
    modifies lod.memory
    ensures outcome == NoBootSector <==> "BOOT_SECTOR" !in bl.attrnames
    ensures outcome == NoBootData ==> WithFlashBit(number(bl.attrs["BOOT_SECTOR"])) !in bl.memory.blocks.Keys
    ensures outcome !in {NoBootSector, NoBootData} ==>
              WithFlashBit(number(bl.attrs["BOOT_SECTOR"])) in bl.memory.blocks.Keys
    ensures outcome == EmptyImage ==> old(lod.memory.blocks) == map[]
    ensures outcome == NotFirst ==> old(lod.memory.blocks) != map[]
                                    && !StartsAt(bl.memory.blocks, WithFlashBit(number(bl.attrs["BOOT_SECTOR"])))
    ensures outcome in {TooBig, Unaligned, Merged} ==>
              && StartsAt(bl.memory.blocks, WithFlashBit(number(bl.attrs["BOOT_SECTOR"])))
              && IsEnd(bl.memory.blocks, ea1) && IsStart(old(lod.memory.blocks), sa2)
    ensures outcome == TooBig ==> ea1 > sa2
    ensures outcome == Unaligned ==> ea1 < sa2 && fillBlank && !(ea1 % 0x1000 == 0 && sa2 % 0x1000 == 0)
    ensures outcome == Merged ==> ea1 <= sa2 && (fillBlank ==> ea1 == sa2 || (ea1 % 0x1000 == 0 && sa2 % 0x1000 == 0))
    ensures outcome == Merged <==> output != null
    ensures outcome != Merged && outcome != Unaligned ==> lod.memory.blocks == old(lod.memory.blocks)
    ensures output != null ==>
              && output.memory == lod.memory && output.attrnames == lod.attrnames
              && "BOOT_SECTOR" in output.attrs && output.attrs["BOOT_SECTOR"] == bl.attrs["BOOT_SECTOR"]
              && (forall name :: name in lod.attrnames && name != "BOOT_SECTOR" ==>
                    name in output.attrs && output.attrs[name] == lod.attrs[name])
              && (forall name :: name in output.attrs ==> name == "BOOT_SECTOR" || name in lod.attrnames)
    ensures output != null && WellFormed(bl.memory.blocks) && WellFormed(old(lod.memory.blocks)) ==>
              MergedImage(lod.memory.blocks, bl.memory.blocks, old(lod.memory.blocks), ea1, sa2, fillBlank)
  {
    hide *;
    output, ea1, sa2 := null, 0, 0;
    if "BOOT_SECTOR" !in bl.attrnames {
      return NoBootSector, null, ea1, sa2;
    }
    var bs1 := WithFlashBit(number(bl.attrs["BOOT_SECTOR"]));
    if bs1 !in bl.memory.blocks.Keys {
      return NoBootData, null, ea1, sa2;
    }
    var first := StartAddress(bl.memory.blocks);
    var second := StartAddress(lod.memory.blocks);
    if second.None? {
      return EmptyImage, null, ea1, sa2;
    }
    OneStart(bl.memory.blocks, first.value);
    if bs1 != first.value {
      return NotFirst, null, ea1, sa2;
    }
    var end := EndAddress(bl.memory.blocks);
    ea1, sa2 := end, second.value;
    if end > second.value {
      return TooBig, null, ea1, sa2;
    }
    ghost var p, a := bl.memory.blocks, lod.memory.blocks;
    ghost var pads: Blocks := map[];
    NoTiles(ea1);
    if fillBlank {
      var ok;
      ok, pads := FillGap(lod.memory, end, second.value);
      if !ok {
        return Unaligned, null, ea1, sa2;
      }
    }
    assert lod.memory.blocks == a + pads;
    output := new LOD(lod.attrnames, MergedAttrs(lod.attrnames, lod.attrs, bl.attrs["BOOT_SECTOR"]), lod.memory);
    AttrsMerged(lod.attrnames, lod.attrs, bl.attrs["BOOT_SECTOR"]);
    lod.memory.blocks := lod.memory.blocks + bl.memory.blocks;
    outcome := Merged;
    MergeCorrect(p, a, pads, ea1, sa2, fillBlank);
  }
}
