/** The relocation table: regions of memory that moved, sorted by source address, and the binary
  * search that rewrites pointers through it. */
module Relocation {
  import opened HeapModel

  /** The bytes `start .. end` moved to `destination`; `offset` is the 32-bit difference. */
  datatype Region = Region(start: Addr, end: int, destination: Addr, offset: Addr)
  {
    predicate Contains(p: Addr) {
      start <= p < end
    }

    /** Source and destination fit the address space; the offset is their wrapped difference. */
    predicate Valid() {
      && start < end <= ADDRESS_SPACE && destination + (end - start) <= ADDRESS_SPACE
      && offset == (destination - start) % ADDRESS_SPACE
    }
  }

  function RegionOf(destination: Addr, start: Addr, length: int): Region {
    Region(start, start + length, destination, (destination - start) % ADDRESS_SPACE)
  }

  function Shift(p: Addr, offset: Addr): Addr {
    (p + offset) % ADDRESS_SPACE
  }

  lemma ShiftIsMove(r: Region, p: Addr)
    requires r.Valid() && r.Contains(p)
    ensures Shift(p, r.offset) == p - r.start + r.destination
  {
    var d := r.destination - r.start;
    assert r.offset == if d < 0 then d + ADDRESS_SPACE else d;
  }

  /** Search of all regions, first to last. */
  function Lookup(regions: seq<Region>, p: Addr): Addr {
    if regions == [] then p
    else if regions[0].Contains(p) then Shift(p, regions[0].offset)
    else Lookup(regions[1..], p)
  }

  /** Regions are well formed and their sources are disjoint and strictly ascending. */
  ghost predicate Sorted(regions: seq<Region>) {
    && (forall i :: 0 <= i < |regions| ==> regions[i].Valid())
    && (forall i, j :: 0 <= i < j < |regions| ==> regions[i].end <= regions[j].start)
  }

  /** Every region moved to a lower address. */
  ghost predicate Downwards(regions: seq<Region>) {
    forall i :: 0 <= i < |regions| ==> regions[i].destination < regions[i].start
  }

  lemma {:induction false} LookupHit(regions: seq<Region>, i: nat, p: Addr)
    requires Sorted(regions) && i < |regions| && regions[i].Contains(p)
    ensures Lookup(regions, p) == Shift(p, regions[i].offset) == p - regions[i].start + regions[i].destination
  {
    ShiftIsMove(regions[i], p);
    if i > 0 {
      assert regions[0].end <= regions[i].start;
      LookupHit(regions[1..], i - 1, p);
    }
  }

  lemma {:induction false} LookupMiss(regions: seq<Region>, p: Addr)
    requires forall i :: 0 <= i < |regions| ==> !regions[i].Contains(p)
    ensures Lookup(regions, p) == p
  {
    if regions != [] {
      assert !regions[0].Contains(p);
      LookupMiss(regions[1..], p);
    }
  }

  /** Either no region contains the address, or exactly one rewrites it downwards. */
  lemma LookupCases(regions: seq<Region>, p: Addr) returns (i: int)
    requires Sorted(regions)
    ensures -1 <= i < |regions|
    ensures i == -1 ==> Lookup(regions, p) == p && forall j :: 0 <= j < |regions| ==> !regions[j].Contains(p)
    ensures i >= 0 ==> regions[i].Contains(p) && Lookup(regions, p) == p - regions[i].start + regions[i].destination
  {
    if j :| 0 <= j < |regions| && regions[j].Contains(p) {
      i := j;
      LookupHit(regions, j, p);
    } else {
      i := -1;
      LookupMiss(regions, p);
    }
  }

  /** Relocating in two batches is relocating once: a rewritten pointer lies below every region
    * of the second batch. */
  lemma LookupCompose(first: seq<Region>, second: seq<Region>, p: Addr)
    requires Sorted(first + second) && Downwards(first)
    ensures Lookup(second, Lookup(first, p)) == Lookup(first + second, p)
  {
    var all := first + second;
    assert Sorted(first) by {
      assert forall i :: 0 <= i < |first| ==> first[i] == all[i];
    }
    assert Sorted(second) by {
      assert forall i :: 0 <= i < |second| ==> second[i] == all[|first| + i];
    }
    var i := LookupCases(first, p);
    if i >= 0 {
      assert all[i] == first[i];
      LookupHit(all, i, p);
      var q := Lookup(first, p);
      forall j | 0 <= j < |second| ensures !second[j].Contains(q) {
        assert second[j] == all[|first| + j];
      }
      LookupMiss(second, q);
    } else {
      var k := LookupCases(second, p);
      if k >= 0 {
        assert all[|first| + k] == second[k];
        LookupHit(all, |first| + k, p);
      } else {
        forall j | 0 <= j < |all| ensures !all[j].Contains(p) {
          assert all[j] == if j < |first| then first[j] else second[j - |first|];
        }
        LookupMiss(all, p);
      }
    }
  }

  /** A region appended above every address in play only affects the addresses it contains. */
  lemma LookupAppend(regions: seq<Region>, r: Region, p: Addr)
    requires Sorted(regions + [r])
    ensures Lookup(regions + [r], p) == if r.Contains(p) then p - r.start + r.destination else Lookup(regions, p)
  {
    var all := regions + [r];
    assert Sorted(regions) by {
      assert forall i :: 0 <= i < |regions| ==> regions[i] == all[i];
    }
    assert all[|regions|] == r;
    if r.Contains(p) {
      LookupHit(all, |regions|, p);
    } else {
      var i := LookupCases(regions, p);
      if i >= 0 {
        assert all[i] == regions[i];
        LookupHit(all, i, p);
      } else {
        forall j | 0 <= j < |all| ensures !all[j].Contains(p) {
          assert all[j] == if j < |regions| then regions[j] else r;
        }
        LookupMiss(all, p);
      }
    }
  }

  // ----- Rewriting whole blocks

  function RelocatedCell(c: Cell, regions: seq<Region>): Cell {
    if c.Ref? then Ref(Lookup(regions, c.addr)) else c
  }

  function RelocatedCells(cells: seq<Cell>, regions: seq<Region>): seq<Cell> {
    seq(|cells|, i requires 0 <= i < |cells| => RelocatedCell(cells[i], regions))
  }

  /** Blocks of these kinds have no relocation routine. */
  predicate NotRelocated(k: Kind) {
    k.FreeBlock? || k.Hole? || k.CachedBlock?
  }

  function RelocatedBlock(h: Block, regions: seq<Region>): Block {
    if NotRelocated(h.kind) then h else h.(cells := RelocatedCells(h.cells, regions))
  }

  lemma RelocatedNothing(h: Block)
    ensures RelocatedBlock(h, []) == h
  {
    assert RelocatedCells(h.cells, []) == h.cells;
  }

  lemma RelocatedCompose(h: Block, first: seq<Region>, second: seq<Region>)
    requires Sorted(first + second) && Downwards(first)
    ensures RelocatedBlock(RelocatedBlock(h, first), second) == RelocatedBlock(h, first + second)
  {
    forall p: Addr ensures Lookup(second, Lookup(first, p)) == Lookup(first + second, p) {
      LookupCompose(first, second, p);
    }
    assert RelocatedCells(RelocatedCells(h.cells, first), second) == RelocatedCells(h.cells, first + second);
  }

  // ----- The table

  class RelocationTable {
    const regions: array<Region>
    var count: nat
    var minimum: int
    var maximum: int

    constructor (total: nat)
      ensures regions.Length == total && fresh(regions) && count == 0
    {
      regions := new Region[total](_ => Region(0, 0, 0, 0));
      count := 0;
      minimum, maximum := 0, 0;
    }

    ghost predicate Valid()
      reads this, regions
    {
      count <= regions.Length && Sorted(regions[..count])
    }

    /** The bounds that let a pointer outside every region be skipped. */
    method ComputeBounds()
      requires Valid() && 0 < count
      modifies this`minimum, this`maximum
      ensures Bounded()
    {
      minimum, maximum := regions[0].start, regions[0].end;
      var i := 0;
      while i < count
        invariant 0 <= i <= count
        invariant forall j :: 0 <= j < i ==> minimum <= regions[j].start && regions[j].end <= maximum
      {
        if minimum > regions[i].start { minimum := regions[i].start; }
        if maximum < regions[i].end { maximum := regions[i].end; }
        i := i + 1;
      }
    }

    ghost predicate Bounded()
      reads this, regions
    {
      && count <= regions.Length
      && forall j :: 0 <= j < count ==> minimum <= regions[j].start && regions[j].end <= maximum
    }

    /** Binary search for the region that contains the pointer. */
    method Relocate(ref: Addr) returns (res: Addr)
      requires Valid() && Bounded()
      ensures res == Lookup(regions[..count], ref)
    {
      ghost var table := regions[..count];
      if minimum <= ref < maximum {
        var left, right := 0, count;
        while left < right
          invariant 0 <= left <= right <= count
          invariant forall j :: 0 <= j < left ==> !table[j].Contains(ref)
          invariant forall j :: right <= j < count ==> !table[j].Contains(ref)
        {
          var center := (left + right) / 2;
          var current := regions[center];
          assert current == table[center];
          if ref < current.start {
            right := center;
          } else if ref >= current.end {
            left := center + 1;
          } else {
            LookupHit(table, center, ref);
            return Shift(ref, current.offset);
          }
        }
      }
      LookupMiss(table, ref);
      return ref;
    }

    /** Inserts a region so that the table stays sorted by source address. */
    method AddBlock(dst: Addr, src: Addr, length: int) returns (ghost k: nat)
      requires Valid() && count < regions.Length
      requires 0 < length && dst + length <= ADDRESS_SPACE && src + length <= ADDRESS_SPACE
      requires forall j :: 0 <= j < count ==> regions[j].end <= src || src + length <= regions[j].start
      modifies this`count, regions
      ensures Valid() && count == old(count) + 1
      ensures k <= old(count)
      ensures regions[..count] == old(regions[..count])[..k] + [RegionOf(dst, src, length)] + old(regions[..count])[k..]
    {
      hide Lookup;
      ghost var table := regions[..count];
      ghost var r := RegionOf(dst, src, length);
      assert forall j :: 0 <= j < count ==> table[j] == regions[j];
      var reloc, left := 0, count;
      while left > 0
        invariant reloc + left == count
        invariant forall j :: 0 <= j < reloc ==> regions[j].start <= src
      {
        if regions[reloc].start > src {
          break;
        }
        reloc := reloc + 1;
        left := left - 1;
      }
      k := reloc;
      InsertedIsSorted(table, k, r);
      hide Sorted;
      MoveUp(reloc);
      regions[reloc] := RegionOf(dst, src, length);
      count := count + 1;
      assert regions[..count] == table[..k] + [r] + table[k..];
    }

    /** Shifts the entries from `k` on up by one. */
    method MoveUp(k: nat)
      requires k <= count < regions.Length
      modifies regions
      ensures forall j :: 0 <= j < k ==> regions[j] == old(regions[j])
      ensures forall j :: k <= j < count ==> regions[j + 1] == old(regions[j])
    {
      var i := count;
      while i > k
        invariant k <= i <= count
        invariant forall j :: 0 <= j <= i && j < count ==> regions[j] == old(regions[j])
        invariant forall j :: i <= j < count ==> regions[j + 1] == old(regions[j])
      {
        regions[i] := regions[i - 1];
        i := i - 1;
      }
    }
  }

  lemma InsertedIsSorted(table: seq<Region>, k: nat, r: Region)
    requires Sorted(table) && k <= |table| && r.Valid()
    requires forall j :: 0 <= j < |table| ==> table[j].end <= r.start || r.end <= table[j].start
    requires forall j :: 0 <= j < k ==> table[j].start <= r.start
    requires k < |table| ==> table[k].start > r.start
    ensures Sorted(table[..k] + [r] + table[k..])
  {
    var all := table[..k] + [r] + table[k..];
    assert forall j :: 0 <= j < |all| ==> all[j] == if j < k then table[j] else if j == k then r else table[j - 1];
    forall j | 0 <= j < |table| ensures if j < k then table[j].end <= r.start else r.end <= table[j].start {
      assert table[j].Valid();
      if k < j { assert table[k].end <= table[j].start; assert table[k].Valid(); }
    }
  }
}
