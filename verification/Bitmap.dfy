/**
The block allocator of `src/fs/cache.c`: `cache_alloc` and `cache_free` on the bitmap, one bit
for every block of the file system, as an operation sees it through the block cache.
*/
module Bitmap {
  import opened Basics
  import opened Bits
  import opened Bytes
  import opened LogDisk

  // ----- the bits of a byte

  /** Adding a power of two to a number without that bit sets it and no other. */
  lemma {:induction false} BitAdded(x: nat, k: nat, j: nat)
    requires !Bit(x, k)
    ensures Bit(x + Pow2(k), j) <==> Bit(x, j) || j == k
    decreases k
  {
    if k == 0 {
      assert (x + 1) / 2 == x / 2;
    } else {
      assert (x + 2 * Pow2(k - 1)) / 2 == x / 2 + Pow2(k - 1);
      if j > 0 { BitAdded(x / 2, k - 1, j - 1); }
    }
  }

  lemma {:induction false} BitFits(x: nat, k: nat, m: nat)
    requires x < Pow2(m) && k < m
    ensures !Bit(x, k) ==> x + Pow2(k) < Pow2(m)
    ensures Bit(x, k) ==> Pow2(k) <= x && !Bit(x - Pow2(k), k)
    decreases m
  {
    if k > 0 { BitFits(x / 2, k - 1, m - 1); }
    if k > 0 && Bit(x, k) { assert (x - 2 * Pow2(k - 1)) / 2 == x / 2 - Pow2(k - 1); }
  }

  lemma {:induction false} BitBelow(x: nat, m: nat, k: nat)
    requires k < m
    ensures Bit(x + Pow2(m), k) == Bit(x, k)
    decreases k
  {
    assert (x + 2 * Pow2(m - 1)) / 2 == x / 2 + Pow2(m - 1);
    if k > 0 { BitBelow(x / 2, m - 1, k - 1); }
  }

  /** Subtraction in 8 bits. */
  function Minus(x: Byte, v: nat): Byte
    requires v <= 256
  {
    if v <= x then x - v else x - v + 256
  }

  /** Subtraction flips the bit, whether or not it was set; it changes no other bit if the bit
      was set. */
  lemma {:induction false} BitSubtracted(x: Byte, k: nat)
    requires k < 8
    ensures 0 < Pow2(k) <= 128
    ensures Bit(Minus(x, Pow2(k)), k) <==> !Bit(x, k)
    ensures Bit(x, k) ==> forall j :: Bit(Minus(x, Pow2(k)), j) <==> Bit(x, j) && j != k
  {
    Powers(k);
    BitFits(x, k, 8);
    var y := Minus(x, Pow2(k));
    if !Bit(x, k) {
      if !Bit(y, k) {
        BitAdded(y, k, k);
        BitBelow(x, 8, k);
      }
    } else {
      forall j ensures Bit(y, j) <==> Bit(x, j) && j != k { BitAdded(y, k, j); }
    }
  }

  /** The lowest set bit from bit `k` on, or 8. */
  function NextSet(x: Byte, k: nat): (j: nat)
    requires k <= 8
    ensures k <= j <= 8 && (j < 8 ==> Bit(x, j)) && forall i :: k <= i < j ==> !Bit(x, i)
    decreases 8 - k
  {
    if k == 8 || Bit(x, k) then k else NextSet(x, k + 1)
  }

  /** Setting the clear bits from `k` up to `j`. */
  lemma {:induction false} BitsFilled(x: nat, k: nat, j: nat, i: nat)
    requires k <= j && forall m :: k <= m < j ==> !Bit(x, m)
    ensures Pow2(k) <= Pow2(j) && (Bit(x + Pow2(j) - Pow2(k), i) <==> Bit(x, i) || k <= i < j)
    decreases j - k
  {
    if k < j {
      var y := x + Pow2(k);
      forall m | k < m < j ensures !Bit(y, m) { BitAdded(x, k, m); }
      BitsFilled(y, k + 1, j, i);
      BitAdded(x, k, i);
    }
  }

  lemma {:induction false} TopBit(x: nat, m: nat)
    requires x < Pow2(m + 1) && !Bit(x, m)
    ensures x < Pow2(m)
    decreases m
  {
    if m > 0 { TopBit(x / 2, m - 1); }
  }

  lemma {:induction false} NoHighBits(x: nat, k: nat, m: nat)
    requires k <= m && x < Pow2(m) && forall i :: k <= i < m ==> !Bit(x, i)
    ensures x < Pow2(k)
    decreases m
  {
    if k < m {
      TopBit(x, m - 1);
      NoHighBits(x, k, m - 1);
    }
  }

  /** Subtraction when the bit was clear: all bits from there up to the next set one become set, and that
      one is cleared. */
  lemma {:induction false} BitBorrowed(x: Byte, k: nat, i: nat)
    requires k < 8 && !Bit(x, k) && i < 8
    ensures var j := NextSet(x, k);
            && Pow2(k) <= 256 && k < j
            && (Bit(Minus(x, Pow2(k)), i) <==> k <= i < j || (i != j && Bit(x, i)))
  {
    var j := NextSet(x, k);
    Powers(k);
    if j < 8 {
      BitSubtracted(x, j);
      BitFits(x, j, 8);
      var y := x - Pow2(j);
      BitsFilled(y, k, j, i);
      assert Minus(x, Pow2(k)) == y + Pow2(j) - Pow2(k);
    } else {
      NoHighBits(x, k, 8);
      BitsFilled(x, k, 8, i);
    }
  }

  lemma {:induction false} Powers(k: nat)
    requires k < 8
    ensures 0 < Pow2(k) <= 128 && Pow2(8) == 256
  {
    assert Pow2(3) == 8;
    assert Pow2(6) == 64;
    assert k == 0 || k == 1 || k == 2 || k == 3 || k == 4 || k == 5 || k == 6 || k == 7;
  }

  // ----- the bitmap

  /** Bits in a bitmap block. */
  const PER_BLOCK: nat := 4096

  /** `SuperBlock`, as far as allocation and inodes need it. */
  datatype SuperBlock = SuperBlock(numBlocks: nat, numDataBlocks: nat, numInodes: nat, inodeStart: nat,
                                   bitmapStart: nat)
  {
    /** The inode blocks, the bitmap blocks and the data blocks follow each other. */
    predicate Ordered() {
      && numDataBlocks <= numBlocks < 0x8000_0000
      && 0 < inodeStart && inodeStart + numInodes / 8 < bitmapStart && bitmapStart + numBlocks / PER_BLOCK < DataStart()
    }

    function DataStart(): int { numBlocks - numDataBlocks }

    function BitmapBlock(b: nat): nat { bitmapStart + b / PER_BLOCK }

    predicate InBitmap(x: nat) { bitmapStart <= x < DataStart() }
  }

  function ByteOf(b: nat): (i: nat)
    ensures i < BLOCK_SIZE
  {
    b % PER_BLOCK / 8
  }

  predicate Marked(sb: SuperBlock, d: Disk, b: nat) {
    Bit(Rd(d, sb.BitmapBlock(b)).bytes[ByteOf(b)], b % 8)
  }

  /** The bits of a number in memory. */
  lemma {:induction false} BitOfBytes(b: seq<Byte>, k: nat)
    requires k < 8 * |b|
    ensures Bit(FromBytes(b), k) == Bit(b[k / 8], k % 8)
    decreases |b|
  {
    assert Pow2(8) == 256;
    BitJoined(FromBytes(b[1..]), 8, b[0], k);
    if k >= 8 { BitOfBytes(b[1..], k - 8); }
  }

  /** A block of the bitmap is one number of 4096 bits, a bit for each block of the file system in order. */
  lemma {:induction false} MarkedOnDisk(sb: SuperBlock, d: Disk, b: nat)
    ensures Marked(sb, d, b) <==> Bit(FromBytes(Rd(d, sb.bitmapStart + b / 4096).bytes), b % 4096)
  {
    hide Bit, FromBytes;
    BitOfBytes(Rd(d, sb.bitmapStart + b / 4096).bytes, b % 4096);
  }

  /** The bitmap marks every block before the data blocks, and of those exactly `marks`. */
  ghost predicate Marks(sb: SuperBlock, d: Disk, marks: set<nat>) {
    && (forall b {:trigger Marked(sb, d, b)} ::
        0 <= b < sb.numBlocks ==> (Marked(sb, d, b) <==> b < sb.DataStart() || b in marks))
    && (forall b :: b in marks ==> sb.DataStart() <= b < sb.numBlocks)
  }

  lemma {:induction false} DivMod8(a: nat, u: nat)
    requires u < 8
    ensures (8 * a + u) / 8 == a && (8 * a + u) % 8 == u
  {
  }

  lemma {:induction false} BitPosition(b: nat)
    ensures b == PER_BLOCK * (b / PER_BLOCK) + 8 * ByteOf(b) + b % 8
  {
    var q, r := b / PER_BLOCK, b % PER_BLOCK;
    var t, u := r / 8, r % 8;
    DivMod8(512 * q + t, u);
    assert b == 8 * (512 * q + t) + u;
  }

  function BitByte(sb: SuperBlock, d: Disk, b: nat): Byte {
    Rd(d, sb.BitmapBlock(b)).bytes[ByteOf(b)]
  }

  /** The disk with another byte in the place that has the bit of `b`. */
  function WithByte(sb: SuperBlock, d: Disk, b: nat, y: Byte): Disk {
    d[sb.BitmapBlock(b) := Raw(Rd(d, sb.BitmapBlock(b)).bytes[ByteOf(b) := y])]
  }

  lemma {:induction false} MarkedWithByte(sb: SuperBlock, d: Disk, b: nat, y: Byte, c: nat)
    ensures b / PER_BLOCK == c / PER_BLOCK && ByteOf(b) == ByteOf(c) ==>
        Marked(sb, WithByte(sb, d, b, y), c) == Bit(y, c % 8)
    ensures !(b / PER_BLOCK == c / PER_BLOCK && ByteOf(b) == ByteOf(c)) ==>
              Marked(sb, WithByte(sb, d, b, y), c) == Marked(sb, d, c)
  {
  }

  lemma {:induction false} Marking(sb: SuperBlock, d: Disk, b: nat, c: nat)
    requires !Marked(sb, d, b)
    ensures BitByte(sb, d, b) + Pow2(b % 8) < 256
    ensures Marked(sb, WithByte(sb, d, b, BitByte(sb, d, b) + Pow2(b % 8)), c) <==> Marked(sb, d, c) || c == b
  {
    var x := BitByte(sb, d, b);
    Powers(b % 8);
    BitFits(x, b % 8, 8);
    MarkedWithByte(sb, d, b, x + Pow2(b % 8), c);
    BitAdded(x, b % 8, c % 8);
    BitPosition(b);
    BitPosition(c);
  }

  lemma {:induction false} Unmarking(sb: SuperBlock, d: Disk, b: nat, c: nat)
    ensures Pow2(b % 8) <= 256
    ensures Marked(sb, WithByte(sb, d, b, Minus(BitByte(sb, d, b), Pow2(b % 8))), b) <==> !Marked(sb, d, b)
    ensures Marked(sb, d, b) ==>
              (Marked(sb, WithByte(sb, d, b, Minus(BitByte(sb, d, b), Pow2(b % 8))), c) <==> Marked(sb, d, c) && c != b)
  {
    var x := BitByte(sb, d, b);
    BitSubtracted(x, b % 8);
    MarkedWithByte(sb, d, b, Minus(x, Pow2(b % 8)), c);
    MarkedWithByte(sb, d, b, Minus(x, Pow2(b % 8)), b);
    BitPosition(b);
    BitPosition(c);
  }

  /** The first marked block of the byte of `b` from `b` on, or the end of that byte. */
  function NextMarked(sb: SuperBlock, d: Disk, b: nat): (n: nat)
    ensures b <= n <= b + 8
  {
    b - b % 8 + NextSet(BitByte(sb, d, b), b % 8)
  }

  /** Freeing a block that is not marked marks it and all blocks up to the next marked one of its byte, which
      loses its mark although it is in use; nothing else changes. */
  lemma {:induction false} FreeingUnmarked(sb: SuperBlock, d: Disk, b: nat, c: nat)
    requires !Marked(sb, d, b)
    ensures Pow2(b % 8) <= 256
    ensures var n := NextMarked(sb, d, b);
            Marked(sb, WithByte(sb, d, b, Minus(BitByte(sb, d, b), Pow2(b % 8))), c)
            <==> if b <= c < n then true else if c == n && c / 8 == b / 8 then false else Marked(sb, d, c)
  {
    var x := BitByte(sb, d, b);
    BitBorrowed(x, b % 8, c % 8);
    MarkedWithByte(sb, d, b, Minus(x, Pow2(b % 8)), c);
    BitPosition(b);
    BitPosition(c);
  }

  // ----- what an operation does through the cache

  lemma {:induction false} InByte(start: nat, add: nat, k: nat)
    requires start % PER_BLOCK == 0 && add < BLOCK_SIZE && k < 8
    ensures var b := start + add * 8 + k; b / PER_BLOCK == start / PER_BLOCK && ByteOf(b) == add && b % 8 == k
  {
    var q := start / PER_BLOCK;
    assert start + add * 8 + k == PER_BLOCK * q + (8 * add + k);
    DivMod8(add, k);
    DivMod8(512 * q + add, k);
  }

  /** Writes outside the bitmap keep the marks. */
  lemma {:induction false} MarksKept(sb: SuperBlock, d: Disk, d': Disk, marks: set<nat>)
    requires sb.Ordered() && Marks(sb, d, marks) && forall x :: sb.InBitmap(x) ==> Rd(d', x) == Rd(d, x)
    ensures Marks(sb, d', marks)
  {
    forall b | 0 <= b < sb.numBlocks ensures Marked(sb, d', b) == Marked(sb, d, b) {
      assert b / PER_BLOCK <= sb.numBlocks / PER_BLOCK;
      assert sb.InBitmap(sb.BitmapBlock(b));
    }
  }

  lemma {:induction false} MarksAdded(sb: SuperBlock, d: Disk, marks: set<nat>, b: nat)
    requires Marks(sb, d, marks) && sb.DataStart() <= b < sb.numBlocks && !Marked(sb, d, b)
    ensures BitByte(sb, d, b) + Pow2(b % 8) < 256
    ensures Marks(sb, WithByte(sb, d, b, BitByte(sb, d, b) + Pow2(b % 8)), marks + {b})
  {
    Marking(sb, d, b, b);
    var d' := WithByte(sb, d, b, BitByte(sb, d, b) + Pow2(b % 8));
    forall c | 0 <= c < sb.numBlocks ensures Marked(sb, d', c) <==> Marked(sb, d, c) || c == b { Marking(sb, d, b, c); }
  }

  lemma {:induction false} MarksRemoved(sb: SuperBlock, d: Disk, marks: set<nat>, b: nat)
    requires Marks(sb, d, marks) && b in marks
    ensures Pow2(b % 8) <= 256 && Marks(sb, WithByte(sb, d, b, Minus(BitByte(sb, d, b), Pow2(b % 8))), marks - {b})
  {
    Unmarking(sb, d, b, b);
    var d' := WithByte(sb, d, b, Minus(BitByte(sb, d, b), Pow2(b % 8)));
    forall c | 0 <= c < sb.numBlocks ensures Marked(sb, d', c) <==> Marked(sb, d, c) && c != b {
      Unmarking(sb, d, b, c);
    }
  }

  /** Freeing takes away the mark of a block, and no other, if and only if it was in use. */
  lemma {:induction false} MarksRemovedOnly(sb: SuperBlock, d: Disk, marks: set<nat>, b: nat)
    requires Marks(sb, d, marks) && b < sb.numBlocks
    ensures Pow2(b % 8) <= 256
    ensures Marks(sb, WithByte(sb, d, b, Minus(BitByte(sb, d, b), Pow2(b % 8))), marks - {b}) <==> b in marks
  {
    Unmarking(sb, d, b, b);
    if b in marks {
      MarksRemoved(sb, d, marks, b);
    } else {
      assert Marked(sb, d, b) <==> b < sb.DataStart();
    }
  }

  /** Blocks behind the log: inode blocks, bitmap blocks and data blocks. */
  ghost predicate InVolume(sb: SuperBlock, s: set<nat>) {
    forall x :: x in s ==> sb.inodeStart <= x < sb.numBlocks
  }

  /** The blocks as an operation sees them, those it has passed to `cache_sync`, and the data
      blocks that the bitmap marks. */
  class Volume {
    const sb: SuperBlock
    var view: Disk
    ghost var synced: set<nat>
    /** What the operations before this one had synced. */
    ghost var past: seq<set<nat>>
    ghost var marks: set<nat>

    ghost predicate Valid()
      reads this
    {
      sb.Ordered() && Marks(sb, view, marks) && InVolume(sb, synced)
    }

    constructor (sb: SuperBlock, view: Disk, ghost marks: set<nat>)
      requires sb.Ordered() && Marks(sb, view, marks)
      ensures Valid() && this.sb == sb && this.view == view && this.marks == marks && synced == {}
    {
      this.sb := sb;
      this.view := view;
      this.marks := marks;
      synced, past := {}, [];
    }

    /** `cache_begin_op`: nothing synced yet. */
    method BeginOp()
      modifies this`synced, this`past
      ensures synced == {} && past == old(past) + [old(synced)] && (old(Valid()) ==> Valid())
    {
      past := past + [synced];
      synced := {};
    }

    /** Change and `cache_sync` of an acquired block. */
    method Write(b: nat, data: Block)
      requires Valid() && !sb.InBitmap(b) && sb.inodeStart <= b < sb.numBlocks
      modifies this`view, this`synced, this`marks
      ensures Valid() && view == old(view)[b := data] && synced == old(synced) + {b} && marks == old(marks)
    {
      ghost var d := view;
      view := view[b := data];
      synced := synced + {b};
      MarksKept(sb, d, view, marks);
    }

    /** The innermost loop of `cache_alloc`: the first clear bit of a byte, below `num_blocks`. */
    method ScanByte(temp: Byte, base: nat) returns (i: nat)
      ensures i <= 8 && forall k :: 0 <= k < i ==> Bit(temp, k)
      ensures i < 8 && base + i < sb.numBlocks ==> !Bit(temp, i)
    {
      i := 0;
      while i < 8 && base + i < sb.numBlocks && Bit(temp, i)
        invariant i <= 8 && forall k :: 0 <= k < i ==> Bit(temp, k)
      {
        i := i + 1;
      }
    }

    /** The loop over the bytes of one bitmap block. */
    method ScanBlock(start: nat) returns (r: Option<nat>)
      requires start % PER_BLOCK == 0 && start < sb.numBlocks
      ensures r.Some? ==> start <= r.value < start + PER_BLOCK && r.value < sb.numBlocks && !Marked(sb, view, r.value)
      ensures forall b :: start <= b < (if r.Some? then r.value else start + PER_BLOCK) && b < sb.numBlocks ==>
          Marked(sb, view, b)
    {
      var add := 0;
      while add < BLOCK_SIZE && start + add * 8 < sb.numBlocks
        invariant add <= BLOCK_SIZE
        invariant forall b :: start <= b < start + add * 8 && b < sb.numBlocks ==> Marked(sb, view, b)
      {
        var data := Rd(view, sb.BitmapBlock(start)).bytes;
        var i := ScanByte(data[add], start + add * 8);
        forall k | 0 <= k < 8 ensures Marked(sb, view, start + add * 8 + k) == Bit(data[add], k) {
          InByte(start, add, k);
        }
        forall b | start + add * 8 <= b < start + add * 8 + i ensures Marked(sb, view, b) {
          var k := b - (start + add * 8);
          assert Marked(sb, view, start + add * 8 + k) == Bit(data[add], k);
        }
        if i < 8 && start + add * 8 + i < sb.numBlocks {
          return Some(start + add * 8 + i);
        }
        add := add + 1;
      }
      r := None;
    }

    /** The loop over the bitmap blocks: the first data block that is not marked. */
    method FirstClear() returns (r: Option<nat>)
      requires Valid()
      ensures r.Some? ==> sb.DataStart() <= r.value < sb.numBlocks && !Marked(sb, view, r.value)
      ensures forall b :: sb.DataStart() <= b < (if r.Some? then r.value else sb.numBlocks) ==> b in marks
    {
      var start := 0;
      while start < sb.numBlocks
        invariant start % PER_BLOCK == 0
        invariant forall b :: sb.DataStart() <= b < start && b < sb.numBlocks ==> b in marks
      {
        r := ScanBlock(start);
        forall b | sb.DataStart() <= b < (if r.Some? then r.value else start + PER_BLOCK) && start <= b < sb.numBlocks
          ensures b in marks
        {
          assert Marked(sb, view, b);
        }
        if r.Some? { return; }
        start := start + PER_BLOCK;
      }
      r := None;
    }

    /** `cache_alloc`: the lowest data block that is not marked, or a panic when all are. It is
        marked and zeroed, and no block outside the bitmap changes. */
    method Alloc() returns (r: Option<nat>)
      requires Valid()
      modifies this`view, this`synced, this`marks
      ensures Valid()
      ensures r.None? ==> view == old(view) && synced == old(synced) && marks == old(marks)
      ensures r.None? ==> forall b :: sb.DataStart() <= b < sb.numBlocks ==> b in marks
      ensures r.Some? ==> sb.DataStart() <= r.value < sb.numBlocks && r.value !in old(marks)
      ensures r.Some? ==> forall c :: sb.DataStart() <= c < r.value ==> c in old(marks)
      ensures r.Some? ==> marks == old(marks) + {r.value} && synced == old(synced) + {sb.BitmapBlock(r.value), r.value}
      ensures r.Some? ==> Rd(view, r.value) == Zeroes() && Outside(sb, old(view), view, r.value)
    {
      r := FirstClear();
      if r.Some? {
        var b := r.value;
        var bm := sb.BitmapBlock(b);
        MarksAdded(sb, view, marks, b);
        assert b / PER_BLOCK <= sb.numBlocks / PER_BLOCK;
        view := view[bm := Raw(Rd(view, bm).bytes[ByteOf(b) := BitByte(sb, view, b) + Pow2(b % 8)])];
        synced := synced + {bm};
        marks := marks + {b};
        Write(b, Zeroes());
      }
    }

    /** `cache_free`: the mark of a block in use goes, and no other. For any other block the bitmap is wrong
        afterwards, in the way that `FreeingUnmarked` says. */
    method Free(b: nat)
      requires Valid() && b < sb.numBlocks
      modifies this`view, this`synced, this`marks
      ensures Pow2(b % 8) <= 256 && view == WithByte(sb, old(view), b, Minus(BitByte(sb, old(view), b), Pow2(b % 8)))
      ensures b in old(marks) ==> Valid()
      ensures Marks(sb, view, old(marks) - {b}) <==> b in old(marks)
      ensures marks == old(marks) - {b} && synced == old(synced) + {sb.BitmapBlock(b)}
      ensures forall x :: !sb.InBitmap(x) ==> Rd(view, x) == Rd(old(view), x)
    {
      var bm := sb.BitmapBlock(b);
      MarksRemovedOnly(sb, view, marks, b);
      assert b / PER_BLOCK <= sb.numBlocks / PER_BLOCK;
      view := view[bm := Raw(Rd(view, bm).bytes[ByteOf(b) := Minus(BitByte(sb, view, b), Pow2(b % 8))])];
      synced := synced + {bm};
      marks := marks - {b};
    }
  }

  /** No block outside the bitmap changes, except `b`. */
  ghost predicate Outside(sb: SuperBlock, d: Disk, d': Disk, b: nat) {
    forall x :: x != b && !sb.InBitmap(x) ==> Rd(d', x) == Rd(d, x)
  }
}
