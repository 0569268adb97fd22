/** Addresses of slabs and slots, the bytes of a slot, and the size classes. */
module SlotLayout {
  import opened Arithmetic

  // ---------- alignment, for any alignment and not only powers of two ----------

  function AlignUp(p: nat, a: nat): nat
    requires a > 0
  { if p % a == 0 then p else p + (a - p % a) }

  function AlignDown(p: nat, a: nat): nat
    requires a > 0
  { p - p % a }

  lemma ModShift(q: nat, r: nat, a: nat)
    requires r < a
    ensures (q * a + r) % a == r && (q * a + r) / a == q
  {
    var p := q * a + r;
    assert p == (p / a) * a + p % a && p % a < a;
    SameQuotient(q, p / a, r, p % a, a);
  }

  lemma SameQuotient(q: int, t: int, r: nat, u: nat, a: nat)
    requires r < a && u < a && q * a + r == t * a + u
    ensures q == t && r == u
  {
    var d := q - t;
    assert d * a == u - r;
    SmallMultiple(d, a);
  }

  lemma SmallMultiple(d: int, a: nat)
    requires 0 < d * a + a && d * a < a
    ensures d == 0
  {
    if d > 0 {
      MulMono(a, 1, d);
    } else if d < 0 {
      MulMono(a, 1, -d);
    }
  }

  /** The least multiple of `a` not below `p`. */
  lemma AlignUpIsLeast(p: nat, a: nat)
    requires a > 0
    ensures AlignUp(p, a) % a == 0 && p <= AlignUp(p, a) < p + a
  {
    var q := p / a;
    assert p == q * a + p % a;
    if p % a != 0 {
      assert AlignUp(p, a) == (q + 1) * a + 0;
      ModShift(q + 1, 0, a);
    }
  }

  // ---------- slabs and slots ----------

  /** Where the memory slabs start, how long each is, and how long its header is. */
  datatype Layout = Layout(base: nat, slabSize: nat, header: nat) {
    ghost predicate Valid() { header <= slabSize && slabSize > 0 && base % slabSize == 0 }

    /** `slab_by_sid`. */
    function SlabAddr(sid: nat): nat { base + sid * slabSize }

    /** `Slab::slot(i)` of a slab with the given slot size. */
    function SlotAddr(sid: nat, slotSize: nat, i: nat): nat { SlabAddr(sid) + header + slotSize * i }

    function Slots(slotSize: nat): nat requires slotSize > 0 && header <= slabSize { (slabSize - header) / slotSize }

    /** `slot_to_slab`. */
    function SlotToSlab(addr: nat): nat requires slabSize > 0 { AlignDown(addr, slabSize) }

    /** `slot_id`. */
    function SlotId(addr: nat, slotSize: nat): int requires slabSize > 0 && slotSize > 0 {
      (addr - (SlotToSlab(addr) + header)) / slotSize
    }
  }

  /** Every slot lies behind the header and inside its slab. */
  lemma SlotInside(y: Layout, slotSize: nat, i: nat)
    requires y.Valid() && slotSize > 0 && i < y.Slots(slotSize)
    ensures y.header + slotSize * i + slotSize <= y.slabSize
  {
    var n := y.Slots(slotSize);
    assert n * slotSize <= y.slabSize - y.header;
    assert slotSize * i + slotSize == slotSize * (i + 1) <= slotSize * n by { MulMono(slotSize, i + 1, n); }
  }

  /** And there is no room for one more. */
  lemma SlotsAreMost(y: Layout, slotSize: nat)
    requires y.Valid() && slotSize > 0
    ensures y.header + slotSize * y.Slots(slotSize) <= y.slabSize < y.header + slotSize * (y.Slots(slotSize) + 1)
  {
    DivIs(y.slabSize - y.header, slotSize);
  }

  lemma SlabAligned(y: Layout, sid: nat, off: nat)
    requires y.Valid() && off < y.slabSize
    ensures y.SlotToSlab(y.SlabAddr(sid) + off) == y.SlabAddr(sid)
  {
    var q := y.base / y.slabSize;
    assert y.base == q * y.slabSize;
    assert y.SlabAddr(sid) + off == (q + sid) * y.slabSize + off;
    ModShift(q + sid, off, y.slabSize);
  }

  /** `slot_to_slab` and `slot_id` invert `slab_by_sid` and `slot(i)`. */
  lemma SlotRoundTrip(y: Layout, sid: nat, slotSize: nat, i: nat)
    requires y.Valid() && slotSize > 0 && i < y.Slots(slotSize)
    ensures y.SlotToSlab(y.SlotAddr(sid, slotSize, i)) == y.SlabAddr(sid)
    ensures y.SlotId(y.SlotAddr(sid, slotSize, i), slotSize) == i
  {
    SlotInside(y, slotSize, i);
    SlabAligned(y, sid, y.header + slotSize * i);
    ModShift(i, 0, slotSize);
    assert slotSize * i == i * slotSize + 0;
  }

  /** Two different slots, of the same slab or of two slabs with any slot sizes, share no byte. */
  lemma SlotsDisjoint(y: Layout, sid: nat, size1: nat, i: nat, sid': nat, size2: nat, j: nat)
    requires y.Valid() && size1 > 0 && size2 > 0 && i < y.Slots(size1) && j < y.Slots(size2)
    requires sid != sid' || (size1 == size2 && i != j)
    ensures y.SlotAddr(sid, size1, i) + size1 <= y.SlotAddr(sid', size2, j)
            || y.SlotAddr(sid', size2, j) + size2 <= y.SlotAddr(sid, size1, i)
  {
    SlotInside(y, size1, i);
    SlotInside(y, size2, j);
    if sid < sid' {
      SlabsApart(y, sid, sid');
    } else if sid' < sid {
      SlabsApart(y, sid', sid);
    } else if i < j {
      SlotsApart(size1, i, j);
    } else {
      SlotsApart(size1, j, i);
    }
  }

  lemma SlabsApart(y: Layout, a: nat, b: nat)
    requires a < b
    ensures y.SlabAddr(a) + y.slabSize <= y.SlabAddr(b)
  {
    MulMono(y.slabSize, a + 1, b);
    assert y.slabSize * (a + 1) == a * y.slabSize + y.slabSize && y.slabSize * b == b * y.slabSize;
  }

  lemma SlotsApart(size: nat, i: nat, j: nat)
    requires i < j
    ensures size * i + size <= size * j
  {
    MulMono(size, i + 1, j);
    assert size * (i + 1) == size * i + size;
  }

  // ---------- the bytes of a slot ----------

  type byte = x: int | 0 <= x < 256
  const INT_BYTES: nat := 4
  const SLOT_HEADER: nat := 8

  /** A 32-bit integer, least significant byte first. */
  function IntBytes(n: nat): seq<byte>
    requires n < 0x1_0000_0000
  {
    [n % 256, n / 256 % 256, n / 65536 % 256, n / 16777216 % 256]
  }

  function BytesInt(b: seq<byte>): nat
    requires |b| == INT_BYTES
  {
    b[0] as int + 256 * (b[1] as int) + 65536 * (b[2] as int) + 16777216 * (b[3] as int)
  }

  lemma IntRoundTrip(n: nat)
    requires n < 0x1_0000_0000
    ensures BytesInt(IntBytes(n)) == n
    ensures var b := IntBytes(n);
            n == b[0] as int + 0x100 * (b[1] as int) + 0x1_0000 * (b[2] as int) + 0x100_0000 * (b[3] as int)
  {
    var b1, b2 := n / 256, n / 65536;
    assert b2 == b1 / 256 && n / 16777216 == b2 / 256;
  }

  /** `Slot::key` and `Slot::value` of the slot at `off`, if the lengths stay inside the bytes. */
  ghost predicate HoldsPair(m: seq<byte>, off: nat) {
    && off + SLOT_HEADER <= |m|
    && off + SLOT_HEADER + BytesInt(m[off..off + 4]) + BytesInt(m[off + 4..off + 8]) <= |m|
  }

  ghost function KeyAt(m: seq<byte>, off: nat): seq<byte>
    requires HoldsPair(m, off)
  {
    m[off + SLOT_HEADER..off + SLOT_HEADER + BytesInt(m[off..off + 4])]
  }

  ghost function ValueAt(m: seq<byte>, off: nat): seq<byte>
    requires HoldsPair(m, off)
  {
    var k := off + SLOT_HEADER + BytesInt(m[off..off + 4]);
    m[k..k + BytesInt(m[off + 4..off + 8])]
  }

  /** `memcpy` into the slab. */
  method CopyIn(m: array<byte>, at: nat, s: seq<byte>)
    requires at + |s| <= m.Length
    modifies m
    ensures m[..] == old(m[..at]) + s + old(m[at + |s|..])
  {
    var i := 0;
    while i < |s|
      invariant 0 <= i <= |s|
      invariant m[..at] == old(m[..at]) && m[at + |s|..] == old(m[at + |s|..])
      invariant m[at..at + i] == s[..i]
    {
      m[at + i] := s[i];
      i := i + 1;
    }
    assert m[..] == m[..at] + m[at..at + |s|] + m[at + |s|..];
  }

  /** The memory after writing a pair at `off`. */
  ghost function Written(m: seq<byte>, off: nat, key: seq<byte>, value: seq<byte>): seq<byte>
    requires off + SLOT_HEADER + |key| + |value| <= |m| && |key| < 0x1_0000_0000 && |value| < 0x1_0000_0000
  {
    m[..off] + IntBytes(|key|) + IntBytes(|value|) + key + value + m[off + SLOT_HEADER + |key| + |value|..]
  }

  /** `Slot::Write`. */
  method Write(m: array<byte>, off: nat, key: seq<byte>, value: seq<byte>)
    requires off + SLOT_HEADER + |key| + |value| <= m.Length && |key| < 0x8000_0000 && |value| < 0x8000_0000
    modifies m
    ensures m[..] == Written(old(m[..]), off, key, value)
  {
    ghost var m0 := m[..];
    var a, b := IntBytes(|key|), IntBytes(|value|);
    CopyIn(m, off, a);
    assert m[..] == m0[..off] + a + m0[off + 4..];
    CopyIn(m, off + 4, b);
    assert m[..] == m0[..off] + a + b + m0[off + 8..];
    CopyIn(m, off + SLOT_HEADER, key);
    assert m[..] == m0[..off] + a + b + key + m0[off + 8 + |key|..];
    CopyIn(m, off + SLOT_HEADER + |key|, value);
  }

  /**
   What is written is read back, and no byte outside the pair changes. The bytes are the two lengths, the key, and right
   behind it the value.
   */
  lemma WriteRoundTrip(m: seq<byte>, off: nat, key: seq<byte>, value: seq<byte>)
    requires off + SLOT_HEADER + |key| + |value| <= |m| && |key| < 0x8000_0000 && |value| < 0x8000_0000
    ensures var w := Written(m, off, key, value);
            && |w| == |m| && HoldsPair(w, off) && KeyAt(w, off) == key && ValueAt(w, off) == value
            && BytesInt(w[off..off + 4]) == |key| && BytesInt(w[off + 4..off + 8]) == |value|
            && w[off + 8..off + 8 + |key|] == key && w[off + 8 + |key|..off + 8 + |key| + |value|] == value
            && forall p :: 0 <= p < |m| && !(off <= p < off + SLOT_HEADER + |key| + |value|) ==> w[p] == m[p]
  {
    var w := Written(m, off, key, value);
    IntRoundTrip(|key|);
    IntRoundTrip(|value|);
    assert w[off..off + 4] == IntBytes(|key|);
    assert w[off + 4..off + 8] == IntBytes(|value|);
    assert w[off + 8..off + 8 + |key|] == key;
    assert w[off + 8 + |key|..off + 8 + |key| + |value|] == value;
  }

  /** Writing a pair that its slot admits into one slot leaves every other slot of every slab readable as before. */
  lemma WriteKeepsOthers(y: Layout, m: seq<byte>, sid: nat, size1: nat, i: nat, key: seq<byte>, value: seq<byte>,
                         sid': nat, size2: nat, j: nat)
    requires y.Valid() && size1 > 0 && size2 > 0 && i < y.Slots(size1) && j < y.Slots(size2)
    requires sid != sid' || (size1 == size2 && i != j)
    requires |key| < 0x8000_0000 && |value| < 0x8000_0000 && SLOT_HEADER + |key| + |value| <= size1
    requires y.SlotAddr(sid, size1, i) + size1 <= |m| && y.SlotAddr(sid', size2, j) + size2 <= |m|
    ensures var w := Written(m, y.SlotAddr(sid, size1, i), key, value);
            var a := y.SlotAddr(sid', size2, j);
            |w| == |m| && w[a..a + size2] == m[a..a + size2]
  {
    SlotsDisjoint(y, sid, size1, i, sid', size2, j);
    WriteRoundTrip(m, y.SlotAddr(sid, size1, i), key, value);
  }

  // ---------- size classes ----------

  ghost predicate Ascending(s: seq<nat>) { forall i, j :: 0 <= i < j < |s| ==> s[i] < s[j] }

  /** `next` is twice `size`, or the maximum if that is less. */
  predicate Doubled(size: nat, next: nat, max: nat) {
    next <= 2 * size && next <= max && (next == 2 * size || next == max)
  }

  /** `default_slab_class_size`: doubling slot sizes, capped by what one slab can hold. */
  method DefaultClassSizes(slabSize: nat, slabHeader: nat, minKv: nat, maxClasses: nat) returns (sizes: seq<nat>)
    requires slabHeader <= slabSize
    ensures |sizes| <= maxClasses && (maxClasses > 0 ==> |sizes| > 0 && sizes[0] == minKv + SLOT_HEADER)
    ensures forall i :: 0 < i < |sizes| ==> Doubled(sizes[i - 1], sizes[i], slabSize - slabHeader)
    ensures minKv + SLOT_HEADER < slabSize - slabHeader ==>
              && Ascending(sizes)
              && (forall i :: 0 <= i < |sizes| ==> 0 < sizes[i] <= slabSize - slabHeader)
              && (|sizes| < maxClasses ==> |sizes| > 0 && sizes[|sizes| - 1] == slabSize - slabHeader)
  {
    var maxSlot := slabSize - slabHeader;
    var curr: nat := minKv + SLOT_HEADER;
    ghost var small := curr < maxSlot;
    var table: seq<nat> := [];
    var i := 0;
    while i < maxClasses
      invariant i == |table| <= maxClasses
      invariant i == 0 ==> curr == minKv + SLOT_HEADER
      invariant small ==> 0 < curr <= maxSlot
      invariant i > 0 ==> table[0] == minKv + SLOT_HEADER
      invariant forall k :: 0 < k < i ==> Doubled(table[k - 1], table[k], maxSlot)
      invariant i > 0 ==> Doubled(table[i - 1], curr, maxSlot)
      invariant small ==> forall k :: 0 <= k < i ==> 0 < table[k] <= maxSlot
      invariant small ==> Ascending(table)
      invariant small && i > 0 ==> table[i - 1] < curr || (table[i - 1] == curr == maxSlot && i > 1)
      decreases maxClasses - i
    {
      table := table + [curr];
      curr := if curr * 2 <= maxSlot then curr * 2 else maxSlot;
      if i > 1 && table[i - 1] >= maxSlot {
        return table[..i];
      }
      i := i + 1;
    }
    sizes := table;
  }

  /** The class that `get_slab_class` picks in a sorted table: the first whose slots are large enough. */
  function ClassOf(sizes: seq<nat>, need: nat): (cid: nat)
    ensures cid <= |sizes|
    ensures forall i :: 0 <= i < cid ==> sizes[i] < need
    ensures cid < |sizes| ==> sizes[cid] >= need
  {
    if sizes == [] || sizes[0] >= need then 0
    else
      var rest := ClassOf(sizes[1..], need);
      assert forall i :: 0 < i < rest + 1 ==> sizes[i] == sizes[1..][i - 1];
      rest + 1
  }

  /** A pair is refused as too large exactly when the last, largest class is too small for it. */
  lemma RefusedExactlyWhen(sizes: seq<nat>, need: nat)
    requires Ascending(sizes) && |sizes| > 0
    ensures ClassOf(sizes, need) == |sizes| <==> need > sizes[|sizes| - 1]
  {
    var cid := ClassOf(sizes, need);
    if cid < |sizes| - 1 { assert sizes[cid] < sizes[|sizes| - 1]; }
  }
}
