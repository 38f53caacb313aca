/**
 Shift-and-mask addressing: the top bits of a 32-byte key are its slice, the bits just below them
 its slot.  `slotBits` is 12 in the registry; every width is covered here.
 */
module Addressing {
  import opened Bytes
  import opened Orders
  import Layout

  type KeyBytes = s: seq<byte> | |s| == 32 witness seq(32, _ => 0)

  predicate Widths(sliceBits: nat, slotBits: nat) {
    sliceBits <= 32 && sliceBits + slotBits <= 64
  }

  function SliceOf(key: KeyBytes, sliceBits: nat): nat
    requires sliceBits <= 32
  {
    if sliceBits == 0 then 0 else BeValue(key[..4]) / Pow(2, 32 - sliceBits)
  }

  function AddressOf(key: KeyBytes, sliceBits: nat, slotBits: nat): nat
    requires Widths(sliceBits, slotBits)
  {
    BeValue(key[..8]) / Pow(2, 64 - sliceBits - slotBits)
  }

  function SlotOf(key: KeyBytes, sliceBits: nat, slotBits: nat): nat
    requires Widths(sliceBits, slotBits)
  {
    AddressOf(key, sliceBits, slotBits) % Pow(2, slotBits)
  }

  // The keys of one slice and the width of the runs that share a slot, as numbers.
  function GeometryOf(sliceBits: nat, slotBits: nat, id: nat): Layout.Geometry
    requires Widths(sliceBits, slotBits)
  {
    Layout.Geometry(id * Pow(2, 256 - sliceBits), (id + 1) * Pow(2, 256 - sliceBits),
                    Pow(2, 256 - sliceBits - slotBits))
  }

  // A field read from the first k bytes is the same field of the whole number.
  lemma TopBytes(key: KeyBytes, k: nat, bits: nat)
    requires k <= 32 && bits <= 8 * k
    ensures BeValue(key[..k]) / Pow(2, 8 * k - bits) == BeValue(key) / Pow(2, 256 - bits)
  {
    var low := key[k..];
    assert key == key[..k] + low;
    BeConcat(key[..k], low);
    BeBound(low);
    var w := Pow(256, 32 - k);
    DivUnique(BeValue(key), w, BeValue(key[..k]), BeValue(low));
    Pow256(32 - k);
    PowAdd(2, 8 * (32 - k), 8 * k - bits);
    assert 8 * (32 - k) + (8 * k - bits) == 256 - bits;
    DivDiv(BeValue(key), w, Pow(2, 8 * k - bits), Pow(2, 256 - bits));
  }

  lemma SliceIsTopField(key: KeyBytes, sliceBits: nat)
    requires sliceBits <= 32
    ensures SliceOf(key, sliceBits) == BeValue(key) / Pow(2, 256 - sliceBits)
  {
    if sliceBits == 0 {
      BeBound(key);
      Pow256(32);
      DivUnique(BeValue(key), Pow(2, 256), 0, BeValue(key));
    } else {
      TopBytes(key, 4, sliceBits);
    }
  }

  lemma AddressIsTopField(key: KeyBytes, sliceBits: nat, slotBits: nat)
    requires Widths(sliceBits, slotBits)
    ensures AddressOf(key, sliceBits, slotBits) == BeValue(key) / Pow(2, 256 - sliceBits - slotBits)
  {
    TopBytes(key, 8, sliceBits + slotBits);
  }

  // address = slice field, then slot field.
  lemma AddressIsSliceThenSlot(key: KeyBytes, sliceBits: nat, slotBits: nat)
    requires Widths(sliceBits, slotBits)
    ensures SlotOf(key, sliceBits, slotBits) < Pow(2, slotBits)
    ensures AddressOf(key, sliceBits, slotBits) ==
            SliceOf(key, sliceBits) * Pow(2, slotBits) + SlotOf(key, sliceBits, slotBits)
  {
    SliceIsTopField(key, sliceBits);
    AddressIsTopField(key, sliceBits, slotBits);
    SpanIsSlots(sliceBits, slotBits);
    FieldsOf(BeValue(key), Pow(2, 256 - sliceBits - slotBits), Pow(2, slotBits), Pow(2, 256 - sliceBits));
  }

  lemma SpanIsSlots(sliceBits: nat, slotBits: nat)
    requires Widths(sliceBits, slotBits)
    ensures Pow(2, 256 - sliceBits) == Pow(2, 256 - sliceBits - slotBits) * Pow(2, slotBits)
  {
    PowAdd(2, 256 - sliceBits - slotBits, slotBits);
    assert 256 - sliceBits - slotBits + slotBits == 256 - sliceBits;
  }

  lemma FieldsOf(n: nat, w: nat, slots: nat, span: nat)
    requires w > 0 && slots > 0 && span > 0 && span == w * slots
    ensures n / w == n / span * slots + n / w % slots
    ensures n / w % slots == (n - n / span * span) / w
  {
    DivDiv(n, w, slots, span);
    var q := n / w;
    assert q == q / slots * slots + q % slots;
    assert n % span == n - n / span * span;
  }

  // Addresses follow the byte order of keys, so a dump in slot order is a dump in key order.
  lemma AddressIsMonotone(j: KeyBytes, k: KeyBytes, sliceBits: nat, slotBits: nat)
    requires Widths(sliceBits, slotBits) && !TextLess(k, j)
    ensures AddressOf(j, sliceBits, slotBits) <= AddressOf(k, sliceBits, slotBits)
    ensures SliceOf(j, sliceBits) == SliceOf(k, sliceBits) ==>
              SlotOf(j, sliceBits, slotBits) <= SlotOf(k, sliceBits, slotBits)
  {
    LexIsNumeric(k, j);
    AddressIsTopField(j, sliceBits, slotBits);
    AddressIsTopField(k, sliceBits, slotBits);
    DivMonotone(BeValue(j), BeValue(k), Pow(2, 256 - sliceBits - slotBits));
    AddressIsSliceThenSlot(j, sliceBits, slotBits);
    AddressIsSliceThenSlot(k, sliceBits, slotBits);
  }

  // A slice is one contiguous range of keys.
  lemma SliceIsRange(key: KeyBytes, sliceBits: nat, slotBits: nat, id: nat)
    requires Widths(sliceBits, slotBits)
    ensures SliceOf(key, sliceBits) == id <==>
            GeometryOf(sliceBits, slotBits, id).lo <= BeValue(key) < GeometryOf(sliceBits, slotBits, id).hi
  {
    SliceIsTopField(key, sliceBits);
    InRange(BeValue(key), Pow(2, 256 - sliceBits), id);
  }

  lemma InRange(n: nat, w: nat, id: nat)
    requires w > 0
    ensures n / w == id <==> id * w <= n < (id + 1) * w
  {
    if id * w <= n < (id + 1) * w {
      DivUnique(n, w, id, n - id * w);
    }
  }

  lemma {:induction false} IdealIsDivision(g: Layout.Geometry, k: nat)
    requires g.width > 0 && g.lo <= k
    ensures Layout.Ideal(g, k) == (k - g.lo) / g.width
    decreases k
  {
    var d := k - g.lo;
    if d < g.width {
      DivUnique(d, g.width, 0, d);
    } else {
      IdealIsDivision(g, k - g.width);
      var q, r := (d - g.width) / g.width, (d - g.width) % g.width;
      DivUnique(d, g.width, q + 1, r);
    }
  }

  // Within its slice, the slot read from the bits is the ideal slot of the layout.
  lemma SlotIsIdeal(key: KeyBytes, sliceBits: nat, slotBits: nat, id: nat)
    requires Widths(sliceBits, slotBits) && SliceOf(key, sliceBits) == id
    ensures SlotOf(key, sliceBits, slotBits) == Layout.Ideal(GeometryOf(sliceBits, slotBits, id), BeValue(key))
  {
    SliceIsRange(key, sliceBits, slotBits, id);
    IdealIsDivision(GeometryOf(sliceBits, slotBits, id), BeValue(key));
    SpanIsSlots(sliceBits, slotBits);
    AddressIsTopField(key, sliceBits, slotBits);
    SliceIsTopField(key, sliceBits);
    FieldsOf(BeValue(key), Pow(2, 256 - sliceBits - slotBits), Pow(2, slotBits), Pow(2, 256 - sliceBits));
  }

  // Every key of a slice is aimed inside it.
  lemma IdealInBounds(sliceBits: nat, slotBits: nat, id: nat, k: nat)
    requires Widths(sliceBits, slotBits)
    requires var g := GeometryOf(sliceBits, slotBits, id); g.lo <= k < g.hi
    ensures Layout.Ideal(GeometryOf(sliceBits, slotBits, id), k) < Pow(2, slotBits)
  {
    var g := GeometryOf(sliceBits, slotBits, id);
    IdealIsDivision(g, k);
    SpanIsSlots(sliceBits, slotBits);
    Distribute(id, 1, Pow(2, 256 - sliceBits));
    QuotientBelow(k - g.lo, g.width, Pow(2, slotBits));
  }

  lemma QuotientBelow(d: nat, w: nat, n: nat)
    requires w > 0 && d < w * n
    ensures d / w < n
  {
    if d / w >= n {
      MulMonotone(n, d / w, w);
    }
  }

  // One more slice bit halves a slice: the two halves are its lower and its upper key range.
  lemma GrowthSplitsInTwo(sliceBits: nat, slotBits: nat, id: nat, key: KeyBytes)
    requires Widths(sliceBits + 1, slotBits)
    ensures var whole := GeometryOf(sliceBits, slotBits, id);
            var lower := GeometryOf(sliceBits + 1, slotBits, 2 * id);
            var upper := GeometryOf(sliceBits + 1, slotBits, 2 * id + 1);
            whole.lo == lower.lo && lower.hi == upper.lo && upper.hi == whole.hi
    ensures SliceOf(key, sliceBits) == id <==>
            SliceOf(key, sliceBits + 1) == 2 * id || SliceOf(key, sliceBits + 1) == 2 * id + 1
  {
    var half := Pow(2, 256 - (sliceBits + 1));
    assert Pow(2, 256 - sliceBits) == 2 * half;
    Halves(id, half);
    SliceIsRange(key, sliceBits, slotBits, id);
    SliceIsRange(key, sliceBits + 1, slotBits, 2 * id);
    SliceIsRange(key, sliceBits + 1, slotBits, 2 * id + 1);
  }

  lemma Halves(id: nat, half: nat)
    ensures id * (2 * half) == 2 * id * half
    ensures (id + 1) * (2 * half) == (2 * id + 1 + 1) * half
  {
    Associate(id, half, 2);
    Associate(id + 1, half, 2);
  }
}
