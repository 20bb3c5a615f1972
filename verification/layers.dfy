/** Layer membership of scene objects: a 32-bit mask, one bit per channel. */
module LayerMask {
  import MathUtil

  /** The `int mask` of a layer set, kept as its 32-bit pattern. */
  datatype Layers = Layers(mask: bv32)

  /** A channel is a shift amount for `1 << channel` on a 32-bit int. */
  type Channel = c: bv32 | c < 32

  /** Whether channel `c` is enabled: the reference reading of a mask. */
  predicate InChannel(l: Layers, c: Channel) {
    l.mask & MathUtil.Bit(c) != 0
  }

  /** A fresh layer set is on channel 0 only. */
  function NewLayers(): (r: Layers)
    ensures forall c: Channel :: InChannel(r, c) <==> c == 0
  {
    var r := Layers(1);
    SetAll(0, r);
    r
  }

  /** Replace the mask by the single channel `c`. */
  function Set(l: Layers, c: Channel): (r: Layers)
    ensures forall d: Channel :: InChannel(r, d) <==> d == c
  {
    var r := Layers(MathUtil.Bit(c));
    SetAll(c, r);
    r
  }

  /** Turn channel `c` on, leaving the others alone. */
  function Enable(l: Layers, c: Channel): (r: Layers)
    ensures forall d: Channel :: InChannel(r, d) <==> d == c || InChannel(l, d)
  {
    var r := Layers(l.mask | MathUtil.Bit(c));
    EnableAll(l, c, r);
    r
  }

  /** Flip channel `c`, leaving the others alone. */
  function Toggle(l: Layers, c: Channel): (r: Layers)
    ensures forall d: Channel :: InChannel(r, d) <==> (d == c) != InChannel(l, d)
  {
    var r := Layers(l.mask ^ MathUtil.Bit(c));
    ToggleAll(l, c, r);
    r
  }

  /** Turn channel `c` off, leaving the others alone. */
  function Disable(l: Layers, c: Channel): (r: Layers)
    ensures forall d: Channel :: InChannel(r, d) <==> d != c && InChannel(l, d)
  {
    var r := Layers(l.mask & !MathUtil.Bit(c));
    DisableAll(l, c, r);
    r
  }

  /** Two layer sets meet exactly when some channel is enabled in both. */
  function Test(a: Layers, b: Layers): (r: bool)
    ensures r <==> exists c: Channel :: InChannel(a, c) && InChannel(b, c)
  {
    if a.mask & b.mask != 0 then
      TestWitness(a, b);
      true
    else
      TestNone(a, b);
      false
  }

  /** Toggling the same channel twice restores the layer set. */
  lemma ToggleTwice(l: Layers, c: Channel)
    ensures Toggle(Toggle(l, c), c) == l
  {
    var r := Toggle(Toggle(l, c), c);
    XorTwice(l.mask, MathUtil.Bit(c));
    assert r.mask == l.mask;
  }

  /** `test` does not depend on the order of its operands, and a set with
      some channel enabled meets itself. */
  lemma TestSymmetric(a: Layers, b: Layers)
    ensures Test(a, b) == Test(b, a)
    ensures a.mask != 0 ==> Test(a, a)
  {
    if a.mask != 0 {
      assert a.mask & a.mask == a.mask;
    }
  }

  /** After `enable(c)`, the set meets every layer set that was `set(c)`. */
  lemma EnableMeetsSet(l: Layers, c: Channel, k: Layers)
    ensures Test(Enable(l, c), Set(k, c))
  {
    assert InChannel(Enable(l, c), c) && InChannel(Set(k, c), c);
  }

  lemma SetAll(c: Channel, r: Layers)
    requires r.mask == MathUtil.Bit(c)
    ensures forall d: Channel :: InChannel(r, d) <==> d == c
  {
    forall d: Channel {
      SetAt(c, d);
    }
  }

  lemma EnableAll(l: Layers, c: Channel, r: Layers)
    requires r.mask == l.mask | MathUtil.Bit(c)
    ensures forall d: Channel :: InChannel(r, d) <==> d == c || InChannel(l, d)
  {
    forall d: Channel {
      EnableAt(l, c, d, r);
    }
  }

  lemma ToggleAll(l: Layers, c: Channel, r: Layers)
    requires r.mask == l.mask ^ MathUtil.Bit(c)
    ensures forall d: Channel :: InChannel(r, d) <==> (d == c) != InChannel(l, d)
  {
    forall d: Channel {
      ToggleAt(l, c, d, r);
    }
  }

  lemma DisableAll(l: Layers, c: Channel, r: Layers)
    requires r.mask == l.mask & !MathUtil.Bit(c)
    ensures forall d: Channel :: InChannel(r, d) <==> d != c && InChannel(l, d)
  {
    forall d: Channel {
      DisableAt(l, c, d, r);
    }
  }

  lemma TestWitness(a: Layers, b: Layers)
    requires a.mask & b.mask != 0
    ensures exists c: Channel :: InChannel(a, c) && InChannel(b, c)
  {
    var x := a.mask & b.mask;
    LowestBit(x);
    var c := MathUtil.Log2(x & !(x - 1));
    AndBoth(a.mask, b.mask, MathUtil.Bit(c));
    assert InChannel(a, c) && InChannel(b, c);
  }

  lemma TestNone(a: Layers, b: Layers)
    requires a.mask & b.mask == 0
    ensures forall c: Channel :: !(InChannel(a, c) && InChannel(b, c))
  {
    forall c: Channel {
      NoneAt(a.mask, b.mask, c);
    }
  }

  // Pointwise bit facts, each small enough to be bit-blasted on its own.

  lemma EnableAt(l: Layers, c: Channel, d: Channel, r: Layers)
    requires r.mask == l.mask | MathUtil.Bit(c)
    ensures InChannel(r, d) <==> d == c || InChannel(l, d)
  {
    if d == c {
      EnableSame(l.mask, c);
      assert InChannel(r, d);
    } else {
      EnableOther(l.mask, c, d);
      assert r.mask & MathUtil.Bit(d) == l.mask & MathUtil.Bit(d);
    }
  }

  lemma ToggleAt(l: Layers, c: Channel, d: Channel, r: Layers)
    requires r.mask == l.mask ^ MathUtil.Bit(c)
    ensures InChannel(r, d) <==> (d == c) != InChannel(l, d)
  {
    if d == c {
      ToggleSame(l.mask, c);
      assert InChannel(r, d) == !InChannel(l, d);
    } else {
      ToggleOther(l.mask, c, d);
      assert r.mask & MathUtil.Bit(d) == l.mask & MathUtil.Bit(d);
    }
  }

  lemma DisableAt(l: Layers, c: Channel, d: Channel, r: Layers)
    requires r.mask == l.mask & !MathUtil.Bit(c)
    ensures InChannel(r, d) <==> d != c && InChannel(l, d)
  {
    if d == c {
      DisableSame(l.mask, c);
      assert !InChannel(r, d);
    } else {
      DisableOther(l.mask, c, d);
      assert r.mask & MathUtil.Bit(d) == l.mask & MathUtil.Bit(d);
    }
  }

  lemma SetAt(c: Channel, d: Channel)
    ensures MathUtil.Bit(c) & MathUtil.Bit(d) != 0 <==> d == c
  {
  }

  lemma EnableSame(m: bv32, c: Channel)
    ensures (m | MathUtil.Bit(c)) & MathUtil.Bit(c) != 0
  {
  }

  lemma EnableOther(m: bv32, c: Channel, d: Channel)
    requires d != c
    ensures (m | MathUtil.Bit(c)) & MathUtil.Bit(d) == m & MathUtil.Bit(d)
  {
  }

  lemma ToggleSame(m: bv32, c: Channel)
    ensures ((m ^ MathUtil.Bit(c)) & MathUtil.Bit(c) != 0) <==> (m & MathUtil.Bit(c) == 0)
  {
  }

  lemma ToggleOther(m: bv32, c: Channel, d: Channel)
    requires d != c
    ensures (m ^ MathUtil.Bit(c)) & MathUtil.Bit(d) == m & MathUtil.Bit(d)
  {
  }

  lemma DisableSame(m: bv32, c: Channel)
    ensures (m & !MathUtil.Bit(c)) & MathUtil.Bit(c) == 0
  {
  }

  lemma DisableOther(m: bv32, c: Channel, d: Channel)
    requires d != c
    ensures (m & !MathUtil.Bit(c)) & MathUtil.Bit(d) == m & MathUtil.Bit(d)
  {
  }

  lemma AndBoth(a: bv32, b: bv32, x: bv32)
    requires (a & b) & x != 0
    ensures a & x != 0 && b & x != 0
  {
  }

  lemma NoneAt(a: bv32, b: bv32, c: Channel)
    requires a & b == 0
    ensures a & MathUtil.Bit(c) == 0 || b & MathUtil.Bit(c) == 0
  {
  }

  /** `x & ~(x - 1)` isolates the lowest set bit of a non-zero word. */
  lemma LowestBit(x: bv32)
    requires x != 0
    ensures MathUtil.IsPowerOfTwo(x & !(x - 1))
    ensures x & (x & !(x - 1)) == x & !(x - 1)
  {
  }

  lemma XorTwice(m: bv32, x: bv32)
    ensures (m ^ x) ^ x == m
  {
  }

}
