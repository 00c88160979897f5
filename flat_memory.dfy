/**
 * The memory that structural (bit-vector) dependency propagation works on.
 *
 * casadi passes dependency information as `bvec_t` words: one word per structural
 * nonzero, each bit one independent direction. Buffers are raw pointers into
 * caller-owned storage and into the work vector `w`, and a pointer may be null.
 * The model keeps one flat memory of words; a pointer is an address into it, and
 * a null pointer is `None`.
 */
module FlatMemory {
  import opened Wrappers

  /** casadi's `bvec_t`: a 64-bit word of dependency bits. */
  type Bits = bv64

  /** A pointer slot of an `arg` or `res` array: a start address, or null. */
  type Ptr = Option<nat>

  /** `n` words with no dependency bit set (what `fill_n(p, n, 0)` writes). */
  function Zeros(n: nat): (r: seq<Bits>)
    ensures |r| == n
    ensures forall k :: 0 <= k < n ==> r[k] == 0
  {
    seq(n, _ => 0)
  }

  /** The `len` words starting at address `a`. */
  function Region(m: seq<Bits>, a: nat, len: nat): (r: seq<Bits>)
    requires a + len <= |m|
    ensures |r| == len
    ensures forall k :: 0 <= k < len ==> r[k] == m[a + k]
  {
    m[a..a + len]
  }

  /** Address `k` lies in the region `[a, a + len)`. */
  predicate Inside(k: int, a: nat, len: nat) {
    a <= k < a + len
  }

  /** The regions `[a, a + la)` and `[b, b + lb)` share no address. */
  predicate Apart(a: nat, la: nat, b: nat, lb: nat) {
    a + la <= b || b + lb <= a
  }

  /** Memory after writing `v` at address `a`, as `std::copy` into a buffer does. */
  function Store(m: seq<Bits>, a: nat, v: seq<Bits>): (r: seq<Bits>)
    requires a + |v| <= |m|
    ensures |r| == |m|
    ensures Region(r, a, |v|) == v
    ensures forall k :: 0 <= k < |m| && !Inside(k, a, |v|) ==> r[k] == m[k]
  {
    m[..a] + v + m[a + |v|..]
  }

  /** A non-null pointer to a buffer of `len` words lies inside a memory of `size` words. */
  predicate SlotFits(p: Ptr, len: nat, size: nat) {
    p.Some? ==> p.value + len <= size
  }

  /** Every pointer of an `arg`/`res` array fits, the i-th with buffer length `lens[i]`. */
  predicate SlotsFit(ps: seq<Ptr>, lens: seq<nat>, size: nat) {
    |ps| == |lens| && forall i :: 0 <= i < |ps| ==> SlotFits(ps[i], lens[i], size)
  }

  /** Two buffers (null never overlaps anything) share no address. */
  predicate SlotApart(p: Ptr, lp: nat, q: Ptr, lq: nat) {
    p.Some? && q.Some? ==> Apart(p.value, lp, q.value, lq)
  }

  /** The buffers of one pointer array are pairwise apart. */
  predicate SlotsDisjoint(ps: seq<Ptr>, lens: seq<nat>)
    requires |ps| == |lens|
  {
    forall i, j :: 0 <= i < |ps| && 0 <= j < |ps| && i != j ==> SlotApart(ps[i], lens[i], ps[j], lens[j])
  }

  /** Every buffer of `ps` is apart from every buffer of `qs`. */
  predicate SlotsApart(ps: seq<Ptr>, lps: seq<nat>, qs: seq<Ptr>, lqs: seq<nat>)
    requires |ps| == |lps| && |qs| == |lqs|
  {
    forall i, j :: 0 <= i < |ps| && 0 <= j < |qs| ==> SlotApart(ps[i], lps[i], qs[j], lqs[j])
  }

  /** Every buffer of `ps` is apart from the region `[a, a + len)`. */
  predicate SlotsAvoid(ps: seq<Ptr>, lens: seq<nat>, a: nat, len: nat)
    requires |ps| == |lens|
  {
    forall i :: 0 <= i < |ps| ==> SlotApart(ps[i], lens[i], Some(a), len)
  }

  /** Address `k` lies in one of the buffers of `ps`. */
  predicate InSlots(k: int, ps: seq<Ptr>, lens: seq<nat>)
    requires |ps| == |lens|
  {
    exists i :: 0 <= i < |ps| && ps[i].Some? && Inside(k, ps[i].value, lens[i])
  }

  /** No address of a region the buffers avoid lies in a buffer. */
  lemma AvoidOutside(ps: seq<Ptr>, lens: seq<nat>, a: nat, len: nat)
    requires |ps| == |lens| && SlotsAvoid(ps, lens, a, len)
    ensures forall k :: Inside(k, a, len) ==> !InSlots(k, ps, lens)
  {
    forall k, i | Inside(k, a, len) && 0 <= i < |ps| && ps[i].Some?
      ensures !Inside(k, ps[i].value, lens[i])
    {
      assert SlotApart(ps[i], lens[i], Some(a), len);
    }
  }

  /** Which slots are non-null: what a callee can tell about the outputs it is asked for. */
  function Mask(ps: seq<Ptr>): (r: seq<bool>)
    ensures |r| == |ps|
    ensures forall i :: 0 <= i < |ps| ==> (r[i] <==> ps[i].Some?)
  {
    seq(|ps|, i requires 0 <= i < |ps| => ps[i].Some?)
  }

  /** A pointer array of `count` slots, all null except slot `i`, which holds `p`. */
  function OnlyAt(count: nat, i: nat, p: nat): (r: seq<Ptr>)
    ensures |r| == count
    ensures forall j :: 0 <= j < count ==> r[j] == (if j == i then Some(p) else None)
  {
    seq(count, j => if j == i then Some(p) else None)
  }

  /** What a callee sees through a pointer array: each buffer's contents, or null. */
  function Load(m: seq<Bits>, ps: seq<Ptr>, lens: seq<nat>): (r: seq<Option<seq<Bits>>>)
    requires SlotsFit(ps, lens, |m|)
    ensures |r| == |ps|
    ensures forall i :: 0 <= i < |ps| ==>
      r[i] == (if ps[i].Some? then Some(Region(m, ps[i].value, lens[i])) else None)
  {
    seq(|ps|, i requires 0 <= i < |ps| =>
      if ps[i].Some? then Some(Region(m, ps[i].value, lens[i])) else None)
  }

  /** Every value has the length of the buffer it is written to. */
  predicate Sized(vs: seq<seq<Bits>>, lens: seq<nat>) {
    |vs| == |lens| && forall i :: 0 <= i < |vs| ==> |vs[i]| == lens[i]
  }

  /** Memory after a callee wrote `vs[i]` through every non-null slot `ps[i]`, in slot order. */
  function StoreAll(m: seq<Bits>, ps: seq<Ptr>, lens: seq<nat>, vs: seq<seq<Bits>>): (r: seq<Bits>)
    requires SlotsFit(ps, lens, |m|) && Sized(vs, lens)
    ensures |r| == |m|
    ensures forall k :: 0 <= k < |m| && !InSlots(k, ps, lens) ==> r[k] == m[k]
    decreases |ps|
  {
    if |ps| == 0 then m
    else
      var last := |ps| - 1;
      var r0 := StoreAll(m, ps[..last], lens[..last], vs[..last]);
      assert forall k :: InSlots(k, ps[..last], lens[..last]) ==> InSlots(k, ps, lens);
      if ps[last].Some? then Store(r0, ps[last].value, vs[last]) else r0
  }

  /** Writing through one more slot extends the prefix written so far. */
  lemma {:induction false} StoreAllStep(m: seq<Bits>, ps: seq<Ptr>, lens: seq<nat>, vs: seq<seq<Bits>>, i: nat)
    requires SlotsFit(ps, lens, |m|) && Sized(vs, lens) && i < |ps|
    ensures SlotsFit(ps[..i], lens[..i], |m|) && Sized(vs[..i], lens[..i])
    ensures SlotsFit(ps[..i + 1], lens[..i + 1], |m|) && Sized(vs[..i + 1], lens[..i + 1])
    ensures var r0 := StoreAll(m, ps[..i], lens[..i], vs[..i]);
      StoreAll(m, ps[..i + 1], lens[..i + 1], vs[..i + 1]) == if ps[i].Some? then Store(r0, ps[i].value, vs[i]) else r0
  {
    assert ps[..i + 1][..i] == ps[..i] && lens[..i + 1][..i] == lens[..i] && vs[..i + 1][..i] == vs[..i];
  }

  /** A second write to the same region hides the first. */
  lemma StoreOver(m: seq<Bits>, a: nat, u: seq<Bits>, v: seq<Bits>)
    requires a + |u| <= |m| && |u| == |v|
    ensures Store(Store(m, a, u), a, v) == Store(m, a, v)
  {
  }

  /** Writing to a region leaves every region apart from it as it was. */
  lemma RegionAfterStore(m: seq<Bits>, a: nat, v: seq<Bits>, b: nat, len: nat)
    requires a + |v| <= |m| && b + len <= |m|
    requires Apart(a, |v|, b, len)
    ensures Region(Store(m, a, v), b, len) == Region(m, b, len)
  {
  }

  /** Two memories that agree on a region read the same contents there. */
  lemma RegionAgree(m: seq<Bits>, m': seq<Bits>, a: nat, len: nat)
    requires |m| == |m'| && a + len <= |m|
    requires forall k :: 0 <= k < |m| && Inside(k, a, len) ==> m[k] == m'[k]
    ensures Region(m, a, len) == Region(m', a, len)
  {
    assert forall k :: 0 <= k < len ==> Region(m, a, len)[k] == Region(m', a, len)[k] by {
      forall k | 0 <= k < len ensures Region(m, a, len)[k] == Region(m', a, len)[k] {
        assert Inside(a + k, a, len);
      }
    }
  }

  /** Two memories that agree on every buffer of a pointer array load the same values through it. */
  lemma LoadAgree(m: seq<Bits>, m': seq<Bits>, ps: seq<Ptr>, lens: seq<nat>)
    requires |m| == |m'| && SlotsFit(ps, lens, |m|)
    requires forall k :: 0 <= k < |m| && InSlots(k, ps, lens) ==> m[k] == m'[k]
    ensures Load(m, ps, lens) == Load(m', ps, lens)
  {
    forall i | 0 <= i < |ps| && ps[i].Some?
      ensures Region(m, ps[i].value, lens[i]) == Region(m', ps[i].value, lens[i])
    {
      forall k | 0 <= k < |m| && Inside(k, ps[i].value, lens[i]) ensures m[k] == m'[k] {
        assert InSlots(k, ps, lens);
      }
      RegionAgree(m, m', ps[i].value, lens[i]);
    }
  }

  /**
   * After the callee's writes, each non-null buffer holds exactly the value written
   * through it, provided no two buffers overlap.
   */
  lemma {:induction false} StoreAllRegion(m: seq<Bits>, ps: seq<Ptr>, lens: seq<nat>, vs: seq<seq<Bits>>, i: nat)
    requires SlotsFit(ps, lens, |m|) && Sized(vs, lens) && SlotsDisjoint(ps, lens)
    requires i < |ps| && ps[i].Some?
    ensures Region(StoreAll(m, ps, lens, vs), ps[i].value, lens[i]) == vs[i]
    decreases |ps|
  {
    var last := |ps| - 1;
    var r0 := StoreAll(m, ps[..last], lens[..last], vs[..last]);
    if i < last {
      assert SlotsDisjoint(ps[..last], lens[..last]) by {
        forall a, b | 0 <= a < last && 0 <= b < last && a != b
          ensures SlotApart(ps[..last][a], lens[..last][a], ps[..last][b], lens[..last][b])
        {
          assert SlotApart(ps[a], lens[a], ps[b], lens[b]);
        }
      }
      StoreAllRegion(m, ps[..last], lens[..last], vs[..last], i);
      if ps[last].Some? {
        assert SlotApart(ps[last], lens[last], ps[i], lens[i]);
        RegionAfterStore(r0, ps[last].value, vs[last], ps[i].value, lens[i]);
      }
    }
  }

  /**
   * Two batches of writes through two pointer arrays whose buffers are all apart: every
   * buffer ends up holding the value written through it, and nothing outside the
   * buffers changes.
   */
  lemma StoreBoth(m: seq<Bits>, ps: seq<Ptr>, lps: seq<nat>, vs: seq<seq<Bits>>, qs: seq<Ptr>, lqs: seq<nat>, us: seq<seq<Bits>>)
    requires SlotsFit(ps, lps, |m|) && Sized(vs, lps) && SlotsFit(qs, lqs, |m|) && Sized(us, lqs)
    requires SlotsDisjoint(ps, lps) && SlotsDisjoint(qs, lqs) && SlotsApart(ps, lps, qs, lqs)
    ensures var r := StoreAll(StoreAll(m, ps, lps, vs), qs, lqs, us);
      && (forall i :: 0 <= i < |ps| && ps[i].Some? ==> Region(r, ps[i].value, lps[i]) == vs[i])
      && (forall j :: 0 <= j < |qs| && qs[j].Some? ==> Region(r, qs[j].value, lqs[j]) == us[j])
      && (forall k :: 0 <= k < |m| && !InSlots(k, ps, lps) && !InSlots(k, qs, lqs) ==> r[k] == m[k])
  {
    var m1 := StoreAll(m, ps, lps, vs);
    var r := StoreAll(m1, qs, lqs, us);
    forall i | 0 <= i < |ps| && ps[i].Some? ensures Region(r, ps[i].value, lps[i]) == vs[i] {
      StoreAllRegion(m, ps, lps, vs, i);
      assert forall k :: 0 <= k < |m| && Inside(k, ps[i].value, lps[i]) ==> r[k] == m1[k];
      RegionAgree(r, m1, ps[i].value, lps[i]);
    }
    forall j | 0 <= j < |qs| && qs[j].Some? ensures Region(r, qs[j].value, lqs[j]) == us[j] {
      StoreAllRegion(m1, qs, lqs, us, j);
    }
  }

  /** Buffers apart from the two regions where memory changed read as before. */
  lemma LoadUnchanged(m: seq<Bits>, m': seq<Bits>, ps: seq<Ptr>, lens: seq<nat>, a: nat, la: nat, b: Ptr, lb: nat)
    requires |m| == |m'| && SlotsFit(ps, lens, |m|)
    requires SlotsAvoid(ps, lens, a, la) && forall i :: 0 <= i < |ps| ==> SlotApart(ps[i], lens[i], b, lb)
    requires forall k :: 0 <= k < |m| && !Inside(k, a, la) && !(b.Some? && Inside(k, b.value, lb)) ==> m'[k] == m[k]
    ensures Load(m', ps, lens) == Load(m, ps, lens)
  {
    forall k | 0 <= k < |m| && InSlots(k, ps, lens) ensures m'[k] == m[k] {
      var j :| 0 <= j < |ps| && ps[j].Some? && Inside(k, ps[j].value, lens[j]);
      assert SlotApart(ps[j], lens[j], Some(a), la);
      assert SlotApart(ps[j], lens[j], b, lb);
    }
    LoadAgree(m', m, ps, lens);
  }

  /** Writes `v` at address `a`, word by word (`std::copy` from a value). */
  method WriteRegion(mem: array<Bits>, a: nat, v: seq<Bits>)
    requires a + |v| <= mem.Length
    modifies mem
    ensures mem[..] == Store(old(mem[..]), a, v)
  {
    var k := 0;
    while k < |v|
      invariant 0 <= k <= |v|
      invariant forall j :: 0 <= j < mem.Length ==>
        mem[j] == (if a <= j < a + k then v[j - a] else old(mem[j]))
    {
      mem[a + k] := v[k];
      k := k + 1;
    }
    assert forall j :: 0 <= j < mem.Length ==> mem[..][j] == Store(old(mem[..]), a, v)[j] by {
      forall j | 0 <= j < mem.Length ensures mem[..][j] == Store(old(mem[..]), a, v)[j] {
        if a <= j < a + |v| {
          assert Region(Store(old(mem[..]), a, v), a, |v|)[j - a] == v[j - a];
        }
      }
    }
  }

  /** Writes `vs[i]` through every non-null slot `ps[i]`, in slot order. */
  method WriteAll(mem: array<Bits>, ps: seq<Ptr>, lens: seq<nat>, vs: seq<seq<Bits>>)
    requires SlotsFit(ps, lens, mem.Length) && Sized(vs, lens)
    modifies mem
    ensures mem[..] == StoreAll(old(mem[..]), ps, lens, vs)
  {
    ghost var m0 := mem[..];
    var i := 0;
    while i < |ps|
      invariant 0 <= i <= |ps|
      invariant mem[..] == StoreAll(m0, ps[..i], lens[..i], vs[..i])
    {
      StoreAllStep(m0, ps, lens, vs, i);
      if ps[i].Some? {
        WriteRegion(mem, ps[i].value, vs[i]);
      }
      i := i + 1;
    }
    assert ps[..|ps|] == ps && lens[..|ps|] == lens && vs[..|ps|] == vs;
  }

  /** Fills slots `[off, off + |vs|)` of a pointer array with `vs` (`std::copy` of pointers
      followed by the per-slot overrides). */
  method WriteSlots(a: array<Ptr>, off: nat, vs: seq<Ptr>)
    requires off + |vs| <= a.Length
    modifies a
    ensures a[..off] == old(a[..off]) && a[off + |vs|..] == old(a[off + |vs|..])
    ensures a[off..off + |vs|] == vs
  {
    var k := 0;
    while k < |vs|
      invariant 0 <= k <= |vs|
      invariant forall j :: 0 <= j < a.Length ==> a[j] == (if off <= j < off + k then vs[j - off] else old(a[j]))
    {
      a[off + k] := vs[k];
      k := k + 1;
    }
  }
}
