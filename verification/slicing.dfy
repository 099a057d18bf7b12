/**
 * Pointer slots and the offset arithmetic of the map combinator.
 *
 * Every port of the map owns one flat buffer. A pointer slot either is absent
 * (`Null`), designates an element of its port's buffer (`At`), or is what C
 * pointer arithmetic makes of a null pointer advanced by a non-zero distance
 * (`Stray`): a non-null pointer that designates no element at all.
 */
module Slicing {

  datatype Ptr = Null | At(index: int) | Stray(distance: int)

  /** `p + k` in C pointer arithmetic, with the null pointer read as address 0. */
  function Offset(p: Ptr, k: int): Ptr
  {
    match p
    case Null => if k == 0 then Null else Stray(k)
    case At(x) => At(x + k)
    case Stray(d) => if d + k == 0 then Null else Stray(d + k)
  }

  /** A pointer the caller can hand to the map: absent or into its buffer. */
  predicate Proper(p: Ptr)
  {
    !p.Stray?
  }

  /** `i * size`, the offset of instance `i`'s block of `size` elements,
      written as repeated addition so that proofs about blocks stay linear. */
  function Scale(i: nat, size: nat): nat
  {
    if i == 0 then 0 else Scale(i - 1, size) + size
  }

  /** The block offset is the product of the instance number and the block size. */
  lemma {:induction false} ScaleIsProduct(i: nat, size: nat)
    ensures Scale(i, size) == i * size
  {
    if i > 0 {
      ScaleIsProduct(i - 1, size);
      assert i * size == (i - 1) * size + size;
    }
  }

  /** Later blocks start no earlier. */
  lemma {:induction false} ScaleMonotone(a: nat, b: nat, size: nat)
    requires a <= b
    ensures Scale(a, size) <= Scale(b, size)
  {
    if a < b {
      ScaleMonotone(a, b - 1, size);
    }
  }

  /** The serial slot rule: a present pointer is moved to the start of
      instance `i`'s slice of `nnz` elements; an absent one stays absent. */
  function SliceSlot(p: Ptr, i: nat, nnz: nat): Ptr
  {
    if p.Null? then Null else Offset(p, Scale(i, nnz))
  }

  /** The serial slot rule applied to every port. */
  function SliceSlots(ptrs: seq<Ptr>, nnz: seq<nat>, i: nat): (r: seq<Ptr>)
    requires |nnz| == |ptrs|
    ensures |r| == |ptrs|
  {
    seq(|ptrs|, j requires 0 <= j < |ptrs| => SliceSlot(ptrs[j], i, nnz[j]))
  }

  /** For a proper pointer the serial rule keeps absent slots absent and moves
      present ones by exactly `i * nnz` elements. */
  lemma SliceSlotsKeepNull(ptrs: seq<Ptr>, nnz: seq<nat>, i: nat)
    requires |nnz| == |ptrs|
    requires forall j :: 0 <= j < |ptrs| ==> Proper(ptrs[j])
    ensures forall j :: 0 <= j < |ptrs| ==>
      (SliceSlots(ptrs, nnz, i)[j].Null? <==> ptrs[j].Null?)
    ensures forall j :: 0 <= j < |ptrs| && ptrs[j].At? ==>
      SliceSlots(ptrs, nnz, i)[j] == At(ptrs[j].index + i * nnz[j])
  {
    forall j | 0 <= j < |ptrs|
      ensures ptrs[j].At? ==> SliceSlots(ptrs, nnz, i)[j] == At(ptrs[j].index + i * nnz[j])
    {
      ScaleIsProduct(i, nnz[j]);
    }
  }

  /** The slot rule of the parallel evaluator for input ports: the pointer is
      advanced without first testing it for null. */
  function UncheckedSlot(p: Ptr, i: nat, nnz: nat): Ptr
  {
    Offset(p, Scale(i, nnz))
  }

  /** The unchecked rule agrees with the serial rule exactly when it is not
      asked to advance a null pointer by a non-zero distance. */
  lemma UncheckedAgrees(p: Ptr, i: nat, nnz: nat)
    ensures UncheckedSlot(p, i, nnz) == SliceSlot(p, i, nnz)
        <==> !(p.Null? && i * nnz != 0)
  {
    ScaleIsProduct(i, nnz);
  }

  /** Element `x` lies in block `i` of the blocks of `size` elements that start at `base`. */
  predicate InBlock(x: int, base: int, i: nat, size: nat)
  {
    base + Scale(i, size) <= x < base + Scale(i + 1, size)
  }

  /** Distinct instances own disjoint blocks: this is why no instance can see
      another instance's slice, scratch or pointer slots. */
  lemma BlocksDisjoint(x: int, base: int, i: nat, i': nat, size: nat)
    requires InBlock(x, base, i, size) && InBlock(x, base, i', size)
    ensures i == i'
  {
    if i < i' {
      ScaleMonotone(i + 1, i', size);
    } else if i' < i {
      ScaleMonotone(i' + 1, i, size);
    }
  }

  /** The instance whose block holds element `x`. */
  function Owner(x: int, base: int, size: nat): (i: nat)
    requires size > 0 && base <= x
    ensures InBlock(x, base, i, size)
  {
    var q := (x - base) / size;
    ScaleIsProduct(q, size);
    ScaleIsProduct(q + 1, size);
    assert x - base == q * size + (x - base) % size;
    q
  }

  /** The blocks of instances `0 .. n-1` exactly cover `[base, base + n*size)`. */
  lemma BlocksCover(x: int, base: int, n: nat, size: nat)
    ensures (base <= x < base + Scale(n, size)) <==>
            (exists i: nat :: i < n && InBlock(x, base, i, size))
  {
    if base <= x < base + Scale(n, size) {
      ScaleIsProduct(n, size);
      assert size > 0;
      var i := Owner(x, base, size);
      if n <= i {
        ScaleMonotone(n, i, size);
      }
      assert i < n && InBlock(x, base, i, size);
    }
    if i: nat :| i < n && InBlock(x, base, i, size) {
      ScaleMonotone(i + 1, n, size);
    }
  }

  /** Instance `i < n`'s block lies inside the `n * size` elements from `base`. */
  lemma BlockInside(base: int, i: nat, n: nat, size: nat)
    requires i < n
    ensures base + Scale(i, size) + size == base + Scale(i + 1, size) <= base + Scale(n, size)
  {
    ScaleMonotone(i + 1, n, size);
  }
}
