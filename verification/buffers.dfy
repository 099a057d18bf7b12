/**
 * Flat element buffers read and written through pointer slots.
 */
module Buffers {
  import opened Results
  import opened Slicing

  /** `len` elements starting at slot `p` lie inside `buf` (an absent slot always fits). */
  predicate Fits<T>(buf: seq<T>, p: Ptr, len: nat)
  {
    p.Null? || (p.At? && 0 <= p.index && p.index + len <= |buf|)
  }

  /** The caller's slot `p` of a port with `nnz` nonzeros per instance holds
      all `n` instances' slices. */
  predicate PortPlaced<T>(buf: seq<T>, p: Ptr, n: nat, nnz: nat)
  {
    Proper(p) && Fits(buf, p, Scale(n, nnz))
  }

  /** What a callee sees through slot `p` when it reads `len` elements:
      nothing for an absent slot. */
  function Window<T>(buf: seq<T>, p: Ptr, len: nat): (r: Option<seq<T>>)
    requires Fits(buf, p, len)
    ensures r.None? <==> p.Null?
    ensures r.Some? ==> |r.value| == len
  {
    if p.Null? then None else Some(buf[p.index .. p.index + len])
  }

  /** The slot of instance `i` of a placed port fits its `nnz` elements. */
  lemma SliceFits<T>(buf: seq<T>, p: Ptr, n: nat, nnz: nat, i: nat)
    requires PortPlaced(buf, p, n, nnz) && i < n
    ensures Fits(buf, SliceSlot(p, i, nnz), nnz)
  {
    if p.At? {
      BlockInside(p.index, i, n, nnz);
    }
  }

  /** Instance `i`'s slice of a placed port. */
  function Slice<T>(buf: seq<T>, p: Ptr, n: nat, nnz: nat, i: nat): (r: Option<seq<T>>)
    requires PortPlaced(buf, p, n, nnz) && i < n
    ensures r.None? <==> p.Null?
    ensures r.Some? ==> |r.value| == nnz
  {
    SliceFits(buf, p, n, nnz, i);
    Window(buf, SliceSlot(p, i, nnz), nnz)
  }

  /** `before` with `data` written from slot `p` on; unchanged for an absent
      slot, and for a write that would not fit. */
  function Splice<T>(before: seq<T>, p: Ptr, data: seq<T>): (r: seq<T>)
    ensures |r| == |before|
  {
    if p.At? && Fits(before, p, |data|) then before[..p.index] + data + before[p.index + |data|..] else before
  }

  /** Splicing in nothing changes nothing. */
  lemma SpliceEmpty<T>(before: seq<T>, p: Ptr)
    ensures Splice(before, p, []) == before
  {
    if p.At? && Fits(before, p, 0) {
      assert before[..p.index] + before[p.index..] == before;
    }
  }

  /** Writes the slice a callee returned back through slot `p`. */
  function Store<T>(buf: seq<T>, p: Ptr, data: Option<seq<T>>): (r: seq<T>)
    requires data.Some? ==> Fits(buf, p, |data.value|)
    ensures |r| == |buf|
  {
    if data.Some? then Splice(buf, p, data.value) else buf
  }

  /** The concatenation of `chunks`, in order. */
  function Flatten<T>(chunks: seq<seq<T>>): seq<T>
  {
    if |chunks| == 0 then [] else Flatten(chunks[..|chunks| - 1]) + chunks[|chunks| - 1]
  }

  /** Every chunk has `size` elements. */
  predicate Uniform<T>(chunks: seq<seq<T>>, size: nat)
  {
    forall i :: 0 <= i < |chunks| ==> |chunks[i]| == size
  }

  lemma {:induction false} FlattenLength<T>(chunks: seq<seq<T>>, size: nat)
    requires Uniform(chunks, size)
    ensures |Flatten(chunks)| == Scale(|chunks|, size)
  {
    if |chunks| > 0 {
      FlattenLength(chunks[..|chunks| - 1], size);
    }
  }

  /** Appending a chunk appends its elements. */
  lemma FlattenSnoc<T>(done: seq<seq<T>>, chunk: seq<T>)
    ensures Flatten(done + [chunk]) == Flatten(done) + chunk
  {
    assert (done + [chunk])[..|done|] == done;
  }

  /** Block `i` of a concatenation of equal-sized chunks is chunk `i`. */
  lemma {:induction false} FlattenBlock<T>(chunks: seq<seq<T>>, size: nat, i: nat)
    requires Uniform(chunks, size) && i < |chunks|
    ensures |Flatten(chunks)| == Scale(|chunks|, size)
    ensures Scale(i + 1, size) <= Scale(|chunks|, size)
    ensures Flatten(chunks)[Scale(i, size) .. Scale(i + 1, size)] == chunks[i]
  {
    FlattenLength(chunks, size);
    BlockInside(0, i, |chunks|, size);
    var last := |chunks| - 1;
    var init := chunks[..last];
    FlattenLength(init, size);
    assert Flatten(chunks) == Flatten(init) + chunks[last];
    if i < last {
      FlattenBlock(init, size, i);
    }
  }

  /** Element `x` of a fitting splice: from `data` inside the written range,
      from `before` elsewhere. */
  lemma SpliceElement<T>(before: seq<T>, lo: nat, data: seq<T>, x: nat)
    requires lo + |data| <= |before| && x < |before|
    ensures Splice(before, At(lo), data)[x] == if lo <= x < lo + |data| then data[x - lo] else before[x]
  {
  }

  /** A second write over the same range replaces the first. */
  lemma SpliceOverwrite<T>(before: seq<T>, lo: nat, a: seq<T>, b: seq<T>)
    requires |a| == |b| && lo + |a| <= |before|
    ensures Splice(Splice(before, At(lo), a), At(lo), b) == Splice(before, At(lo), b)
  {
    forall x | 0 <= x < |before|
      ensures Splice(Splice(before, At(lo), a), At(lo), b)[x] == Splice(before, At(lo), b)[x]
    {
      SpliceElement(Splice(before, At(lo), a), lo, b, x);
      SpliceElement(before, lo, a, x);
      SpliceElement(before, lo, b, x);
    }
  }

  /** What was written at the front is read back from the front. */
  lemma SpliceFront<T>(before: seq<T>, data: seq<T>)
    requires |data| <= |before|
    ensures Splice(before, At(0), data)[..|data|] == data
  {
  }

  /** Any part of what was written is read back from where it was written. */
  lemma SpliceReadsBack<T>(before: seq<T>, lo: nat, data: seq<T>, a: nat, b: nat)
    requires lo + |data| <= |before| && a <= b <= |data|
    ensures Splice(before, At(lo), data)[lo + a .. lo + b] == data[a..b]
  {
    forall x | lo + a <= x < lo + b
      ensures Splice(before, At(lo), data)[x] == data[x - lo]
    {
      SpliceElement(before, lo, data, x);
    }
  }

  /** Splicing `prefix` and then `chunk` right after it is splicing
      `prefix + chunk`; before the second write, `chunk`'s destination still
      holds `orig`'s elements. */
  lemma SpliceAppend<T>(orig: seq<T>, b: nat, prefix: seq<T>, chunk: seq<T>)
    requires b + |prefix| + |chunk| <= |orig|
    ensures Splice(orig, At(b), prefix)[b + |prefix| .. b + |prefix| + |chunk|]
         == orig[b + |prefix| .. b + |prefix| + |chunk|]
    ensures Splice(Splice(orig, At(b), prefix), At(b + |prefix|), chunk)
         == Splice(orig, At(b), prefix + chunk)
  {
    var lo := b + |prefix|;
    var cur := Splice(orig, At(b), prefix);
    var two := Splice(cur, At(lo), chunk);
    var one := Splice(orig, At(b), prefix + chunk);
    forall x | 0 <= x < |orig|
      ensures two[x] == one[x]
      ensures lo <= x < lo + |chunk| ==> cur[x] == orig[x]
    {
      SpliceElement(cur, lo, chunk, x);
      SpliceElement(orig, b, prefix, x);
      SpliceElement(orig, b, prefix + chunk, x);
    }
  }

  /** The block of instance `m` of a port starts after the `m * nnz`
      elements of the earlier instances and ends inside the port's extent. */
  lemma SliceAt<T>(buf: seq<T>, p: Ptr, n: nat, nnz: nat, m: nat)
    requires PortPlaced(buf, p, n, nnz) && p.At? && m < n
    ensures SliceSlot(p, m, nnz) == At(p.index + Scale(m, nnz))
    ensures p.index + Scale(m, nnz) + nnz <= p.index + Scale(n, nnz) <= |buf|
    ensures Slice(buf, p, n, nnz, m) == Some(buf[p.index + Scale(m, nnz) .. p.index + Scale(m, nnz) + nnz])
  {
    BlockInside(p.index, m, n, nnz);
  }

  /** During a serial sweep over a port, after instances `0 .. m-1` have
      written their chunks, instance `m`'s slice still holds its original
      contents. */
  lemma SpliceRead<T>(orig: seq<T>, p: Ptr, n: nat, nnz: nat, done: seq<seq<T>>, m: nat)
    requires PortPlaced(orig, p, n, nnz) && |done| == m < n
    requires p.At? ==> Uniform(done, nnz)
    ensures PortPlaced(Splice(orig, p, Flatten(done)), p, n, nnz)
    ensures Slice(Splice(orig, p, Flatten(done)), p, n, nnz, m) == Slice(orig, p, n, nnz, m)
  {
    if p.At? {
      FlattenLength(done, nnz);
      SliceAt(orig, p, n, nnz, m);
      SliceAt(Splice(orig, p, Flatten(done)), p, n, nnz, m);
      SpliceAppend(orig, p.index, Flatten(done), orig[p.index + Scale(m, nnz) .. p.index + Scale(m, nnz) + nnz]);
    }
  }

  /** During a serial sweep over a port, writing instance `m`'s chunk into its
      slice extends the splice of chunks `0 .. m-1` by that chunk. */
  lemma SpliceWrite<T>(orig: seq<T>, p: Ptr, n: nat, nnz: nat, done: seq<seq<T>>, m: nat, data: Option<seq<T>>)
    requires PortPlaced(orig, p, n, nnz) && |done| == m < n
    requires p.At? ==> Uniform(done, nnz) && data.Some? && |data.value| == nnz
    ensures data.Some? ==> Fits(Splice(orig, p, Flatten(done)), SliceSlot(p, m, nnz), |data.value|)
    ensures Store(Splice(orig, p, Flatten(done)), SliceSlot(p, m, nnz), data)
         == Splice(orig, p, Flatten(done + [data.GetOr([])]))
  {
    if p.At? {
      var prefix := Flatten(done);
      assert |prefix| == Scale(m, nnz) by {
        FlattenLength(done, nnz);
      }
      assert SliceSlot(p, m, nnz) == At(p.index + |prefix|) && p.index + |prefix| + nnz <= |orig| by {
        SliceAt(orig, p, n, nnz, m);
      }
      FlattenSnoc(done, data.value);
      SpliceAppend(orig, p.index, prefix, data.value);
    }
  }

  /** Once all `n` instances have written their chunks, instance `i`'s slice
      of the port holds chunk `i`. */
  lemma SpliceBlock<T>(orig: seq<T>, p: Ptr, n: nat, nnz: nat, chunks: seq<seq<T>>, i: nat)
    requires PortPlaced(orig, p, n, nnz) && |chunks| == n && i < n
    requires p.At? ==> Uniform(chunks, nnz)
    ensures PortPlaced(Splice(orig, p, Flatten(chunks)), p, n, nnz)
    ensures Slice(Splice(orig, p, Flatten(chunks)), p, n, nnz, i) == if p.At? then Some(chunks[i]) else None
  {
    if p.At? {
      FlattenBlock(chunks, nnz, i);
      SliceAt(orig, p, n, nnz, i);
      SliceAt(Splice(orig, p, Flatten(chunks)), p, n, nnz, i);
      SpliceReadsBack(orig, p.index, Flatten(chunks), Scale(i, nnz), Scale(i + 1, nnz));
    }
  }
}
