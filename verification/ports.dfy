/**
 * One side of the map — all its input ports or all its output ports — taken
 * together: one buffer and one caller slot per port, and the slices the
 * instances see and leave behind.
 */
module Ports {
  import opened Results
  import opened Slicing
  import opened Buffers

  /** Every port's buffer holds all `n` instances' slices behind its slot. */
  predicate SidePlaced<T>(mem: seq<seq<T>>, ptrs: seq<Ptr>, n: nat, nnz: seq<nat>)
  {
    |mem| == |ptrs| == |nnz|
    && forall j :: 0 <= j < |ptrs| ==> PortPlaced(mem[j], ptrs[j], n, nnz[j])
  }

  /** A row of slices (one per port) with the side's absent ports absent and
      every present slice of its port's size. */
  predicate Matches<T>(ptrs: seq<Ptr>, nnz: seq<nat>, row: seq<Option<seq<T>>>)
  {
    |row| == |ptrs| == |nnz|
    && forall j :: 0 <= j < |row| ==>
         (row[j].Some? <==> ptrs[j].At?) && (row[j].Some? ==> |row[j].value| == nnz[j])
  }

  /** Instance `i`'s slices of the side's buffers. */
  function Slices<T>(mem: seq<seq<T>>, ptrs: seq<Ptr>, n: nat, nnz: seq<nat>, i: nat): (r: seq<Option<seq<T>>>)
    requires SidePlaced(mem, ptrs, n, nnz) && i < n
    ensures Matches(ptrs, nnz, r)
  {
    seq(|ptrs|, j requires 0 <= j < |ptrs| => Slice(mem[j], ptrs[j], n, nnz[j], i))
  }

  /** Every slot fits its port's slice in that port's buffer. */
  predicate SlotsFit<T>(mem: seq<seq<T>>, slots: seq<Ptr>, nnz: seq<nat>)
  {
    |slots| == |mem| == |nnz| && forall j :: 0 <= j < |slots| ==> Fits(mem[j], slots[j], nnz[j])
  }

  /** What a callee reads through the slots `slots`. */
  function Views<T>(mem: seq<seq<T>>, slots: seq<Ptr>, nnz: seq<nat>): (r: seq<Option<seq<T>>>)
    requires SlotsFit(mem, slots, nnz)
    ensures |r| == |slots|
    ensures forall j :: 0 <= j < |r| ==> (r[j].None? <==> slots[j].Null?)
  {
    seq(|slots|, j requires 0 <= j < |slots| => Window(mem[j], slots[j], nnz[j]))
  }

  /** Every present slice of `row` fits behind its slot. */
  predicate RowFits<T>(mem: seq<seq<T>>, slots: seq<Ptr>, row: seq<Option<seq<T>>>)
  {
    |slots| == |mem| == |row|
    && forall j :: 0 <= j < |row| && row[j].Some? ==> Fits(mem[j], slots[j], |row[j].value|)
  }

  /** Writes back every slice of `row` through its slot. */
  function StoreRow<T>(mem: seq<seq<T>>, slots: seq<Ptr>, row: seq<Option<seq<T>>>): (r: seq<seq<T>>)
    requires RowFits(mem, slots, row)
    ensures |r| == |mem|
  {
    seq(|mem|, j requires 0 <= j < |mem| => Store(mem[j], slots[j], row[j]))
  }

  /** Port `j`'s slice in every row, in row order (empty where absent). */
  function Column<T>(rows: seq<seq<Option<seq<T>>>>, j: nat): (r: seq<seq<T>>)
    ensures |r| == |rows|
  {
    seq(|rows|, i requires 0 <= i < |rows| => if j < |rows[i]| then rows[i][j].GetOr([]) else [])
  }

  /** The side's buffers once the instances `0 .. |rows|-1` have left the
      slices `rows` behind: every port's buffer holds its column, in
      instance order, from its slot on, and nothing else has changed. */
  function Laid<T>(orig: seq<seq<T>>, ptrs: seq<Ptr>, rows: seq<seq<Option<seq<T>>>>): (r: seq<seq<T>>)
    requires |ptrs| == |orig|
    ensures |r| == |orig|
  {
    seq(|orig|, j requires 0 <= j < |orig| => Splice(orig[j], ptrs[j], Flatten(Column(rows, j))))
  }

  /** Before any instance has run, the buffers are the caller's. */
  lemma LaidNothing<T>(orig: seq<seq<T>>, ptrs: seq<Ptr>)
    requires |ptrs| == |orig|
    ensures Laid(orig, ptrs, []) == orig
  {
    forall j | 0 <= j < |orig|
      ensures Laid(orig, ptrs, [])[j] == orig[j]
    {
      assert Flatten(Column<T>([], j)) == [];
      SpliceEmpty(orig[j], ptrs[j]);
    }
  }

  /** Every row of `rows` matches the side's ports. */
  predicate RowsMatch<T>(ptrs: seq<Ptr>, nnz: seq<nat>, rows: seq<seq<Option<seq<T>>>>)
  {
    forall i :: 0 <= i < |rows| ==> Matches(ptrs, nnz, rows[i])
  }

  /** A present port's column consists of slices of its size. */
  lemma ColumnUniform<T>(ptrs: seq<Ptr>, nnz: seq<nat>, rows: seq<seq<Option<seq<T>>>>, j: nat)
    requires RowsMatch(ptrs, nnz, rows) && j < |ptrs| == |nnz| && ptrs[j].At?
    ensures Uniform(Column(rows, j), nnz[j])
  {
    forall i | 0 <= i < |rows|
      ensures |Column(rows, j)[i]| == nnz[j]
    {
      assert Matches(ptrs, nnz, rows[i]);
    }
  }

  /** Adding a row adds one slice to every column. */
  lemma ColumnSnoc<T>(rows: seq<seq<Option<seq<T>>>>, row: seq<Option<seq<T>>>, j: nat)
    requires j < |row|
    ensures Column(rows + [row], j) == Column(rows, j) + [row[j].GetOr([])]
  {
  }

  /** Once instances `0 .. m-1` have left their slices behind, instance `m`'s
      serial slots fit the buffers and read exactly instance `m`'s slices of
      the caller's ORIGINAL buffers. */
  lemma ReadAfterRows<T>(orig: seq<seq<T>>, ptrs: seq<Ptr>, n: nat, nnz: seq<nat>,
                         rows: seq<seq<Option<seq<T>>>>)
    requires SidePlaced(orig, ptrs, n, nnz) && |rows| < n && RowsMatch(ptrs, nnz, rows)
    ensures SlotsFit(Laid(orig, ptrs, rows), SliceSlots(ptrs, nnz, |rows|), nnz)
    ensures Views(Laid(orig, ptrs, rows), SliceSlots(ptrs, nnz, |rows|), nnz)
         == Slices(orig, ptrs, n, nnz, |rows|)
  {
    var cur := Laid(orig, ptrs, rows);
    var slots := SliceSlots(ptrs, nnz, |rows|);
    forall j | 0 <= j < |ptrs|
      ensures Fits(cur[j], slots[j], nnz[j])
      ensures Window(cur[j], slots[j], nnz[j]) == Slice(orig[j], ptrs[j], n, nnz[j], |rows|)
    {
      if ptrs[j].At? {
        ColumnUniform(ptrs, nnz, rows, j);
      }
      SpliceRead(orig[j], ptrs[j], n, nnz[j], Column(rows, j), |rows|);
      SliceFits(cur[j], ptrs[j], n, nnz[j], |rows|);
    }
  }

  /** Writing the slices a call left behind through instance `m = |rows|`'s
      serial slots extends every port's buffer by that instance's slice. */
  lemma WriteAfterRows<T>(orig: seq<seq<T>>, ptrs: seq<Ptr>, n: nat, nnz: seq<nat>,
                          rows: seq<seq<Option<seq<T>>>>, row: seq<Option<seq<T>>>)
    requires SidePlaced(orig, ptrs, n, nnz) && |rows| < n && RowsMatch(ptrs, nnz, rows) && Matches(ptrs, nnz, row)
    ensures RowFits(Laid(orig, ptrs, rows), SliceSlots(ptrs, nnz, |rows|), row)
    ensures StoreRow(Laid(orig, ptrs, rows), SliceSlots(ptrs, nnz, |rows|), row)
         == Laid(orig, ptrs, rows + [row])
  {
    var cur := Laid(orig, ptrs, rows);
    var slots := SliceSlots(ptrs, nnz, |rows|);
    forall j | 0 <= j < |ptrs|
      ensures row[j].Some? ==> Fits(cur[j], slots[j], |row[j].value|)
      ensures Store(cur[j], slots[j], row[j]) == Laid(orig, ptrs, rows + [row])[j]
    {
      if ptrs[j].At? {
        ColumnUniform(ptrs, nnz, rows, j);
      }
      SpliceWrite(orig[j], ptrs[j], n, nnz[j], Column(rows, j), |rows|, row[j]);
      ColumnSnoc(rows, row, j);
    }
  }

  /** Before any instance has written, instance `m`'s serial slots fit the
      caller's buffers and read instance `m`'s slices. */
  lemma ReadOriginal<T>(orig: seq<seq<T>>, ptrs: seq<Ptr>, n: nat, nnz: seq<nat>, m: nat)
    requires SidePlaced(orig, ptrs, n, nnz) && m < n
    ensures SlotsFit(orig, SliceSlots(ptrs, nnz, m), nnz)
    ensures Views(orig, SliceSlots(ptrs, nnz, m), nnz) == Slices(orig, ptrs, n, nnz, m)
  {
    forall j | 0 <= j < |ptrs|
      ensures Fits(orig[j], SliceSlots(ptrs, nnz, m)[j], nnz[j])
    {
      SliceFits(orig[j], ptrs[j], n, nnz[j], m);
    }
  }

  /** Once all `n` instances have left their rows behind, instance `i`'s
      slices of the side's buffers are exactly row `i`: every instance's
      result ends up in that instance's own slices. */
  lemma LaidReadsBack<T>(orig: seq<seq<T>>, ptrs: seq<Ptr>, n: nat, nnz: seq<nat>,
                         rows: seq<seq<Option<seq<T>>>>, i: nat)
    requires SidePlaced(orig, ptrs, n, nnz) && |rows| == n && RowsMatch(ptrs, nnz, rows) && i < n
    ensures SidePlaced(Laid(orig, ptrs, rows), ptrs, n, nnz)
    ensures Slices(Laid(orig, ptrs, rows), ptrs, n, nnz, i) == rows[i]
  {
    var cur := Laid(orig, ptrs, rows);
    forall j | 0 <= j < |ptrs|
      ensures PortPlaced(cur[j], ptrs[j], n, nnz[j])
      ensures Slice(cur[j], ptrs[j], n, nnz[j], i) == if ptrs[j].At? then Some(Column(rows, j)[i]) else None
    {
      if ptrs[j].At? {
        ColumnUniform(ptrs, nnz, rows, j);
      }
      SpliceBlock(orig[j], ptrs[j], n, nnz[j], Column(rows, j), i);
    }
    assert Matches(ptrs, nnz, rows[i]);
  }
}
