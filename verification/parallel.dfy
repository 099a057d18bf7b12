/**
 * The parallel strategy (`MapOmp`): every instance gets its own block of
 * pointer slots and its own block of each scratch area, so that the
 * instances can run in any order, or at the same time, without seeing each
 * other's writes. Instance `i`'s input slots are computed by advancing the
 * caller's pointers WITHOUT the null test the serial strategy makes.
 */
module ParallelMap {
  import opened Results
  import opened Slicing
  import opened Buffers
  import opened Ports
  import opened Kernel
  import opened SerialMap

  /** What an evaluation hands back: the calls made to `f`, in the order the
      loop issued them, and the memory left behind. */
  datatype Outcome<T> = Outcome(calls: seq<Call<T>>, mem: State<T>)

  /** Entry `j` of instance `i`'s area, when every instance owns `size`
      consecutive entries from `base` on (pointer slots from `n_in` or
      `n_out` on, scratch from 0 on). */
  function AreaIndex(base: int, size: nat, i: nat, j: nat): int
  {
    base + Scale(i, size) + j
  }

  /** An entry inside the area's size belongs to its instance's block. */
  lemma AreaOwned(base: int, size: nat, i: nat, j: nat)
    requires j < size
    ensures InBlock(AreaIndex(base, size, i, j), base, i, size)
  {
  }

  /** No two instances, and no two entries of one instance, share a position:
      the parallel loop's writes to pointer slots and scratch never collide. */
  lemma AreasDisjoint(base: int, size: nat, i: nat, j: nat, i': nat, j': nat)
    requires j < size && j' < size && (i != i' || j != j')
    ensures AreaIndex(base, size, i, j) != AreaIndex(base, size, i', j')
  {
    if AreaIndex(base, size, i, j) == AreaIndex(base, size, i', j') {
      AreaOwned(base, size, i, j);
      AreaOwned(base, size, i', j');
      BlocksDisjoint(AreaIndex(base, size, i, j), base, i, i', size);
    }
  }

  /** The areas of instances `0 .. n-1` lie inside the `n * size` entries
      the parallel map allocates. */
  lemma AreaAllocated(base: int, size: nat, n: nat, i: nat, j: nat)
    requires i < n && j < size
    ensures base <= AreaIndex(base, size, i, j) < base + Scale(n, size)
  {
    AreaOwned(base, size, i, j);
    BlockInside(base, i, n, size);
  }

  /** The workspace holds one block of scratch per instance. */
  predicate Provisioned<T>(job: Job<T>, st: State<T>)
  {
    |st.iw| >= Scale(job.n, job.sig.szIw) && |st.w| >= Scale(job.n, job.sig.szW)
  }

  /** Instance `i`'s own block of a scratch area. */
  function Region<S>(buf: seq<S>, size: nat, n: nat, i: nat): (r: seq<S>)
    requires |buf| >= Scale(n, size) && i < n
    ensures |r| == size
  {
    BlockInside(0, i, n, size);
    buf[Scale(i, size) .. Scale(i + 1, size)]
  }

  /** The parallel loop's input slot rule applied to every port. */
  function UncheckedSlots(ptrs: seq<Ptr>, nnz: seq<nat>, i: nat): (r: seq<Ptr>)
    requires |nnz| == |ptrs|
    ensures |r| == |ptrs|
  {
    seq(|ptrs|, j requires 0 <= j < |ptrs| => UncheckedSlot(ptrs[j], i, nnz[j]))
  }

  /** No slot designates nothing. */
  predicate NoStray(slots: seq<Ptr>)
  {
    forall j :: 0 <= j < |slots| ==> Proper(slots[j])
  }

  /** No instance's unchecked input slots stray. */
  predicate StrayFree<T>(job: Job<T>)
  {
    |job.sig.nnzIn| == |job.arg|
    && forall i :: 0 <= i < job.n ==> NoStray(UncheckedSlots(job.arg, job.sig.nnzIn, i))
  }

  /** The unchecked rule strays exactly when some absent input port has
      nonzeros and there is an instance past the first. */
  lemma StrayFreeIff<T>(job: Job<T>)
    requires |job.sig.nnzIn| == |job.arg| && forall j :: 0 <= j < |job.arg| ==> Proper(job.arg[j])
    ensures StrayFree(job) <==>
      !(job.n >= 2 && exists j :: 0 <= j < |job.arg| && job.arg[j].Null? && job.sig.nnzIn[j] > 0)
  {
    if job.n >= 2 && exists j :: 0 <= j < |job.arg| && job.arg[j].Null? && job.sig.nnzIn[j] > 0 {
      var j :| 0 <= j < |job.arg| && job.arg[j].Null? && job.sig.nnzIn[j] > 0;
      ScaleMonotone(1, 1, job.sig.nnzIn[j]);
      assert !Proper(UncheckedSlots(job.arg, job.sig.nnzIn, 1)[j]);
    } else {
      forall i, j | 0 <= i < job.n && 0 <= j < |job.arg|
        ensures Proper(UncheckedSlots(job.arg, job.sig.nnzIn, i)[j])
      {
        UncheckedAgrees(job.arg[j], i, job.sig.nnzIn[j]);
        ScaleIsProduct(i, job.sig.nnzIn[j]);
      }
    }
  }

  /** The smallest case of the stray: two instances, an absent input port of
      two nonzeros. The second instance is handed a non-null slot where the
      serial strategy hands it null. */
  lemma StrayExample()
    ensures UncheckedSlot(Null, 1, 2) == Stray(2)
    ensures SliceSlot(Null, 1, 2) == Null
  {
  }

  /** Where no slot strays, the unchecked rule computes the serial slots. */
  lemma UncheckedIsSerial<T>(job: Job<T>, i: nat)
    requires |job.sig.nnzIn| == |job.arg| && forall j :: 0 <= j < |job.arg| ==> Proper(job.arg[j])
    requires NoStray(UncheckedSlots(job.arg, job.sig.nnzIn, i))
    ensures UncheckedSlots(job.arg, job.sig.nnzIn, i) == SliceSlots(job.arg, job.sig.nnzIn, i)
  {
    forall j | 0 <= j < |job.arg|
      ensures UncheckedSlots(job.arg, job.sig.nnzIn, i)[j] == SliceSlots(job.arg, job.sig.nnzIn, i)[j]
    {
      UncheckedAgrees(job.arg[j], i, job.sig.nnzIn[j]);
      ScaleIsProduct(i, job.sig.nnzIn[j]);
    }
  }

  /** The integer scratch every call in `calls` left behind, in call order. */
  function IwChunks<T>(f: Call<T> -> Call<T>, calls: seq<Call<T>>): (r: seq<seq<int>>)
    ensures |r| == |calls|
  {
    seq(|calls|, i requires 0 <= i < |calls| => f(calls[i]).iw)
  }

  /** The element scratch every call in `calls` left behind, in call order. */
  function WChunks<T>(f: Call<T> -> Call<T>, calls: seq<Call<T>>): (r: seq<seq<T>>)
    ensures |r| == |calls|
  {
    seq(|calls|, i requires 0 <= i < |calls| => f(calls[i]).w)
  }

  /** One more call adds its scratch to the end of each list. */
  lemma ChunksSnoc<T>(f: Call<T> -> Call<T>, calls: seq<Call<T>>, c: Call<T>)
    ensures IwChunks(f, calls + [c]) == IwChunks(f, calls) + [f(c).iw]
    ensures WChunks(f, calls + [c]) == WChunks(f, calls) + [f(c).w]
  {
    assert forall i :: 0 <= i < |calls| ==> (calls + [c])[i] == calls[i];
  }

  /** Call `c` got instance `i`'s own scratch blocks of the ORIGINAL workspace. */
  ghost predicate OwnScratch<T>(job: Job<T>, st: State<T>, c: Call<T>, i: nat)
    requires Provisioned(job, st) && i < job.n
  {
    c.iw == Region(st.iw, job.sig.szIw, job.n, i) && c.w == Region(st.w, job.sig.szW, job.n, i)
  }

  /** The calls of a parallel sweep so far: call `i` saw instance `i`'s
      slices and scratch blocks, all of the caller's original memory. */
  ghost predicate Independent<T>(job: Job<T>, st: State<T>, calls: seq<Call<T>>)
    requires Placed(job, st) && Provisioned(job, st)
  {
    && |calls| <= job.n
    && forall i {:trigger Sees(job, st, calls[i], i)} :: 0 <= i < |calls| ==> Sees(job, st, calls[i], i) && OwnScratch(job, st, calls[i], i)
  }

  /** The memory a parallel sweep leaves: the outputs hold every call's
      output slices, each scratch block what its instance left there, and
      the inputs are untouched. */
  ghost predicate ParallelWritten<T>(job: Job<T>, st: State<T>, calls: seq<Call<T>>, cur: State<T>)
  {
    && |job.res| == |st.resMem|
    && cur.argMem == st.argMem
    && cur.resMem == Laid(st.resMem, job.res, ResRows(job.f, calls))
    && cur.iw == Splice(st.iw, At(0), Flatten(IwChunks(job.f, calls)))
    && cur.w == Splice(st.w, At(0), Flatten(WChunks(job.f, calls)))
  }

  /** A complete parallel sweep: every instance ran once, on its own slices
      and its own scratch. */
  ghost predicate ParallelSpec<T>(job: Job<T>, st: State<T>, calls: seq<Call<T>>, cur: State<T>)
    requires Placed(job, st) && Provisioned(job, st)
  {
    |calls| == job.n && Independent(job, st, calls) && ParallelWritten(job, st, calls, cur)
  }

  /** The loop state of the parallel sweep after the calls `calls`. */
  ghost predicate ParSwept<T>(job: Job<T>, st: State<T>, calls: seq<Call<T>>, cur: State<T>)
    requires Placed(job, st) && Provisioned(job, st)
  {
    && Independent(job, st, calls)
    && ParallelWritten(job, st, calls, cur)
    && RowsConform(job, calls)
    && Uniform(IwChunks(job.f, calls), job.sig.szIw)
    && Uniform(WChunks(job.f, calls), job.sig.szW)
  }

  /** Before instance `i = |calls|` runs, its slots and scratch blocks fit
      the current memory and read exactly its part of the ORIGINAL memory. */
  lemma ParReads<T>(job: Job<T>, st: State<T>, calls: seq<Call<T>>, cur: State<T>)
    requires Placed(job, st) && Provisioned(job, st) && |calls| < job.n
    requires ParSwept(job, st, calls, cur)
    ensures SlotsFit(cur.argMem, SliceSlots(job.arg, job.sig.nnzIn, |calls|), job.sig.nnzIn)
    ensures SlotsFit(cur.resMem, SliceSlots(job.res, job.sig.nnzOut, |calls|), job.sig.nnzOut)
    ensures Views(cur.argMem, SliceSlots(job.arg, job.sig.nnzIn, |calls|), job.sig.nnzIn) == ArgSlices(job, st, |calls|)
    ensures Views(cur.resMem, SliceSlots(job.res, job.sig.nnzOut, |calls|), job.sig.nnzOut) == ResSlices(job, st, |calls|)
    ensures Fits(cur.iw, SliceSlot(At(0), |calls|, job.sig.szIw), job.sig.szIw)
    ensures Fits(cur.w, SliceSlot(At(0), |calls|, job.sig.szW), job.sig.szW)
    ensures Window(cur.iw, SliceSlot(At(0), |calls|, job.sig.szIw), job.sig.szIw)
         == Some(Region(st.iw, job.sig.szIw, job.n, |calls|))
    ensures Window(cur.w, SliceSlot(At(0), |calls|, job.sig.szW), job.sig.szW)
         == Some(Region(st.w, job.sig.szW, job.n, |calls|))
  {
    var i := |calls|;
    ReadOriginal(st.argMem, job.arg, job.n, job.sig.nnzIn, i);
    ReadAfterRows(st.resMem, job.res, job.n, job.sig.nnzOut, ResRows(job.f, calls));
    ScratchRead(st.iw, job.n, job.sig.szIw, IwChunks(job.f, calls));
    ScratchRead(st.w, job.n, job.sig.szW, WChunks(job.f, calls));
  }

  /** Instance `m`'s scratch block, after instances `0 .. m-1` wrote theirs,
      still holds its original contents. */
  lemma ScratchRead<S>(orig: seq<S>, n: nat, size: nat, done: seq<seq<S>>)
    requires |orig| >= Scale(n, size) && |done| < n && Uniform(done, size)
    ensures Fits(Splice(orig, At(0), Flatten(done)), SliceSlot(At(0), |done|, size), size)
    ensures Window(Splice(orig, At(0), Flatten(done)), SliceSlot(At(0), |done|, size), size)
         == Some(Region(orig, size, n, |done|))
  {
    var m := |done|;
    var spliced := Splice(orig, At(0), Flatten(done));
    SpliceRead(orig, At(0), n, size, done, m);
    SliceFits(spliced, At(0), n, size, m);
    BlockInside(0, m, n, size);
    var lo := Scale(m, size);
    assert SliceSlot(At(0), m, size) == At(lo);
    assert Slice(orig, At(0), n, size, m) == Some(orig[lo .. lo + size]);
    assert Region(orig, size, n, m) == orig[lo .. lo + size];
  }

  /** Storing instance `m`'s scratch into its own block extends the splice
      of the blocks of instances `0 .. m-1`. */
  lemma ScratchWrite<S>(orig: seq<S>, n: nat, size: nat, done: seq<seq<S>>, data: seq<S>)
    requires |orig| >= Scale(n, size) && |done| < n && Uniform(done, size) && |data| == size
    ensures Fits(Splice(orig, At(0), Flatten(done)), SliceSlot(At(0), |done|, size), size)
    ensures Store(Splice(orig, At(0), Flatten(done)), SliceSlot(At(0), |done|, size), Some(data))
         == Splice(orig, At(0), Flatten(done + [data]))
    ensures Uniform(done + [data], size)
  {
    SpliceWrite(orig, At(0), n, size, done, |done|, Some(data));
  }

  /** A call that sees instance `|calls|`'s slices and scratch blocks extends
      an independent trace. */
  lemma IndependentExtend<T>(job: Job<T>, st: State<T>, calls: seq<Call<T>>, c: Call<T>)
    requires Placed(job, st) && Provisioned(job, st) && Independent(job, st, calls) && |calls| < job.n
    requires Sees(job, st, c, |calls|) && OwnScratch(job, st, c, |calls|)
    ensures Independent(job, st, calls + [c])
  {
    var calls' := calls + [c];
    forall i | 0 <= i < |calls'|
      ensures Sees(job, st, calls'[i], i) && OwnScratch(job, st, calls'[i], i)
    {
      if i < |calls| {
        assert calls'[i] == calls[i];
      }
    }
  }

  /** Writing back what call `c` left behind, through instance `|calls|`'s
      slots and scratch blocks, extends the parallel loop state by that call. */
  lemma ParWrites<T(!new)>(job: Job<T>, st: State<T>, calls: seq<Call<T>>, cur: State<T>, c: Call<T>)
    requires Placed(job, st) && Provisioned(job, st) && Conforms(job.sig, job.f) && |calls| < job.n
    requires ParSwept(job, st, calls, cur)
    requires Sees(job, st, c, |calls|) && OwnScratch(job, st, c, |calls|)
    ensures RowFits(cur.resMem, SliceSlots(job.res, job.sig.nnzOut, |calls|), job.f(c).res)
    ensures Fits(cur.iw, SliceSlot(At(0), |calls|, job.sig.szIw), |job.f(c).iw|)
    ensures Fits(cur.w, SliceSlot(At(0), |calls|, job.sig.szW), |job.f(c).w|)
    ensures ParSwept(job, st, calls + [c],
                     State(cur.argMem,
                           StoreRow(cur.resMem, SliceSlots(job.res, job.sig.nnzOut, |calls|), job.f(c).res),
                           Store(cur.iw, SliceSlot(At(0), |calls|, job.sig.szIw), Some(job.f(c).iw)),
                           Store(cur.w, SliceSlot(At(0), |calls|, job.sig.szW), Some(job.f(c).w))))
  {
    var i := |calls|;
    var d := job.f(c);
    CallConforms(job, st, c, i);
    IndependentExtend(job, st, calls, c);
    RowsConformExtend(job, calls, c);
    WriteAfterRows(st.resMem, job.res, job.n, job.sig.nnzOut, ResRows(job.f, calls), d.res);
    ChunksSnoc(job.f, calls, c);
    ScratchWrite(st.iw, job.n, job.sig.szIw, IwChunks(job.f, calls), d.iw);
    ScratchWrite(st.w, job.n, job.sig.szW, WChunks(job.f, calls), d.w);
  }

  /** The parallel loop's input slot computation: `arg[j] + i*nnz_in(j)`,
      with no test for null. */
  method UncheckedInstanceSlots(ptrs: seq<Ptr>, nnz: seq<nat>, i: nat) returns (slots: seq<Ptr>)
    requires |nnz| == |ptrs|
    requires forall j :: 0 <= j < |ptrs| ==> Proper(ptrs[j])
    ensures |slots| == |ptrs|
    ensures forall j :: 0 <= j < |ptrs| && ptrs[j].At? ==> slots[j] == At(ptrs[j].index + i * nnz[j])
    ensures forall j :: 0 <= j < |ptrs| && ptrs[j].Null? ==>
      slots[j] == (if i * nnz[j] == 0 then Null else Stray(i * nnz[j]))
    ensures slots == UncheckedSlots(ptrs, nnz, i)
  {
    slots := [];
    for j := 0 to |ptrs|
      invariant |slots| == j
      invariant forall t :: 0 <= t < j ==> slots[t] == UncheckedSlot(ptrs[t], i, nnz[t])
    {
      slots := slots + [Offset(ptrs[j], Scale(i, nnz[j]))];
    }
    forall j | 0 <= j < |ptrs|
      ensures slots[j] == (if ptrs[j].At? then At(ptrs[j].index + i * nnz[j])
                           else if i * nnz[j] == 0 then Null else Stray(i * nnz[j]))
    {
      ScaleIsProduct(i, nnz[j]);
    }
  }

  /** No instance below `k` has a stray unchecked input slot. */
  predicate CleanBelow<T>(job: Job<T>, k: nat)
    requires |job.sig.nnzIn| == |job.arg|
  {
    forall t :: 0 <= t < k ==> NoStray(UncheckedSlots(job.arg, job.sig.nnzIn, t))
  }

  lemma CleanExtend<T>(job: Job<T>, k: nat, checked: bool)
    requires |job.sig.nnzIn| == |job.arg|
    requires checked || CleanBelow(job, k)
    requires checked || NoStray(UncheckedSlots(job.arg, job.sig.nnzIn, k))
    ensures checked || CleanBelow(job, k + 1)
  {
  }

  /** Instance `i`'s input slots, by the unchecked rule unless `checked`;
      None where an unchecked slot strays. */
  method InputSlots<T>(job: Job<T>, st: State<T>, i: nat, checked: bool) returns (arg1: Option<seq<Ptr>>)
    requires Placed(job, st)
    ensures arg1.Some? <==> checked || NoStray(UncheckedSlots(job.arg, job.sig.nnzIn, i))
    ensures arg1.Some? ==> arg1.value == SliceSlots(job.arg, job.sig.nnzIn, i)
  {
    if checked {
      var slots := InstanceSlots(job.arg, job.sig.nnzIn, i);
      arg1 := Some(slots);
    } else {
      var slots := UncheckedInstanceSlots(job.arg, job.sig.nnzIn, i);
      if exists j :: 0 <= j < |slots| && slots[j].Stray? {
        arg1 := None;
      } else {
        UncheckedIsSerial(job, i);
        arg1 := Some(slots);
      }
    }
  }

  /** One iteration of the parallel loop, for instance `i = |calls|`, given
      input slots that agree with the serial ones. */
  method ParStep<T(!new)>(job: Job<T>, st: State<T>, calls: seq<Call<T>>, cur: State<T>, arg1: seq<Ptr>)
    returns (c: Call<T>, nxt: State<T>)
    requires Placed(job, st) && Provisioned(job, st) && Conforms(job.sig, job.f) && |calls| < job.n
    requires ParSwept(job, st, calls, cur)
    requires arg1 == SliceSlots(job.arg, job.sig.nnzIn, |calls|)
    ensures ParSwept(job, st, calls + [c], nxt)
  {
    var i := |calls|;
    var res1 := InstanceSlots(job.res, job.sig.nnzOut, i);
    var iw1 := Offset(At(0), Scale(i, job.sig.szIw));
    var w1 := Offset(At(0), Scale(i, job.sig.szW));
    ParReads(job, st, calls, cur);
    c := Call(Views(cur.argMem, arg1, job.sig.nnzIn), Views(cur.resMem, res1, job.sig.nnzOut),
              Window(cur.iw, iw1, job.sig.szIw).value, Window(cur.w, w1, job.sig.szW).value);
    ParWrites(job, st, calls, cur, c);
    var d := job.f(c);
    nxt := State(cur.argMem, StoreRow(cur.resMem, res1, d.res), Store(cur.iw, iw1, Some(d.iw)), Store(cur.w, w1, Some(d.w)));
  }

  /**
   * The parallel evaluation loop. Instance `i`'s input slots are computed
   * by the unchecked rule as the source does (`checked == false`), or by the
   * serial null-testing rule (`checked == true`). A slot that strays is
   * undefined behaviour in the source; here the evaluation fails there.
   */
  method ParallelRun<T(!new)>(job: Job<T>, st: State<T>, checked: bool) returns (r: Result<Outcome<T>>)
    requires Placed(job, st) && Provisioned(job, st) && Conforms(job.sig, job.f)
    ensures r.Success? <==> checked || StrayFree(job)
    ensures r.Success? ==> ParallelSpec(job, st, r.value.calls, r.value.mem)
  {
    var calls: seq<Call<T>> := [];
    var cur := st;
    LaidNothing(st.resMem, job.res);
    SpliceEmpty(st.iw, At(0));
    SpliceEmpty(st.w, At(0));
    for i := 0 to job.n
      invariant |calls| == i
      invariant ParSwept(job, st, calls, cur)
      invariant checked || CleanBelow(job, i)
    {
      var arg1 := InputSlots(job, st, i, checked);
      if arg1.None? {
        return Failure("null input pointer advanced by the parallel loop");
      }
      CleanExtend(job, i, checked);
      var c;
      c, cur := ParStep(job, st, calls, cur, arg1.value);
      calls := calls + [c];
    }
    r := Success(Outcome(calls, cur));
  }

  /**
   * `MapOmp::eval` as written: a build WITH OpenMP runs the serial loop, and
   * a build without it runs the per-instance loop (whose pragma is then
   * ignored, so its instances run in order).
   */
  method Eval<T(!new)>(job: Job<T>, st: State<T>, withOpenMP: bool) returns (r: Result<Outcome<T>>)
    requires Placed(job, st) && Scratched(job.sig, st) && Provisioned(job, st) && Conforms(job.sig, job.f)
    ensures withOpenMP ==> r.Success? && SerialSpec(job, Forward, st, r.value.calls, r.value.mem)
    ensures !withOpenMP ==> (r.Success? <==> StrayFree(job))
    ensures !withOpenMP && r.Success? ==> ParallelSpec(job, st, r.value.calls, r.value.mem)
  {
    if withOpenMP {
      var calls, st' := Run(job, Forward, st);
      r := Success(Outcome(calls, st'));
    } else {
      r := ParallelRun(job, st, false);
    }
  }

  /** The evaluation the per-instance loop evidently intends: the
      per-instance loop when OpenMP is there, with null inputs kept null, and
      the serial loop otherwise. It never fails. */
  method EvalIntended<T(!new)>(job: Job<T>, st: State<T>, withOpenMP: bool) returns (r: Result<Outcome<T>>)
    requires Placed(job, st) && Scratched(job.sig, st) && Provisioned(job, st) && Conforms(job.sig, job.f)
    ensures r.Success?
    ensures withOpenMP ==> ParallelSpec(job, st, r.value.calls, r.value.mem)
    ensures !withOpenMP ==> SerialSpec(job, Forward, st, r.value.calls, r.value.mem)
  {
    if withOpenMP {
      r := ParallelRun(job, st, true);
    } else {
      var calls, st' := Run(job, Forward, st);
      r := Success(Outcome(calls, st'));
    }
  }

  /** After a complete parallel sweep, instance `i`'s output slices hold
      exactly what `f` produced from instance `i`'s input slices. */
  lemma ParallelOutputs<T(!new)>(job: Job<T>, st: State<T>, calls: seq<Call<T>>, st': State<T>, i: nat)
    requires Placed(job, st) && Provisioned(job, st) && Conforms(job.sig, job.f)
    requires ParallelSpec(job, st, calls, st') && i < job.n
    ensures Placed(job, st')
    ensures calls[i].arg == ArgSlices(job, st, i) && calls[i].res == ResSlices(job, st, i)
    ensures ResSlices(job, st', i) == job.f(calls[i]).res
  {
    assert Sees(job, st, calls[i], i);
    forall t | 0 <= t < |calls|
      ensures Matches(job.res, job.sig.nnzOut, ResRows(job.f, calls)[t])
    {
      assert Sees(job, st, calls[t], t);
      CallConforms(job, st, calls[t], t);
    }
    LaidReadsBack(st.resMem, job.res, job.n, job.sig.nnzOut, ResRows(job.f, calls), i);
  }

  /**
   * The two strategies compute the same map: when `f`'s results do not
   * depend on what its scratch held, a parallel sweep leaves the same input
   * and output buffers as a serial (forward) sweep. Only the scratch differs.
   */
  lemma ParallelMatchesSerial<T(!new)>(job: Job<T>, st: State<T>,
                                      pcalls: seq<Call<T>>, pst: State<T>, scalls: seq<Call<T>>, sst: State<T>)
    requires Placed(job, st) && Provisioned(job, st) && Scratched(job.sig, st)
    requires Conforms(job.sig, job.f) && ScratchOblivious(job.sig, job.f)
    requires ParallelSpec(job, st, pcalls, pst) && SerialSpec(job, Forward, st, scalls, sst)
    ensures pst.resMem == sst.resMem && pst.argMem == sst.argMem
  {
    forall i | 0 <= i < job.n
      ensures ResRows(job.f, pcalls)[i] == ResRows(job.f, scalls)[i]
    {
      assert Sees(job, st, pcalls[i], i) && Sees(job, st, scalls[i], i);
      CallConforms(job, st, pcalls[i], i);
      CallConforms(job, st, scalls[i], i);
      var arg, res := ArgSlices(job, st, i), ResSlices(job, st, i);
      assert pcalls[i] == Call(arg, res, pcalls[i].iw, pcalls[i].w);
      assert scalls[i] == Call(arg, res, scalls[i].iw, scalls[i].w);
    }
    assert ResRows(job.f, pcalls) == ResRows(job.f, scalls);
  }
}
