/**
 * The serial strategy (`Map`): instances `0 .. n-1` run one after another,
 * each on its own slice of every port, all sharing one workspace. Numeric
 * evaluation, symbolic evaluation and forward sparsity propagation share one
 * loop (`Forward`); reverse sparsity propagation repeats the same slicing and
 * additionally writes into the input slices (`Reverse`).
 */
module SerialMap {
  import opened Results
  import opened Slicing
  import opened Buffers
  import opened Ports
  import opened Kernel

  /** Whether `f` may write into its input slices (reverse sparsity) or only reads them. */
  datatype Mode = Forward | Reverse

  /** One evaluation request: `n` instances of `f` over the caller's slots. */
  datatype Job<!T> = Job(sig: Sig, f: Call<T> -> Call<T>, n: nat, arg: seq<Ptr>, res: seq<Ptr>)

  /** The memory an evaluation may touch: one buffer per port, and the two
      scratch areas (integer and element). */
  datatype State<T> = State(argMem: seq<seq<T>>, resMem: seq<seq<T>>, iw: seq<int>, w: seq<T>)

  /** The caller's slots and buffers hold all `n` instances of every port. */
  predicate Placed<T>(job: Job<T>, st: State<T>)
  {
    && SidePlaced(st.argMem, job.arg, job.n, job.sig.nnzIn)
    && SidePlaced(st.resMem, job.res, job.n, job.sig.nnzOut)
  }

  /** The workspace holds one call's worth of scratch. */
  predicate Scratched<T>(sig: Sig, st: State<T>)
  {
    |st.iw| >= sig.szIw && |st.w| >= sig.szW
  }

  /** Instance `i`'s slices of the input buffers. */
  function ArgSlices<T>(job: Job<T>, st: State<T>, i: nat): (r: seq<Option<seq<T>>>)
    requires Placed(job, st) && i < job.n
    ensures Matches(job.arg, job.sig.nnzIn, r)
  {
    Slices(st.argMem, job.arg, job.n, job.sig.nnzIn, i)
  }

  /** Instance `i`'s slices of the output buffers. */
  function ResSlices<T>(job: Job<T>, st: State<T>, i: nat): (r: seq<Option<seq<T>>>)
    requires Placed(job, st) && i < job.n
    ensures Matches(job.res, job.sig.nnzOut, r)
  {
    Slices(st.resMem, job.res, job.n, job.sig.nnzOut, i)
  }

  /** The input slices every call in `calls` left behind, in call order. */
  function ArgRows<T>(f: Call<T> -> Call<T>, calls: seq<Call<T>>): (r: seq<seq<Option<seq<T>>>>)
    ensures |r| == |calls|
  {
    seq(|calls|, i requires 0 <= i < |calls| => f(calls[i]).arg)
  }

  /** The output slices every call in `calls` left behind, in call order. */
  function ResRows<T>(f: Call<T> -> Call<T>, calls: seq<Call<T>>): (r: seq<seq<Option<seq<T>>>>)
    ensures |r| == |calls|
  {
    seq(|calls|, i requires 0 <= i < |calls| => f(calls[i]).res)
  }

  /** Call `i` saw instance `i`'s slices of the ORIGINAL buffers, and scratch
      of `f`'s sizes: no instance sees what another instance wrote. */
  ghost predicate SawOriginal<T>(job: Job<T>, st: State<T>, calls: seq<Call<T>>)
    requires Placed(job, st)
  {
    && |calls| <= job.n
    && forall i {:trigger Sees(job, st, calls[i], i)} :: 0 <= i < |calls| ==> Sees(job, st, calls[i], i)
  }

  /** Call `c` sees instance `i`'s slices of the buffers `st`, and scratch
      of `f`'s sizes. */
  ghost predicate Sees<T>(job: Job<T>, st: State<T>, c: Call<T>, i: nat)
    requires Placed(job, st)
  {
    && i < job.n
    && c.arg == ArgSlices(job, st, i) && c.res == ResSlices(job, st, i)
    && |c.iw| == job.sig.szIw && |c.w| == job.sig.szW
  }

  /** Every output buffer, and in reverse mode every input buffer, holds what
      the calls returned for their slices, in instance order, and nothing else
      has changed; in a forward mode the input buffers are untouched. */
  ghost predicate Written<T>(job: Job<T>, mode: Mode, st: State<T>, calls: seq<Call<T>>, cur: State<T>)
  {
    && |job.res| == |st.resMem| && |job.arg| == |st.argMem|
    && cur.resMem == Laid(st.resMem, job.res, ResRows(job.f, calls))
    && (mode.Reverse? ==> cur.argMem == Laid(st.argMem, job.arg, ArgRows(job.f, calls)))
    && (mode.Forward? ==> cur.argMem == st.argMem)
  }

  /** One shared workspace: call 0 got the front of the map's workspace and
      every later call the scratch its predecessor left behind. */
  ghost predicate SharedScratch<T>(job: Job<T>, st: State<T>, calls: seq<Call<T>>)
    requires Scratched(job.sig, st)
  {
    && (|calls| > 0 ==> calls[0].iw == st.iw[..job.sig.szIw] && calls[0].w == st.w[..job.sig.szW])
    && (forall i {:trigger job.f(calls[i])} :: 0 <= i < |calls| - 1 ==>
          calls[i + 1].iw == job.f(calls[i]).iw && calls[i + 1].w == job.f(calls[i]).w)
  }

  /** The workspace holds, at its front, what the last call left there. */
  ghost predicate ScratchLeft<T>(job: Job<T>, st: State<T>, calls: seq<Call<T>>, cur: State<T>)
  {
    && (|calls| == 0 ==> cur.iw == st.iw && cur.w == st.w)
    && (|calls| > 0 ==>
          cur.iw == Splice(st.iw, At(0), job.f(calls[|calls| - 1]).iw)
          && cur.w == Splice(st.w, At(0), job.f(calls[|calls| - 1]).w))
  }

  /** A complete serial sweep: exactly `n` calls, in increasing instance
      order, and the memory they leave behind. */
  ghost predicate SerialSpec<T>(job: Job<T>, mode: Mode, st: State<T>, calls: seq<Call<T>>, cur: State<T>)
    requires Placed(job, st) && Scratched(job.sig, st)
  {
    && |calls| == job.n
    && SawOriginal(job, st, calls)
    && SharedScratch(job, st, calls)
    && Written(job, mode, st, calls, cur)
    && ScratchLeft(job, st, calls, cur)
  }

  /** Every call so far left slices of its ports' shapes behind. */
  predicate RowsConform<T>(job: Job<T>, calls: seq<Call<T>>)
  {
    RowsMatch(job.arg, job.sig.nnzIn, ArgRows(job.f, calls))
    && RowsMatch(job.res, job.sig.nnzOut, ResRows(job.f, calls))
  }

  /** A call that sees instance `i`'s slices and scratch of `f`'s sizes is
      well-shaped, and so is what `f` leaves behind. */
  lemma CallConforms<T(!new)>(job: Job<T>, st: State<T>, c: Call<T>, i: nat)
    requires Placed(job, st) && Conforms(job.sig, job.f) && Sees(job, st, c, i)
    ensures Shaped(job.sig, c)
    ensures Matches(job.arg, job.sig.nnzIn, job.f(c).arg) && Matches(job.res, job.sig.nnzOut, job.f(c).res)
    ensures |job.f(c).iw| == job.sig.szIw && |job.f(c).w| == job.sig.szW
  {
    assert SamePattern(c.arg, job.f(c).arg) && SamePattern(c.res, job.f(c).res);
    forall j | 0 <= j < |job.arg|
      ensures job.f(c).arg[j].Some? <==> job.arg[j].At?
    {
      assert PortPlaced(st.argMem[j], job.arg[j], job.n, job.sig.nnzIn[j]);
    }
    forall k | 0 <= k < |job.res|
      ensures job.f(c).res[k].Some? <==> job.res[k].At?
    {
      assert PortPlaced(st.resMem[k], job.res[k], job.n, job.sig.nnzOut[k]);
    }
  }

  /** Extending the trace by one conforming call keeps every row conforming. */
  lemma RowsConformExtend<T>(job: Job<T>, calls: seq<Call<T>>, c: Call<T>)
    requires RowsConform(job, calls)
    requires Matches(job.arg, job.sig.nnzIn, job.f(c).arg) && Matches(job.res, job.sig.nnzOut, job.f(c).res)
    ensures ArgRows(job.f, calls + [c]) == ArgRows(job.f, calls) + [job.f(c).arg]
    ensures ResRows(job.f, calls + [c]) == ResRows(job.f, calls) + [job.f(c).res]
    ensures RowsConform(job, calls + [c])
  {
    assert ArgRows(job.f, calls + [c]) == ArgRows(job.f, calls) + [job.f(c).arg];
    assert ResRows(job.f, calls + [c]) == ResRows(job.f, calls) + [job.f(c).res];
  }

  /** A call that sees instance `|calls|`'s original slices extends a trace of
      calls that saw theirs. */
  lemma SawOriginalExtend<T>(job: Job<T>, st: State<T>, calls: seq<Call<T>>, c: Call<T>)
    requires Placed(job, st) && SawOriginal(job, st, calls) && Sees(job, st, c, |calls|)
    ensures SawOriginal(job, st, calls + [c])
  {
    var calls' := calls + [c];
    forall i | 0 <= i < |calls'|
      ensures Sees(job, st, calls'[i], i)
    {
      if i < |calls| {
        assert calls'[i] == calls[i];
      }
    }
  }

  /** The front of the workspace holds what the previous call left there, or
      the map's own scratch before the first call. */
  lemma ScratchFront<T>(job: Job<T>, st: State<T>, calls: seq<Call<T>>, cur: State<T>)
    requires Scratched(job.sig, st) && ScratchLeft(job, st, calls, cur)
    requires |calls| > 0 ==> |job.f(calls[|calls| - 1]).iw| == job.sig.szIw && |job.f(calls[|calls| - 1]).w| == job.sig.szW
    ensures Scratched(job.sig, cur)
    ensures |calls| == 0 ==> cur.iw[..job.sig.szIw] == st.iw[..job.sig.szIw] && cur.w[..job.sig.szW] == st.w[..job.sig.szW]
    ensures |calls| > 0 ==> cur.iw[..job.sig.szIw] == job.f(calls[|calls| - 1]).iw
    ensures |calls| > 0 ==> cur.w[..job.sig.szW] == job.f(calls[|calls| - 1]).w
  {
    if |calls| > 0 {
      var d := job.f(calls[|calls| - 1]);
      SpliceFront(st.iw, d.iw);
      SpliceFront(st.w, d.w);
    }
  }

  /** Handing call `c` the scratch the previous call left behind (or the
      map's own before the first call) extends a shared-workspace trace. */
  lemma SharedScratchExtend<T>(job: Job<T>, st: State<T>, calls: seq<Call<T>>, c: Call<T>)
    requires Scratched(job.sig, st) && SharedScratch(job, st, calls)
    requires |calls| == 0 ==> c.iw == st.iw[..job.sig.szIw] && c.w == st.w[..job.sig.szW]
    requires |calls| > 0 ==> c.iw == job.f(calls[|calls| - 1]).iw && c.w == job.f(calls[|calls| - 1]).w
    ensures SharedScratch(job, st, calls + [c])
  {
    var calls' := calls + [c];
    forall t | 0 <= t < |calls'| - 1
      ensures calls'[t + 1].iw == job.f(calls'[t]).iw && calls'[t + 1].w == job.f(calls'[t]).w
    {
      assert calls'[t] == calls[t];
      if t + 1 < |calls| {
        assert calls'[t + 1] == calls[t + 1];
      }
    }
  }

  /** After call `d = f(c)` the front of the workspace holds `d`'s scratch
      and the rest is still the map's own. */
  lemma ScratchLeftExtend<T>(job: Job<T>, st: State<T>, calls: seq<Call<T>>, cur: State<T>, c: Call<T>, nxt: State<T>)
    requires ScratchLeft(job, st, calls, cur)
    requires |calls| > 0 ==> |job.f(calls[|calls| - 1]).iw| == job.sig.szIw <= |st.iw|
    requires |calls| > 0 ==> |job.f(calls[|calls| - 1]).w| == job.sig.szW <= |st.w|
    requires |job.f(c).iw| == job.sig.szIw <= |st.iw| && |job.f(c).w| == job.sig.szW <= |st.w|
    requires nxt.iw == Splice(cur.iw, At(0), job.f(c).iw) && nxt.w == Splice(cur.w, At(0), job.f(c).w)
    ensures ScratchLeft(job, st, calls + [c], nxt)
  {
    var i := |calls|;
    if i > 0 {
      var d := job.f(calls[i - 1]);
      SpliceOverwrite(st.iw, 0, d.iw, job.f(c).iw);
      SpliceOverwrite(st.w, 0, d.w, job.f(c).w);
    }
  }

  /** The inner loops of the serial evaluator: slot `j` of instance `i` is
      `ptrs[j] + i*nnz[j]` when `ptrs[j]` is present and null otherwise. */
  method InstanceSlots(ptrs: seq<Ptr>, nnz: seq<nat>, i: nat) returns (slots: seq<Ptr>)
    requires |nnz| == |ptrs|
    requires forall j :: 0 <= j < |ptrs| ==> Proper(ptrs[j])
    ensures |slots| == |ptrs|
    ensures forall j :: 0 <= j < |ptrs| ==>
      slots[j] == (if ptrs[j].At? then At(ptrs[j].index + i * nnz[j]) else Null)
    ensures slots == SliceSlots(ptrs, nnz, i)
  {
    slots := [];
    for j := 0 to |ptrs|
      invariant |slots| == j
      invariant forall t :: 0 <= t < j ==> slots[t] == SliceSlot(ptrs[t], i, nnz[t])
    {
      slots := slots + [if ptrs[j].Null? then Null else Offset(ptrs[j], Scale(i, nnz[j]))];
    }
    SliceSlotsKeepNull(ptrs, nnz, i);
  }

  /** The loop state after the calls `calls`. */
  ghost predicate Swept<T>(job: Job<T>, mode: Mode, st: State<T>, calls: seq<Call<T>>, cur: State<T>)
    requires Placed(job, st) && Scratched(job.sig, st)
  {
    && SawOriginal(job, st, calls)
    && SharedScratch(job, st, calls)
    && Written(job, mode, st, calls, cur)
    && ScratchLeft(job, st, calls, cur)
    && RowsConform(job, calls)
    && (|calls| > 0 ==> |job.f(calls[|calls| - 1]).iw| == job.sig.szIw && |job.f(calls[|calls| - 1]).w| == job.sig.szW)
  }

  /** The call the loop body makes through the slots `arg1` and `res1`, with
      the front of the shared workspace as scratch. */
  function Pending<T>(sig: Sig, cur: State<T>, arg1: seq<Ptr>, res1: seq<Ptr>): Call<T>
    requires SlotsFit(cur.argMem, arg1, sig.nnzIn) && SlotsFit(cur.resMem, res1, sig.nnzOut)
    requires Scratched(sig, cur)
  {
    Call(Views(cur.argMem, arg1, sig.nnzIn), Views(cur.resMem, res1, sig.nnzOut),
         cur.iw[..sig.szIw], cur.w[..sig.szW])
  }

  /** Writes back what call `d` left in its slices and scratch; in a forward
      mode the input slices are read-only and are not written. */
  function WriteBack<T>(mode: Mode, cur: State<T>, arg1: seq<Ptr>, res1: seq<Ptr>, d: Call<T>): State<T>
    requires RowFits(cur.resMem, res1, d.res)
    requires mode.Reverse? ==> RowFits(cur.argMem, arg1, d.arg)
  {
    State(if mode.Reverse? then StoreRow(cur.argMem, arg1, d.arg) else cur.argMem,
          StoreRow(cur.resMem, res1, d.res),
          Splice(cur.iw, At(0), d.iw), Splice(cur.w, At(0), d.w))
  }

  /** Before instance `i = |calls|` runs, its serial slots fit the current
      buffers and read exactly instance `i`'s slices of the ORIGINAL buffers:
      the earlier instances wrote only their own slices. */
  lemma StepReads<T>(job: Job<T>, mode: Mode, st: State<T>, calls: seq<Call<T>>, cur: State<T>)
    requires Placed(job, st) && Scratched(job.sig, st) && |calls| < job.n
    requires Swept(job, mode, st, calls, cur)
    ensures SlotsFit(cur.argMem, SliceSlots(job.arg, job.sig.nnzIn, |calls|), job.sig.nnzIn)
    ensures SlotsFit(cur.resMem, SliceSlots(job.res, job.sig.nnzOut, |calls|), job.sig.nnzOut)
    ensures Scratched(job.sig, cur)
    ensures Views(cur.argMem, SliceSlots(job.arg, job.sig.nnzIn, |calls|), job.sig.nnzIn) == ArgSlices(job, st, |calls|)
    ensures Views(cur.resMem, SliceSlots(job.res, job.sig.nnzOut, |calls|), job.sig.nnzOut) == ResSlices(job, st, |calls|)
  {
    ReadAfterRows(st.resMem, job.res, job.n, job.sig.nnzOut, ResRows(job.f, calls));
    if mode.Reverse? {
      ReadAfterRows(st.argMem, job.arg, job.n, job.sig.nnzIn, ArgRows(job.f, calls));
    } else {
      ReadOriginal(st.argMem, job.arg, job.n, job.sig.nnzIn, |calls|);
    }
  }

  /** Writing back the slices call `c` left behind, through instance
      `|calls|`'s serial slots, extends the written buffers by that call. */
  lemma WrittenExtend<T>(job: Job<T>, mode: Mode, st: State<T>, calls: seq<Call<T>>, cur: State<T>, c: Call<T>)
    requires Placed(job, st) && |calls| < job.n
    requires Written(job, mode, st, calls, cur) && RowsConform(job, calls)
    requires Matches(job.arg, job.sig.nnzIn, job.f(c).arg) && Matches(job.res, job.sig.nnzOut, job.f(c).res)
    ensures RowFits(cur.resMem, SliceSlots(job.res, job.sig.nnzOut, |calls|), job.f(c).res)
    ensures mode.Reverse? ==> RowFits(cur.argMem, SliceSlots(job.arg, job.sig.nnzIn, |calls|), job.f(c).arg)
    ensures Written(job, mode, st, calls + [c],
                    WriteBack(mode, cur, SliceSlots(job.arg, job.sig.nnzIn, |calls|),
                              SliceSlots(job.res, job.sig.nnzOut, |calls|), job.f(c)))
    ensures RowsConform(job, calls + [c])
  {
    RowsConformExtend(job, calls, c);
    WriteAfterRows(st.resMem, job.res, job.n, job.sig.nnzOut, ResRows(job.f, calls), job.f(c).res);
    if mode.Reverse? {
      WriteAfterRows(st.argMem, job.arg, job.n, job.sig.nnzIn, ArgRows(job.f, calls), job.f(c).arg);
    }
  }

  /** Writing back what call `c` left behind, through instance `i = |calls|`'s
      serial slots, extends the loop state by that call. */
  lemma StepWrites<T(!new)>(job: Job<T>, mode: Mode, st: State<T>, calls: seq<Call<T>>, cur: State<T>, c: Call<T>)
    requires Placed(job, st) && Scratched(job.sig, st) && Conforms(job.sig, job.f) && |calls| < job.n
    requires Swept(job, mode, st, calls, cur) && Scratched(job.sig, cur)
    requires c.arg == ArgSlices(job, st, |calls|) && c.res == ResSlices(job, st, |calls|)
    requires c.iw == cur.iw[..job.sig.szIw] && c.w == cur.w[..job.sig.szW]
    ensures RowFits(cur.resMem, SliceSlots(job.res, job.sig.nnzOut, |calls|), job.f(c).res)
    ensures mode.Reverse? ==> RowFits(cur.argMem, SliceSlots(job.arg, job.sig.nnzIn, |calls|), job.f(c).arg)
    ensures Swept(job, mode, st, calls + [c],
                  WriteBack(mode, cur, SliceSlots(job.arg, job.sig.nnzIn, |calls|),
                            SliceSlots(job.res, job.sig.nnzOut, |calls|), job.f(c)))
  {
    var i := |calls|;
    assert |c.iw| == job.sig.szIw && |c.w| == job.sig.szW by {
      ScratchFront(job, st, calls, cur);
    }
    CallConforms(job, st, c, i);
    ScratchFront(job, st, calls, cur);
    SharedScratchExtend(job, st, calls, c);
    SawOriginalExtend(job, st, calls, c);
    WrittenExtend(job, mode, st, calls, cur, c);
    var nxt := WriteBack(mode, cur, SliceSlots(job.arg, job.sig.nnzIn, i), SliceSlots(job.res, job.sig.nnzOut, i), job.f(c));
    ScratchLeftExtend(job, st, calls, cur, c, nxt);
  }

  /** One iteration of the serial loop, for instance `i = |calls|`: compute
      the instance's slots, call `f` through them with the shared workspace,
      and let its writes land in the buffers. */
  method Step<T(!new)>(job: Job<T>, mode: Mode, st: State<T>, calls: seq<Call<T>>, cur: State<T>)
    returns (c: Call<T>, nxt: State<T>)
    requires Placed(job, st) && Scratched(job.sig, st) && Conforms(job.sig, job.f) && |calls| < job.n
    requires Swept(job, mode, st, calls, cur)
    ensures Swept(job, mode, st, calls + [c], nxt)
  {
    var i := |calls|;
    var arg1 := InstanceSlots(job.arg, job.sig.nnzIn, i);
    var res1 := InstanceSlots(job.res, job.sig.nnzOut, i);
    StepReads(job, mode, st, calls, cur);
    c := Pending(job.sig, cur, arg1, res1);
    StepWrites(job, mode, st, calls, cur, c);
    nxt := WriteBack(mode, cur, arg1, res1, job.f(c));
  }

  /**
   * The serial evaluation loop, shared by numeric evaluation, symbolic
   * evaluation and forward sparsity propagation (`Forward`) and repeated for
   * reverse sparsity propagation (`Reverse`). Returns the calls made to `f`,
   * in order, and the memory left behind.
   */
  method Run<T(!new)>(job: Job<T>, mode: Mode, st: State<T>) returns (calls: seq<Call<T>>, st': State<T>)
    requires Placed(job, st) && Scratched(job.sig, st) && Conforms(job.sig, job.f)
    ensures SerialSpec(job, mode, st, calls, st')
  {
    calls := [];
    st' := st;
    LaidNothing(st.resMem, job.res);
    LaidNothing(st.argMem, job.arg);
    for i := 0 to job.n
      invariant |calls| == i
      invariant Swept(job, mode, st, calls, st')
    {
      var c;
      c, st' := Step(job, mode, st, calls, st');
      calls := calls + [c];
    }
  }

  /** Every call of a trace that saw the original slices left slices of its
      ports' shapes behind. */
  lemma {:induction false} TraceConforms<T(!new)>(job: Job<T>, st: State<T>, calls: seq<Call<T>>)
    requires Placed(job, st) && Conforms(job.sig, job.f) && SawOriginal(job, st, calls)
    ensures RowsConform(job, calls)
  {
    forall i | 0 <= i < |calls|
      ensures Matches(job.arg, job.sig.nnzIn, ArgRows(job.f, calls)[i])
      ensures Matches(job.res, job.sig.nnzOut, ResRows(job.f, calls)[i])
    {
      CallConforms(job, st, calls[i], i);
    }
  }

  /**
   * What the map computes: after a complete serial sweep, instance `i`'s
   * output slices hold exactly what `f` produced from instance `i`'s input
   * slices, and the map's outputs are again placed in the caller's buffers.
   * In reverse mode the same holds for the input slices.
   */
  lemma SerialOutputs<T(!new)>(job: Job<T>, mode: Mode, st: State<T>, calls: seq<Call<T>>, st': State<T>, i: nat)
    requires Placed(job, st) && Scratched(job.sig, st) && Conforms(job.sig, job.f)
    requires SerialSpec(job, mode, st, calls, st') && i < job.n
    ensures Placed(job, st')
    ensures calls[i].arg == ArgSlices(job, st, i) && calls[i].res == ResSlices(job, st, i)
    ensures ResSlices(job, st', i) == job.f(calls[i]).res
    ensures mode.Forward? ==> st'.argMem == st.argMem
    ensures mode.Reverse? ==> ArgSlices(job, st', i) == job.f(calls[i]).arg
  {
    assert Sees(job, st, calls[i], i);
    TraceConforms(job, st, calls);
    LaidReadsBack(st.resMem, job.res, job.n, job.sig.nnzOut, ResRows(job.f, calls), i);
    if mode.Reverse? {
      LaidReadsBack(st.argMem, job.arg, job.n, job.sig.nnzIn, ArgRows(job.f, calls), i);
    }
  }

  /**
   * The map's result, port by port: after a complete serial sweep, a present
   * output port's `n * nnz` elements are the concatenation, over instances
   * `0 .. n-1` in order, of the slice `f` produced for that port; every
   * element outside them is the caller's.
   */
  lemma SerialConcatenation<T(!new)>(job: Job<T>, mode: Mode, st: State<T>, calls: seq<Call<T>>, st': State<T>,
                                     j: nat)
    requires Placed(job, st) && Scratched(job.sig, st) && Conforms(job.sig, job.f)
    requires SerialSpec(job, mode, st, calls, st') && j < |job.res| && job.res[j].At?
    ensures var lo, len := job.res[j].index, Scale(job.n, job.sig.nnzOut[j]);
      && |st'.resMem[j]| == |st.resMem[j]| && 0 <= lo && lo + len <= |st'.resMem[j]|
      && st'.resMem[j][lo .. lo + len] == Flatten(Column(ResRows(job.f, calls), j))
      && forall x :: 0 <= x < |st.resMem[j]| && !(lo <= x < lo + len) ==> st'.resMem[j][x] == st.resMem[j][x]
  {
    var lo, nnz := job.res[j].index, job.sig.nnzOut[j];
    var data := Flatten(Column(ResRows(job.f, calls), j));
    TraceConforms(job, st, calls);
    ColumnUniform(job.res, job.sig.nnzOut, ResRows(job.f, calls), j);
    FlattenLength(Column(ResRows(job.f, calls), j), nnz);
    assert st'.resMem[j] == Splice(st.resMem[j], At(lo), data);
    SpliceReadsBack(st.resMem[j], lo, data, 0, |data|);
    assert data[0 .. |data|] == data;
    forall x | 0 <= x < |st.resMem[j]| && !(lo <= x < lo + |data|)
      ensures st'.resMem[j][x] == st.resMem[j][x]
    {
      SpliceElement(st.resMem[j], lo, data, x);
    }
  }

  /** Two traces that both saw the original slices and threaded one shared
      workspace agree on their first `k` calls. */
  lemma {:induction false} SerialCallsAgree<T>(job: Job<T>, st: State<T>, calls: seq<Call<T>>, calls': seq<Call<T>>, k: nat)
    requires Placed(job, st) && Scratched(job.sig, st)
    requires SawOriginal(job, st, calls) && SharedScratch(job, st, calls)
    requires SawOriginal(job, st, calls') && SharedScratch(job, st, calls')
    requires k <= |calls| == |calls'|
    ensures forall i :: 0 <= i < k ==> calls[i] == calls'[i]
  {
    if k > 0 {
      SerialCallsAgree(job, st, calls, calls', k - 1);
      var i := k - 1;
      assert Sees(job, st, calls[i], i) && Sees(job, st, calls'[i], i);
      if i > 0 {
        assert calls[i - 1] == calls'[i - 1];
        assert calls[i].iw == job.f(calls[i - 1]).iw && calls'[i].iw == job.f(calls'[i - 1]).iw;
      }
    }
  }

  /** The serial specification determines the evaluation completely: the
      calls made to `f` and the memory left behind. */
  lemma SerialDeterministic<T>(job: Job<T>, mode: Mode, st: State<T>,
                               calls: seq<Call<T>>, cur: State<T>, calls': seq<Call<T>>, cur': State<T>)
    requires Placed(job, st) && Scratched(job.sig, st)
    requires SerialSpec(job, mode, st, calls, cur) && SerialSpec(job, mode, st, calls', cur')
    ensures calls == calls' && cur == cur'
  {
    SerialCallsAgree(job, st, calls, calls', job.n);
    assert calls == calls';
  }
}
