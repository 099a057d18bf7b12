/**
 * Creation of a map, the workspace it reserves, and the derivative maps it
 * builds: `MapBase::create`, `Map::init`, `MapOmp::init`,
 * `Map::get_forward_old` and `Map::get_reverse_old`.
 */
module MapBase {
  import opened Results
  import opened Slicing
  import opened Kernel
  import SerialMap
  import ParallelMap

  /** How the instances are evaluated. */
  datatype Strategy = Serial | OpenMP

  /** The name a strategy is requested by, and reported under. */
  function Identifier(s: Strategy): string
  {
    match s
    case Serial => "serial"
    case OpenMP => "openmp"
  }

  /** The function being mapped, up to what a map needs to know of it: a
      given function, or a derivative of one with some number of directions. */
  datatype Fn = Given(id: nat) | ForwardOf(base: Fn, nfwd: nat) | ReverseOf(base: Fn, nadj: nat)

  /** A map node: its name, strategy, the mapped function and the number of
      instances. */
  datatype MapFn = MapFn(name: string, strategy: Strategy, f: Fn, n: nat)

  /** Builds a map node of the strategy named `parallelization`; any other
      name is an error. */
  function Create(name: string, parallelization: string, f: Fn, n: nat): (r: Result<MapFn>)
    ensures r.Success? <==> parallelization in {"serial", "openmp"}
    ensures r.Success? ==> Identifier(r.value.strategy) == parallelization
    ensures r.Success? ==> r.value.name == name && r.value.f == f && r.value.n == n
    ensures r.Failure? ==> r.error == "Unknown parallelization: " + parallelization
  {
    if parallelization == "serial" then Success(MapFn(name, Serial, f, n))
    else if parallelization == "openmp" then Success(MapFn(name, OpenMP, f, n))
    else Failure("Unknown parallelization: " + parallelization)
  }

  /** Re-creating a map under its own strategy's name gives back that
      strategy: the names the two strategies are known by are distinct. */
  lemma CreateRoundTrip(name: string, s: Strategy, f: Fn, n: nat)
    ensures Create(name, Identifier(s), f, n) == Success(MapFn(name, s, f, n))
  {
  }

  /** The forward derivative map: the same strategy and instance count,
      mapping `nfwd` forward directions of `f`. It cannot fail. */
  function ForwardOld(m: MapFn, name: string, nfwd: nat): (r: Result<MapFn>)
    ensures r == Success(MapFn(name, m.strategy, ForwardOf(m.f, nfwd), m.n))
  {
    CreateRoundTrip(name, m.strategy, ForwardOf(m.f, nfwd), m.n);
    Create(name, Identifier(m.strategy), ForwardOf(m.f, nfwd), m.n)
  }

  /** The reverse derivative map: the same strategy and instance count,
      mapping `nadj` adjoint directions of `f`. It cannot fail. */
  function ReverseOld(m: MapFn, name: string, nadj: nat): (r: Result<MapFn>)
    ensures r == Success(MapFn(name, m.strategy, ReverseOf(m.f, nadj), m.n))
  {
    CreateRoundTrip(name, m.strategy, ReverseOf(m.f, nadj), m.n);
    Create(name, Identifier(m.strategy), ReverseOf(m.f, nadj), m.n)
  }

  /** Sizes of the four work vectors: pointer slots for inputs and outputs,
      integer scratch and element scratch. */
  datatype Work = Work(arg: nat, res: nat, iw: nat, w: nat)

  /** What one call of `f` needs. */
  function Need(sig: Sig): Work
  {
    Work(sig.szArg, sig.szRes, sig.szIw, sig.szW)
  }

  /** `n` calls' worth, side by side. */
  function Times(n: nat, k: Work): Work
  {
    Work(Scale(n, k.arg), Scale(n, k.res), Scale(n, k.iw), Scale(n, k.w))
  }

  /** The requests `init` makes, in order: `Map::init` asks for one call's
      worth; `MapOmp::init` runs `Map::init` first and then asks for `n`
      calls' worth. */
  function Requests(s: Strategy, sig: Sig, n: nat): (r: seq<Work>)
    ensures |r| >= 1 && r[0] == Need(sig)
  {
    match s
    case Serial => [Need(sig)]
    case OpenMP => [Need(sig), Times(n, Need(sig))]
  }

  function Max(a: nat, b: nat): nat
  {
    if a < b then b else a
  }

  /** The temporary work a node reserves: each request raises a size to at
      least what it asks for, and never lowers it. */
  function Reserve(reqs: seq<Work>): (r: Work)
    decreases |reqs|
  {
    if |reqs| == 0 then Work(0, 0, 0, 0)
    else
      var prev := Reserve(reqs[..|reqs| - 1]);
      var k := reqs[|reqs| - 1];
      Work(Max(prev.arg, k.arg), Max(prev.res, k.res), Max(prev.iw, k.iw), Max(prev.w, k.w))
  }

  /** Covers(a, k): `a` is at least `k` in every size. */
  predicate Covers(a: Work, k: Work)
  {
    a.arg >= k.arg && a.res >= k.res && a.iw >= k.iw && a.w >= k.w
  }

  /** The reservation covers every request, and is the least that does:
      any sizes that cover every request cover the reservation. */
  lemma {:induction false} ReserveIsLeast(reqs: seq<Work>)
    ensures forall i :: 0 <= i < |reqs| ==> Covers(Reserve(reqs), reqs[i])
    ensures forall a :: (forall i :: 0 <= i < |reqs| ==> Covers(a, reqs[i])) ==> Covers(a, Reserve(reqs))
    decreases |reqs|
  {
    if |reqs| > 0 {
      var init := reqs[..|reqs| - 1];
      ReserveIsLeast(init);
      forall i | 0 <= i < |reqs|
        ensures Covers(Reserve(reqs), reqs[i])
      {
        if i < |init| {
          assert init[i] == reqs[i];
        }
      }
      forall a | forall i :: 0 <= i < |reqs| ==> Covers(a, reqs[i])
        ensures Covers(a, Reserve(reqs))
      {
        forall i | 0 <= i < |init|
          ensures Covers(a, init[i])
        {
          assert init[i] == reqs[i];
        }
        assert Covers(a, Reserve(init));
        assert Covers(a, reqs[|reqs| - 1]);
      }
    }
  }

  /** What a node of strategy `s` reserves for mapping `f` over `n`
      instances: enough for the serial loop, which both strategies may run,
      and for a parallel node also a block per instance. */
  function Reserved(s: Strategy, sig: Sig, n: nat): (r: Work)
    ensures Covers(r, Need(sig))
    ensures s == OpenMP ==> Covers(r, Times(n, Need(sig)))
  {
    ReserveIsLeast(Requests(s, sig, n));
    assert s == OpenMP ==> Requests(s, sig, n)[1] == Times(n, Need(sig));
    Reserve(Requests(s, sig, n))
  }

  /** A serial node reserves exactly one call's worth; a parallel node the
      larger of one call's worth and `n` calls' worth. */
  lemma ReservedSizes(s: Strategy, sig: Sig, n: nat)
    ensures s == Serial ==> Reserved(s, sig, n) == Need(sig)
    ensures s == OpenMP ==>
              Reserved(s, sig, n) ==
                Work(Max(sig.szArg, Scale(n, sig.szArg)), Max(sig.szRes, Scale(n, sig.szRes)),
                     Max(sig.szIw, Scale(n, sig.szIw)), Max(sig.szW, Scale(n, sig.szW)))
  {
    var one := [Need(sig)];
    assert one[..0] == [];
    assert Reserve(one) == Need(sig);
    if s == OpenMP {
      assert Requests(s, sig, n)[..1] == one;
    }
  }

  /** Position of pointer slot `k` of instance `i` in the map's own pointer
      vector, which starts with the map's `ports` ports: the serial loop puts
      every instance's slots at the same place, the parallel loop gives
      every instance its own block of `size` slots. */
  function SlotPosition(s: Strategy, ports: nat, size: nat, i: nat, k: nat): int
  {
    match s
    case Serial => ports + k
    case OpenMP => ParallelMap.AreaIndex(ports, size, i, k)
  }

  /** Every instance's input slots lie past the map's own input ports and
      inside the reservation, and so do its output slots (no two instances
      share one under the parallel strategy: `ParallelMap.AreasDisjoint`). */
  lemma SlotsInside(s: Strategy, sig: Sig, n: nat, i: nat, k: nat)
    requires i < n
    ensures k < sig.szArg ==>
      sig.NIn() <= SlotPosition(s, sig.NIn(), sig.szArg, i, k) < sig.NIn() + Reserved(s, sig, n).arg
    ensures k < sig.szRes ==>
      sig.NOut() <= SlotPosition(s, sig.NOut(), sig.szRes, i, k) < sig.NOut() + Reserved(s, sig, n).res
  {
    if s == OpenMP {
      if k < sig.szArg {
        ParallelMap.AreaAllocated(sig.NIn(), sig.szArg, n, i, k);
      }
      if k < sig.szRes {
        ParallelMap.AreaAllocated(sig.NOut(), sig.szRes, n, i, k);
      }
    }
  }

  /** A workspace of the reserved sizes is enough for the evaluation loop
      of the node's strategy: every node's for the serial loop, and a
      parallel node's also for one scratch block per instance. */
  lemma ReservationSuffices<T>(s: Strategy, job: SerialMap.Job<T>, st: SerialMap.State<T>)
    requires |st.iw| >= Reserved(s, job.sig, job.n).iw && |st.w| >= Reserved(s, job.sig, job.n).w
    ensures SerialMap.Scratched(job.sig, st)
    ensures s == OpenMP ==> ParallelMap.Provisioned(job, st)
  {
  }

  /**
   * Numeric evaluation of a node (`Map::eval`, `MapOmp::eval`) in a
   * workspace of the sizes its `init` reserved. A serial node always runs
   * the serial loop; a parallel node runs what its build selects.
   */
  method Evaluate<T(!new)>(s: Strategy, job: SerialMap.Job<T>, st: SerialMap.State<T>, withOpenMP: bool)
    returns (r: Result<ParallelMap.Outcome<T>>)
    requires SerialMap.Placed(job, st) && Conforms(job.sig, job.f)
    requires |st.iw| >= Reserved(s, job.sig, job.n).iw && |st.w| >= Reserved(s, job.sig, job.n).w
    ensures s == Serial ==> r.Success? && SerialMap.SerialSpec(job, SerialMap.Forward, st, r.value.calls, r.value.mem)
    ensures s == OpenMP && withOpenMP ==> r.Success? && SerialMap.SerialSpec(job, SerialMap.Forward, st, r.value.calls, r.value.mem)
    ensures s == OpenMP && !withOpenMP ==> (r.Success? <==> ParallelMap.StrayFree(job))
    ensures s == OpenMP && !withOpenMP && r.Success? ==>
      ParallelMap.Provisioned(job, st) && ParallelMap.ParallelSpec(job, st, r.value.calls, r.value.mem)
  {
    ReservationSuffices(s, job, st);
    if s == Serial {
      var calls, st' := SerialMap.Run(job, SerialMap.Forward, st);
      r := Success(ParallelMap.Outcome(calls, st'));
    } else {
      r := ParallelMap.Eval(job, st, withOpenMP);
    }
  }
}
