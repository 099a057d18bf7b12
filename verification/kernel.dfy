/**
 * The wrapped function `f`, seen only through its calling contract: its
 * per-port nonzero counts, its workspace sizes, and what one call does to the
 * slices and scratch it is handed.
 */
module Kernel {
  import opened Results

  /** Arity, nonzeros per port and workspace requirements of `f`. */
  datatype Sig = Sig(nnzIn: seq<nat>, nnzOut: seq<nat>,
                     szArg: nat, szRes: nat, szIw: nat, szW: nat)
  {
    function NIn(): nat { |nnzIn| }
    function NOut(): nat { |nnzOut| }
  }

  /** What one call of `f` sees, or leaves behind: the contents of every input
      and output slice (`None` for an absent port) and its two scratch areas. */
  datatype Call<T> = Call(arg: seq<Option<seq<T>>>, res: seq<Option<seq<T>>>,
                          iw: seq<int>, w: seq<T>)

  /** One slice per port, each present one with that port's nonzero count. */
  predicate SlicesShaped<T>(slices: seq<Option<seq<T>>>, nnz: seq<nat>)
  {
    |slices| == |nnz|
    && forall j :: 0 <= j < |slices| && slices[j].Some? ==> |slices[j].value| == nnz[j]
  }

  /** A call view that matches `f`'s signature. */
  predicate Shaped<T>(sig: Sig, c: Call<T>)
  {
    SlicesShaped(c.arg, sig.nnzIn) && SlicesShaped(c.res, sig.nnzOut)
    && |c.iw| == sig.szIw && |c.w| == sig.szW
  }

  /** Two slice lists with the same absent ports. */
  predicate SamePattern<T>(a: seq<Option<seq<T>>>, b: seq<Option<seq<T>>>)
  {
    |a| == |b| && forall j :: 0 <= j < |a| ==> (a[j].None? <==> b[j].None?)
  }

  /** `f` keeps to its signature: a well-shaped call leaves well-shaped slices
      and scratch behind and never makes an absent port present or back. */
  ghost predicate Conforms<T(!new)>(sig: Sig, f: Call<T> -> Call<T>)
  {
    forall c {:trigger f(c)} :: Shaped(sig, c) ==>
      Shaped(sig, f(c)) && SamePattern(c.arg, f(c).arg) && SamePattern(c.res, f(c).res)
  }

  /** `f` uses its workspace as scratch only: what it writes to its slices does
      not depend on what the scratch held before the call. */
  ghost predicate ScratchOblivious<T(!new)>(sig: Sig, f: Call<T> -> Call<T>)
  {
    forall arg, res, iw, w, iw', w' {:trigger f(Call(arg, res, iw, w)), f(Call(arg, res, iw', w'))} ::
      Shaped(sig, Call(arg, res, iw, w)) && Shaped(sig, Call(arg, res, iw', w')) ==>
        f(Call(arg, res, iw, w)).arg == f(Call(arg, res, iw', w')).arg
        && f(Call(arg, res, iw, w)).res == f(Call(arg, res, iw', w')).res
  }
}
