# The map combinator of CasADi, modelled in Dafny

CasADi's `Map` node evaluates one function `f` on `n` instances of its
inputs at once. Every input and output port of the map holds the `n`
instances' nonzeros back to back. Instance `i` of port `j` is the slice of
`nnz(j)` elements that starts at element `i * nnz(j)`. `Map` (the `"serial"`
strategy) runs the instances one after another. All instances share one
workspace of `f`'s size. `MapOmp` (the `"openmp"` strategy) gives every
instance its own block of pointer slots and its own block of each scratch
area, so the instances can run at the same time.

The model follows `casadi/core/function/map.cpp` module by module:

- `Slicing`: pointer slots and their arithmetic. A slot is absent (`Null`),
  designates an element of its port's buffer (`At`), or is what C makes of
  a null pointer advanced by a nonzero distance (`Stray`). It also covers the
  per-instance blocks and why blocks of distinct instances never overlap.
- `Buffers` and `Ports`: one flat buffer per port. They define reading and
  writing one instance's slice, and the buffers once instances
  `0 .. m-1` have left their slices behind (`Ports.Laid`).
- `Kernel`: the mapped function seen only through its calling contract. It
  records nonzeros per port and workspace sizes (`Sig`). A call
  (`Call`) carries the slices and scratch `f` sees, and `f` itself is a
  function from the call it is handed to what it leaves behind.
- `SerialMap`: `Map::evalGen`, `Map::eval`, `Map::eval_sx`, `Map::sp_fwd`
  and `Map::sp_rev` as one loop. The mode `Forward` leaves the input slices
  read-only; `Reverse` also writes back what `f` left in them.
- `ParallelMap`: `MapOmp::eval`, both as written and as evidently intended.
- `MapBase`: `MapBase::create`, the workspace `Map::init` and
  `MapOmp::init` reserve, `get_forward_old`, `get_reverse_old`, and
  `Map::eval`/`MapOmp::eval` dispatch on a node of either strategy.
- `CodeGen`: the exact C lines `Map::generateBody` and
  `MapOmp::generateBody` emit. A reader recovers from them everything they
  were generated from, and the model states what their slot lines assign at
  run time.

Evaluations return the calls made to `f`, in order, together with the memory
left behind. Their contracts are stated against the caller's ORIGINAL
buffers: every call sees exactly its own instance's slices, whatever the
earlier instances wrote.

## Model

| member | source | states |
|---|---|---|
| MapBase.Create | casadi/core/function/map.cpp:32-47 | succeeds exactly for `"serial"` and `"openmp"`, with the requested strategy, name, function and instance count; any other name fails with `Unknown parallelization: ` followed by the name |
| MapBase.CreateRoundTrip | casadi/core/function/map.cpp:37-40 | creating a node under a strategy's own name gives back a node of that strategy: the two names select distinct classes |
| MapBase.ForwardOld | casadi/core/function/map.cpp:129-136 | the forward derivative map never fails, keeps the node's strategy and instance count, and maps `nfwd` forward directions of `f` |
| MapBase.ReverseOld | casadi/core/function/map.cpp:138-145 | the reverse derivative map never fails, keeps the node's strategy and instance count, and maps `nadj` adjoint directions of `f` |
| MapBase.ReserveIsLeast | casadi/core/function/map.cpp:203-212 | the workspace a sequence of `alloc_*` requests reserves covers every request and is the least size that does |
| MapBase.Reserved | casadi/core/function/map.cpp:56-65 | every node reserves at least one call's worth of `f`'s workspace; an `"openmp"` node also reserves `n` calls' worth |
| MapBase.ReservedSizes | casadi/core/function/map.cpp:203-212 | a serial node reserves exactly one call's worth; a parallel node reserves the larger of one call's worth and `n` calls' worth, in each of the four sizes |
| MapBase.SlotsInside | casadi/core/function/map.cpp:162-166 | every instance's input slot lies past the map's own input ports and inside the reserved pointer slots, and so does every output slot |
| MapBase.ReservationSuffices | casadi/core/function/map.cpp:203-212 | a workspace of the reserved sizes is enough scratch for the serial loop, and for a parallel node also one scratch block per instance |
| MapBase.Evaluate | casadi/core/function/map.cpp:147-175 | a serial node runs the complete serial sweep; a parallel node built with OpenMP does too; one built without OpenMP succeeds exactly when no null input is advanced, and then every instance ran once on its own original slices and its own scratch block |
| Slicing.ScaleIsProduct | casadi/core/function/map.cpp:74 | the block offset `Scale(i, nnz)` is the product `i * nnz` |
| Slicing.SliceSlotsKeepNull | casadi/core/function/map.cpp:73-78 | the serial slot rule keeps exactly the absent ports absent and moves every present one by exactly `i * nnz` elements |
| Slicing.UncheckedAgrees | casadi/core/function/map.cpp:164 | the untested slot rule agrees with the tested one exactly when it does not advance a null pointer by a nonzero distance |
| Slicing.BlocksDisjoint | casadi/core/function/map.cpp:162-171 | an element lies in the block of at most one instance |
| Slicing.BlocksCover | casadi/core/function/map.cpp:208-211 | the blocks of instances `0 .. n-1` cover exactly the `n * size` elements reserved for them |
| SerialMap.InstanceSlots | casadi/core/function/map.cpp:73-78 | for caller pointers that are null or point into a buffer, slot `j` is the element `i*nnz[j]` places past `ptrs[j]` when that port is present and null when it is absent |
| SerialMap.Run | casadi/core/function/map.cpp:67-104 | makes exactly `n` calls in instance order; call `i` sees instance `i`'s slices of the ORIGINAL buffers and the scratch the previous call left; the outputs (and in reverse mode the inputs) end up holding every call's slices in order, and nothing else changes |
| SerialMap.SerialOutputs | casadi/core/function/map.cpp:72-80 | after a sweep, instance `i`'s output slices hold exactly what `f` produced from instance `i`'s input slices; a forward sweep leaves the inputs untouched; in reverse mode instance `i`'s input slices hold what `f` left there |
| SerialMap.SerialConcatenation | casadi/core/function/map.cpp:76-79 | after a sweep, a present output port's `n * nnz` elements are the concatenation, in instance order, of `f`'s slices for that port, and every other element is the caller's |
| SerialMap.SerialDeterministic | casadi/core/function/map.cpp:72-80 | the serial specification fixes the calls made to `f` and the memory left behind uniquely |
| ParallelMap.AreasDisjoint | casadi/core/function/map.cpp:162-171 | no two instances, and no two entries of one instance, share a pointer slot or scratch position in the parallel loop |
| ParallelMap.AreaAllocated | casadi/core/function/map.cpp:208-211 | every instance's pointer slots and scratch block lie inside the `n * size` entries `MapOmp::init` reserves |
| ParallelMap.StrayFreeIff | casadi/core/function/map.cpp:163-165 | the untested input rule never yields a pointer into nothing exactly when there is at most one instance or no absent input port has nonzeros |
| ParallelMap.StrayExample | casadi/core/function/map.cpp:164 | two instances and an absent input of two nonzeros: the parallel loop hands instance 1 a non-null slot where the serial loop hands it null |
| ParallelMap.UncheckedIsSerial | casadi/core/function/map.cpp:163-165 | where no untested slot strays, the parallel input slots are the serial ones |
| ParallelMap.UncheckedInstanceSlots | casadi/core/function/map.cpp:163-165 | a present input's slot is the element `i*nnz_in(j)` places past it, as in the serial loop; an absent input's slot stays null only when `i*nnz_in(j)` is 0 and otherwise is a non-null pointer `i*nnz_in(j)` past address 0 |
| ParallelMap.InputSlots | casadi/core/function/map.cpp:162-165 | instance `i`'s input slots exist exactly when they are tested or none of the untested ones strays, and then they are the serial slots |
| ParallelMap.ParallelRun | casadi/core/function/map.cpp:158-173 | succeeds exactly when the slots are tested or no instance's untested input slot strays; then every instance ran once, on its own slices and its own scratch block of the ORIGINAL memory, the outputs hold every call's slices, each scratch block what its instance left, and the inputs are untouched |
| ParallelMap.Eval | casadi/core/function/map.cpp:154-175 | as written: a build with OpenMP runs the complete serial sweep; a build without it runs the per-instance loop, which succeeds exactly when no null input is advanced |
| ParallelMap.EvalIntended | casadi/core/function/map.cpp:154-175 | as evidently intended: never fails; with OpenMP it is a complete parallel sweep with null inputs kept null, without OpenMP a complete serial sweep |
| ParallelMap.ParallelOutputs | casadi/core/function/map.cpp:166-172 | after a parallel sweep, instance `i`'s output slices hold exactly what `f` produced from instance `i`'s input slices |
| ParallelMap.ParallelMatchesSerial | casadi/core/function/map.cpp:154-175 | when `f`'s results do not depend on its scratch, the parallel and the serial sweeps leave the same input and output buffers |
| CodeGen.ValueDecimal | casadi/core/function/map.cpp:116 | a number streamed in decimal reads back as that number |
| CodeGen.MatchRender | casadi/core/function/map.cpp:118-119 | a line that prints numbers between fixed texts, none starting with a digit, reads back as those numbers |
| CodeGen.ParseSlotLinesRound | casadi/core/function/map.cpp:117-124 | the per-port slot lines read back as the ports' nonzero counts, each line naming its own port |
| CodeGen.SerialBodyRound | casadi/core/function/map.cpp:110-127 | the serial body's lines determine the number of ports, every nonzero count, `n` and the text of the call |
| CodeGen.OmpBodyRound | casadi/core/function/map.cpp:181-201 | the parallel body's lines determine all of `f`'s signature (nonzero counts and the four workspace sizes), `n` and the text of the call |
| CodeGen.SerialSlotLines | casadi/core/function/map.cpp:117-120 | line `4 + j` of the serial body is input port `j`'s null-tested slot line with port `j`'s nonzero count |
| CodeGen.TestedIsSerial | casadi/core/function/map.cpp:118-119 | running a tested slot line assigns the serial evaluator's slot |
| CodeGen.OmpArgSlotLines | casadi/core/function/map.cpp:189-191 | line `4 + j` of the parallel body is input port `j`'s UNTESTED slot line with port `j`'s nonzero count |
| CodeGen.UntestedIsUnchecked | casadi/core/function/map.cpp:190 | running an untested slot line assigns the parallel evaluator's unchecked slot |
| CodeGen.OmpResSlotLines | casadi/core/function/map.cpp:193-196 | line `5 + n_in + j` of the parallel body is output port `j`'s null-tested slot line with port `j`'s nonzero count |
| CodeGen.LayoutReactions | casadi/core/function/map.cpp:125 | the serial body's call line `if (<call>) return 1;` returns on a nonzero status, and the parallel body's call line `<call>;` (line 199) discards it |
| CodeGen.RunCalls | casadi/core/function/map.cpp:114-126 | a loop whose call line returns on failure stops after the first nonzero status and fails exactly when some call reports one; a loop that discards the status makes all `n` calls and never fails |
| CodeGen.SerialStatus | casadi/core/function/map.cpp:125 | the generated serial loop, run through its own call line, stops after the first call that reports a nonzero status and then fails; it fails exactly when some call reports one, and otherwise makes all `n` calls |
| CodeGen.OmpStatus | casadi/core/function/map.cpp:199 | the generated parallel loop, run through its own call line, makes all `n` calls whatever they report and never fails |

## Left out

- Concurrency: the OpenMP pragma is not modelled as threads. The parallel loop runs its instances in order. Its contract shows that the order is immaterial: every instance reads only the original memory and writes only its own blocks (`ParallelMap.ParallelSpec`, `ParallelMap.AreasDisjoint`).
- `MapBase::MapBase`, the destructors and `construct(opts)`: option handling and node bookkeeping are left out; a node is its name, strategy, function and instance count.
- `alloc_arg`, `alloc_res`, `alloc_iw` and `alloc_w` live outside this file. They are modelled as raising a reserved size to at least the request, never lowering it.
- `parallelization()` is declared in `map.hpp`, which is not part of this model. It is taken to report the name the node was created under (`MapBase.Identifier`).
- `f_.forward(nfwd)` and `f_.reverse(nadj)`: differentiation is not modelled. The derivative is a symbolic `Fn` value.
- `generateDeclarations` (`addDependency`) is left out. It registers `f` with the code generator and emits no body text.
- The text `g(f_, ...)` of the call to `f` in generated code comes from the code generator. The model takes it as a string parameter.
- Element types (`double`, `SXElem`, `bvec_t`) are a type parameter. The element values `f` computes are opaque.
- Integer widths, throughout the model: `n`, the nonzero counts and the workspace sizes are natural numbers. A negative `int n`, the `size_t` conversions and overflow of `i*nnz` or `sz*n` are not modelled. This holds for `MapBase.Create`, `SerialMap.Run`, `ParallelMap.ParallelRun`, `MapBase.Evaluate` and the generated text, which never prints a negative `n`.
- Aliasing between ports: every input and output port has a buffer of its own. The model cannot express two ports that overlap, or an output that is also an input (in-place use). `map.cpp` takes raw pointers (lines 68, 74, 77, 164, 168) and does not forbid this. `SerialMap.SawOriginal`, which says each call sees the caller's original slices, and `ParallelMap.ParallelSpec` depend on this assumption.
- The map's own pointer vectors: the slots `arg1`/`res1` at `arg+n_in`/`res+n_out` (lines 70-71, 93-94) and `arg_i`/`res_i` (lines 162, 166) are not part of the modelled memory. The map's writes to them are the slot lists the model computes. `f`'s use of the slots past its own ports as pointer scratch is not modelled. `SerialMap.Run`'s "nothing else changes" refers to the element buffers and the scratch areas only.
- `MapBase.ForwardOld`: `df.map(name, parallelization(), n_, opts)` at line 135 is taken to be `MapBase::create` under the node's own strategy name. `Function::map` lies outside `map.cpp`. The promise that the result never fails and keeps the strategy and instance count rests on that reading: no further check on `n` and no shortcut for a trivial map.
- `MapBase.ReverseOld`: `df.map(...)` at line 144 is taken to be `MapBase::create`, as for `MapBase.ForwardOld`, and the promise rests on the same reading.
- The status of `f` in numeric and sparsity evaluation (lines 79, 102, 172) is not modelled. The source ignores it there. Only the generated bodies' handling of it is modelled (`CodeGen.RunCalls`).
- Advancing a null pointer by a nonzero distance is undefined behaviour in C. `ParallelMap.ParallelRun` reports it as a failure, without modelling what a machine would do.
- The `mem` argument of `eval` is ignored by the source and is not modelled.

## Findings

| source | as written | input that shows it | evidently intended | confidence | as-written member | corrected member |
|---|---|---|---|---|---|---|
| casadi/core/function/map.cpp:164 | the parallel loop sets `arg_i[j] = arg[j]+i*nnz_in(j)` without testing `arg[j]` for null | `n = 2`, one input port with `nnz_in = 2` passed as null: instance 1 gets the non-null pointer `0 + 2` | test for null as the serial loop (line 74) and the output ports (line 168) do | high, not executed | ParallelMap.StrayExample | ParallelMap.EvalIntended |
| casadi/core/function/map.cpp:155-157 | a build WITH OpenMP runs the serial loop, and the per-instance loop runs only when the pragma is ignored | any build with OpenMP: `MapOmp::eval` makes the shared-workspace serial sweep | the per-instance loop under OpenMP, the serial loop otherwise | medium, not executed | ParallelMap.Eval | ParallelMap.EvalIntended |
