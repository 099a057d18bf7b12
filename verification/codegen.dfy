/**
 * The C text the two strategies emit for the body of a generated map
 * function (`Map::generateBody`, `MapOmp::generateBody`): the exact lines,
 * a reader that recovers from them everything they were generated from,
 * and what the slot-computing lines assign when the text runs.
 */
module CodeGen {
  import opened Results
  import opened Slicing
  import opened Kernel

  // ---- Decimal numerals ----

  predicate IsDigit(c: char)
  {
    '0' <= c <= '9'
  }

  predicate AllDigits(s: string)
  {
    forall k :: 0 <= k < |s| ==> IsDigit(s[k])
  }

  function Digit(d: nat): (c: char)
    requires d < 10
    ensures IsDigit(c)
  {
    ('0' as int + d) as char
  }

  function DigitValue(c: char): nat
    requires IsDigit(c)
  {
    c as int - '0' as int
  }

  /** `n` in decimal, as a C++ stream prints a non-negative integer. */
  function Decimal(n: nat): (r: string)
    ensures |r| >= 1 && AllDigits(r)
    decreases n
  {
    if n < 10 then [Digit(n)] else Decimal(n / 10) + [Digit(n % 10)]
  }

  /** The number a string of digits denotes. */
  function Value(s: string): nat
    requires AllDigits(s)
    decreases |s|
  {
    if |s| == 0 then 0 else Value(s[..|s| - 1]) * 10 + DigitValue(s[|s| - 1])
  }

  /** Reading a printed number back gives the number. */
  lemma {:induction false} ValueDecimal(n: nat)
    ensures Value(Decimal(n)) == n
    decreases n
  {
    if n >= 10 {
      var s := Decimal(n);
      assert s[..|s| - 1] == Decimal(n / 10);
      ValueDecimal(n / 10);
    }
  }

  /** Length of the run of digits `s` starts with. */
  function DigitRun(s: string): (r: nat)
    ensures r <= |s| && AllDigits(s[..r])
    ensures r < |s| ==> !IsDigit(s[r])
    decreases |s|
  {
    if |s| == 0 || !IsDigit(s[0]) then 0
    else
      var k := DigitRun(s[1..]);
      assert s[..1 + k] == [s[0]] + s[1..][..k];
      1 + k
  }

  /** A run of digits followed by a non-digit (or nothing) is read whole. */
  lemma {:induction false} DigitRunAppend(d: string, rest: string)
    requires AllDigits(d) && (rest == [] || !IsDigit(rest[0]))
    ensures DigitRun(d + rest) == |d|
    decreases |d|
  {
    if |d| > 0 {
      assert (d + rest)[1..] == d[1..] + rest;
      DigitRunAppend(d[1..], rest);
    }
  }

  // ---- Line templates ----

  /** A generated line's shape: fixed text `head`, then for each `k` a number
      printed in decimal followed by the fixed text `tails[k]`. */
  datatype Template = Template(head: string, tails: seq<string>)

  /** How many numbers a template prints. */
  function Holes(t: Template): nat
  {
    |t.tails|
  }

  /** The numbers `nums`, each followed by its fixed text. */
  function Fill(tails: seq<string>, nums: seq<nat>): string
    requires |nums| == |tails|
    decreases |tails|
  {
    if |tails| == 0 then "" else Decimal(nums[0]) + tails[0] + Fill(tails[1..], nums[1..])
  }

  /** The line `t` prints for the numbers `nums`, in order. */
  function Render(t: Template, nums: seq<nat>): string
    requires |nums| == Holes(t)
  {
    t.head + Fill(t.tails, nums)
  }

  /** Every number is followed by fixed text that does not start with a
      digit, so a reader knows where the number ends. */
  predicate Separated(t: Template)
  {
    forall k :: 0 <= k < |t.tails| ==> |t.tails[k]| > 0 && !IsDigit(t.tails[k][0])
  }

  /** The numbers `s` prints as numbers each followed by its fixed text. */
  function Unfill(tails: seq<string>, s: string): (r: Option<seq<nat>>)
    ensures r.Some? ==> |r.value| == |tails|
    decreases |tails|
  {
    if |tails| == 0 then (if |s| == 0 then Some([]) else None)
    else
      var k := DigitRun(s);
      var rest := s[k..];
      var x := tails[0];
      if k == 0 || |rest| < |x| || rest[..|x|] != x then None
      else match Unfill(tails[1..], rest[|x|..])
        case None => None
        case Some(ns) => Some([Value(s[..k])] + ns)
  }

  /** The numbers `s` prints through template `t`, if it is such a line. */
  function Match(t: Template, s: string): (r: Option<seq<nat>>)
    ensures r.Some? ==> |r.value| == Holes(t)
  {
    if |t.head| <= |s| && s[..|t.head|] == t.head then Unfill(t.tails, s[|t.head|..]) else None
  }

  /** Reading filled-in text gives back the numbers. */
  lemma {:induction false} UnfillFill(tails: seq<string>, nums: seq<nat>)
    requires |nums| == |tails|
    requires forall k :: 0 <= k < |tails| ==> |tails[k]| > 0 && !IsDigit(tails[k][0])
    ensures Unfill(tails, Fill(tails, nums)) == Some(nums)
    decreases |tails|
  {
    if |tails| > 0 {
      var d := Decimal(nums[0]);
      var rest := tails[0] + Fill(tails[1..], nums[1..]);
      var s := Fill(tails, nums);
      assert s == d + rest;
      DigitRunAppend(d, rest);
      var k := DigitRun(s);
      assert k == |d| > 0;
      assert s[..k] == d && s[k..] == rest;
      assert rest[..|tails[0]|] == tails[0];
      assert rest[|tails[0]|..] == Fill(tails[1..], nums[1..]);
      ValueDecimal(nums[0]);
      UnfillFill(tails[1..], nums[1..]);
      assert Unfill(tails, s) == Some([Value(d)] + nums[1..]);
      assert [nums[0]] + nums[1..] == nums;
    }
  }

  /** Reading a rendered line gives back the numbers it was rendered from. */
  lemma MatchRender(t: Template, nums: seq<nat>)
    requires Separated(t) && |nums| == Holes(t)
    ensures Match(t, Render(t, nums)) == Some(nums)
  {
    var s := Render(t, nums);
    assert s[..|t.head|] == t.head;
    assert s[|t.head|..] == Fill(t.tails, nums);
    UnfillFill(t.tails, nums);
  }

  // ---- Per-port slot lines ----

  /** The numbers of port `j`'s slot line: the port index wherever the line
      names the port, then its nonzero count. */
  function SlotNums(t: Template, j: nat, nnz: nat): (r: seq<nat>)
    requires Holes(t) >= 1
    ensures |r| == Holes(t) && NamesPort(r, j) && r[|r| - 1] == nnz
  {
    seq(Holes(t) - 1, _ => j) + [nnz]
  }

  /** Every number of `ns` but the last is the port index `j`. */
  predicate NamesPort(ns: seq<nat>, j: nat)
  {
    forall k :: 0 <= k < |ns| - 1 ==> ns[k] == j
  }

  lemma SlotNumsThree(t: Template, j: nat, nnz: nat)
    requires Holes(t) == 3
    ensures SlotNums(t, j, nnz) == [j, j, nnz]
  {
  }

  lemma SlotNumsFour(t: Template, j: nat, nnz: nat)
    requires Holes(t) == 4
    ensures SlotNums(t, j, nnz) == [j, j, j, nnz]
  {
  }

  /** One slot line per port, in port order. */
  function SlotLines(t: Template, nnz: seq<nat>): (r: seq<string>)
    requires Holes(t) >= 1
    ensures |r| == |nnz|
  {
    seq(|nnz|, j requires 0 <= j < |nnz| => Render(t, SlotNums(t, j, nnz[j])))
  }

  /** The nonzero counts a run of slot lines was generated from; None unless
      line `j` is template `t` naming port `j`. */
  function ParseSlotLines(t: Template, lines: seq<string>): (r: Option<seq<nat>>)
    requires Holes(t) >= 1
    ensures r.Some? ==> |r.value| == |lines|
    decreases |lines|
  {
    if |lines| == 0 then Some([])
    else
      var j := |lines| - 1;
      var prev := ParseSlotLines(t, lines[..j]);
      var m := Match(t, lines[j]);
      if prev.Some? && m.Some? && NamesPort(m.value, j) then Some(prev.value + [m.value[Holes(t) - 1]]) else None
  }

  /** One more line naming the next port extends what a run reads as. */
  lemma ParseSlotLinesSnoc(t: Template, lines: seq<string>, line: string, prev: seq<nat>, ns: seq<nat>)
    requires Holes(t) >= 1 && ParseSlotLines(t, lines) == Some(prev)
    requires Match(t, line) == Some(ns) && NamesPort(ns, |lines|)
    ensures ParseSlotLines(t, lines + [line]) == Some(prev + [ns[Holes(t) - 1]])
  {
    assert (lines + [line])[..|lines|] == lines;
  }

  /** The slot lines of all ports are those of all but the last, then the
      last port's. */
  lemma SlotLinesSnoc(t: Template, nnz: seq<nat>)
    requires Holes(t) >= 1 && |nnz| > 0
    ensures SlotLines(t, nnz)
         == SlotLines(t, nnz[..|nnz| - 1]) + [Render(t, SlotNums(t, |nnz| - 1, nnz[|nnz| - 1]))]
  {
  }

  /** Reading a run of generated slot lines gives back the nonzero counts. */
  lemma {:induction false} ParseSlotLinesRound(t: Template, nnz: seq<nat>)
    requires Separated(t) && Holes(t) >= 1
    ensures ParseSlotLines(t, SlotLines(t, nnz)) == Some(nnz)
    decreases |nnz|
  {
    if |nnz| > 0 {
      var j := |nnz| - 1;
      var ns := SlotNums(t, j, nnz[j]);
      SlotLinesSnoc(t, nnz);
      ParseSlotLinesRound(t, nnz[..j]);
      MatchRender(t, ns);
      ParseSlotLinesSnoc(t, SlotLines(t, nnz[..j]), Render(t, ns), nnz[..j], ns);
      assert nnz[..j] + [nnz[j]] == nnz;
    }
  }

  // ---- Fixed text around a call ----

  /** The text between a known prefix and suffix. */
  function Between(line: string, pre: string, post: string): (r: Option<string>)
    ensures r.Some? ==> line == pre + r.value + post
  {
    if |pre| + |post| <= |line| && line[..|pre|] == pre && line[|line| - |post|..] == post
    then
      var mid := line[|pre| .. |line| - |post|];
      assert line == line[..|pre|] + mid + line[|line| - |post|..];
      Some(mid)
    else None
  }

  lemma BetweenRound(pre: string, mid: string, post: string)
    ensures Between(pre + mid + post, pre, post) == Some(mid)
  {
    var line := pre + mid + post;
    assert line[..|pre|] == pre;
    assert line[|line| - |post|..] == post;
    assert line[|pre| .. |line| - |post|] == mid;
  }

  /** The single number a one-number line prints. */
  function One(t: Template, line: string): (r: Option<nat>)
  {
    var m := Match(t, line);
    if m.Some? && |m.value| == 1 then Some(m.value[0]) else None
  }

  /** The two numbers a two-number line prints. */
  function Two(t: Template, line: string): (r: Option<(nat, nat)>)
  {
    var m := Match(t, line);
    if m.Some? && |m.value| == 2 then Some((m.value[0], m.value[1])) else None
  }

  lemma OneRound(t: Template, x: nat)
    requires Separated(t) && Holes(t) == 1
    ensures One(t, Render(t, [x])) == Some(x)
  {
    MatchRender(t, [x]);
  }

  lemma TwoRound(t: Template, x: nat, y: nat)
    requires Separated(t) && Holes(t) == 2
    ensures Two(t, Render(t, [x, y])) == Some((x, y))
  {
    MatchRender(t, [x, y]);
  }

  // ---- The serial body ----

  /** What the serial body is generated from: `f`'s nonzero counts, the
      number of instances and the text of a call of `f` on `arg1`, `res1`,
      `iw`, `w`. */
  datatype SerialText = SerialText(nnzIn: seq<nat>, nnzOut: seq<nat>, n: nat, call: string)

  /** The shapes of the serial body's lines. */
  datatype SerialForms = SerialForms(args: Template, ress: Template, declare: string, loop: Template,
                                     argSlot: Template, resSlot: Template,
                                     callPre: string, callPost: string, close: string)
  {
    predicate Counted()
    {
      Holes(args) == 1 && Holes(ress) == 1 && Holes(loop) == 1 && Holes(argSlot) == 4 && Holes(resSlot) == 4
    }

    predicate Readable()
    {
      Counted() && Separated(args) && Separated(ress) && Separated(loop)
      && Separated(argSlot) && Separated(resSlot)
    }
  }

  /** `Map::generateBody`'s line shapes: a call that reports failure makes
      the generated function return 1 at once. */
  const SerialLayout := SerialForms(
    Template("  const real_t** arg1 = arg+", [";"]),
    Template("  real_t** res1 = res+", [";"]),
    "  int i;",
    Template("  for (i=0; i<", ["; ++i) {"]),
    Template("    arg1[", ["] = arg[", "]? arg[", "]+i*", " : 0;"]),
    Template("    res1[", ["] = res[", "]? res[", "]+i*", " : 0;"]),
    "    if (", ") return 1;",
    "  }")

  lemma SerialLayoutReadable()
    ensures SerialLayout.Readable()
  {
  }

  /** The serial body in the line shapes `F`. */
  function SerialLines(F: SerialForms, src: SerialText): (r: seq<string>)
    requires F.Counted()
    ensures |r| == 6 + |src.nnzIn| + |src.nnzOut|
  {
    [Render(F.args, [|src.nnzIn|]), Render(F.ress, [|src.nnzOut|]), F.declare, Render(F.loop, [src.n])]
    + SlotLines(F.argSlot, src.nnzIn) + SlotLines(F.resSlot, src.nnzOut)
    + [F.callPre + src.call + F.callPost, F.close]
  }

  /** Recovers what a body in the line shapes `F` was generated from; None
      for any text that is not such a body. */
  function ParseSerialLines(F: SerialForms, lines: seq<string>): (r: Option<SerialText>)
    requires F.Counted()
  {
    if |lines| < 6 || lines[2] != F.declare || lines[|lines| - 1] != F.close then None
    else
      var nIn, nOut, n := One(F.args, lines[0]), One(F.ress, lines[1]), One(F.loop, lines[3]);
      if nIn.None? || nOut.None? || n.None? || |lines| != 6 + nIn.value + nOut.value then None
      else
        var a := 4 + nIn.value;
        var b := a + nOut.value;
        var ins := ParseSlotLines(F.argSlot, lines[4 .. a]);
        var outs := ParseSlotLines(F.resSlot, lines[a .. b]);
        var call := Between(lines[b], F.callPre, F.callPost);
        if ins.None? || outs.None? || call.None? then None
        else Some(SerialText(ins.value, outs.value, n.value, call.value))
  }

  /** Where each part of a serial body sits. */
  lemma SerialLinesAt(F: SerialForms, src: SerialText)
    requires F.Counted()
    ensures var lines, a := SerialLines(F, src), 4 + |src.nnzIn|;
      && lines[0] == Render(F.args, [|src.nnzIn|]) && lines[1] == Render(F.ress, [|src.nnzOut|])
      && lines[2] == F.declare && lines[3] == Render(F.loop, [src.n])
      && lines[4 .. a] == SlotLines(F.argSlot, src.nnzIn)
      && lines[a .. a + |src.nnzOut|] == SlotLines(F.resSlot, src.nnzOut)
      && lines[a + |src.nnzOut|] == F.callPre + src.call + F.callPost
      && lines[|lines| - 1] == F.close
  {
  }

  /** Reading a serial body back gives what it was generated from. */
  lemma SerialLinesRound(F: SerialForms, src: SerialText)
    requires F.Readable()
    ensures ParseSerialLines(F, SerialLines(F, src)) == Some(src)
  {
    SerialLinesAt(F, src);
    OneRound(F.args, |src.nnzIn|);
    OneRound(F.ress, |src.nnzOut|);
    OneRound(F.loop, src.n);
    ParseSlotLinesRound(F.argSlot, src.nnzIn);
    ParseSlotLinesRound(F.resSlot, src.nnzOut);
    BetweenRound(F.callPre, src.call, F.callPost);
  }

  /** The lines `Map::generateBody` emits. */
  function SerialBody(src: SerialText): (r: seq<string>)
    ensures |r| == 6 + |src.nnzIn| + |src.nnzOut|
  {
    SerialLines(SerialLayout, src)
  }

  /** Recovers what a serial body was generated from. */
  function ParseSerialBody(lines: seq<string>): Option<SerialText>
  {
    ParseSerialLines(SerialLayout, lines)
  }

  /** Reading the serial body back gives what it was generated from. */
  lemma SerialBodyRound(src: SerialText)
    ensures ParseSerialBody(SerialBody(src)) == Some(src)
  {
    SerialLayoutReadable();
    SerialLinesRound(SerialLayout, src);
  }

  // ---- The parallel body ----

  /** What the parallel body is generated from: all of `f`'s signature, the
      number of instances and the text of a call of `f` on `arg_i`, `res_i`,
      `iw_i`, `w_i`. */
  datatype OmpText = OmpText(sig: Sig, n: nat, call: string)

  /** The shapes of the parallel body's lines. */
  datatype OmpForms = OmpForms(declare: string, pragma: string, loop: Template,
                               args: Template, argSlot: Template, ress: Template, resSlot: Template,
                               iw: Template, w: Template, callPre: string, callPost: string, close: string)
  {
    predicate Counted()
    {
      Holes(loop) == 1 && Holes(args) == 2 && Holes(argSlot) == 3 && Holes(ress) == 2 && Holes(resSlot) == 4
      && Holes(iw) == 1 && Holes(w) == 1
    }

    predicate Readable()
    {
      Counted() && Separated(loop) && Separated(args) && Separated(argSlot) && Separated(ress)
      && Separated(resSlot) && Separated(iw) && Separated(w)
    }
  }

  /** `MapOmp::generateBody`'s line shapes: the call's status is dropped. */
  const OmpLayout := OmpForms(
    "  int i;",
    "#pragma omp parallel for",
    Template("  for (i=0; i<", ["; ++i) {"]),
    Template("    const double** arg_i = arg + ", ["+", "*i;"]),
    Template("    arg_i[", ["] = arg[", "]+i*", ";"]),
    Template("    double** res_i = res + ", ["+", "*i;"]),
    Template("    res_i[", ["] = res[", "] ?res[", "]+i*", ": 0;"]),
    Template("    int* iw_i = iw + i*", [";"]),
    Template("    double* w_i = w + i*", [";"]),
    "    ", ";",
    "  }")

  lemma OmpLayoutReadable()
    ensures OmpLayout.Readable()
  {
  }

  /** The parallel body in the line shapes `F`. */
  function OmpLines(F: OmpForms, src: OmpText): (r: seq<string>)
    requires F.Counted()
    ensures |r| == 9 + |src.sig.nnzIn| + |src.sig.nnzOut|
  {
    [F.declare, F.pragma, Render(F.loop, [src.n]), Render(F.args, [|src.sig.nnzIn|, src.sig.szArg])]
    + SlotLines(F.argSlot, src.sig.nnzIn)
    + [Render(F.ress, [|src.sig.nnzOut|, src.sig.szRes])]
    + SlotLines(F.resSlot, src.sig.nnzOut)
    + [Render(F.iw, [src.sig.szIw]), Render(F.w, [src.sig.szW]), F.callPre + src.call + F.callPost, F.close]
  }

  /** Recovers what a body in the line shapes `F` was generated from; None
      for any text that is not such a body. */
  function ParseOmpLines(F: OmpForms, lines: seq<string>): (r: Option<OmpText>)
    requires F.Counted()
  {
    if |lines| < 9 || lines[0] != F.declare || lines[1] != F.pragma || lines[|lines| - 1] != F.close then None
    else
      var n, argArea := One(F.loop, lines[2]), Two(F.args, lines[3]);
      if n.None? || argArea.None? || |lines| < 9 + argArea.value.0 then None
      else
        var a := 4 + argArea.value.0;
        var resArea := Two(F.ress, lines[a]);
        if resArea.None? || |lines| != 9 + argArea.value.0 + resArea.value.0 then None
        else
          var b := a + 1 + resArea.value.0;
          var ins := ParseSlotLines(F.argSlot, lines[4 .. a]);
          var outs := ParseSlotLines(F.resSlot, lines[a + 1 .. b]);
          var szIw, szW := One(F.iw, lines[b]), One(F.w, lines[b + 1]);
          var call := Between(lines[b + 2], F.callPre, F.callPost);
          if ins.None? || outs.None? || szIw.None? || szW.None? || call.None? then None
          else Some(OmpText(Sig(ins.value, outs.value, argArea.value.1, resArea.value.1, szIw.value, szW.value),
                            n.value, call.value))
  }

  /** Where each part of a parallel body sits. */
  lemma OmpLinesAt(F: OmpForms, src: OmpText)
    requires F.Counted()
    ensures var lines, a, sig := OmpLines(F, src), 4 + |src.sig.nnzIn|, src.sig;
      && lines[0] == F.declare && lines[1] == F.pragma
      && lines[2] == Render(F.loop, [src.n]) && lines[3] == Render(F.args, [|sig.nnzIn|, sig.szArg])
      && lines[4 .. a] == SlotLines(F.argSlot, sig.nnzIn)
      && lines[a] == Render(F.ress, [|sig.nnzOut|, sig.szRes])
      && lines[a + 1 .. a + 1 + |sig.nnzOut|] == SlotLines(F.resSlot, sig.nnzOut)
      && lines[a + 1 + |sig.nnzOut|] == Render(F.iw, [sig.szIw])
      && lines[a + 2 + |sig.nnzOut|] == Render(F.w, [sig.szW])
      && lines[a + 3 + |sig.nnzOut|] == F.callPre + src.call + F.callPost
      && lines[|lines| - 1] == F.close
  {
  }

  /** Reading a parallel body back gives what it was generated from. */
  lemma OmpLinesRound(F: OmpForms, src: OmpText)
    requires F.Readable()
    ensures ParseOmpLines(F, OmpLines(F, src)) == Some(src)
  {
    var sig := src.sig;
    OmpLinesAt(F, src);
    OneRound(F.loop, src.n);
    TwoRound(F.args, |sig.nnzIn|, sig.szArg);
    TwoRound(F.ress, |sig.nnzOut|, sig.szRes);
    ParseSlotLinesRound(F.argSlot, sig.nnzIn);
    ParseSlotLinesRound(F.resSlot, sig.nnzOut);
    OneRound(F.iw, sig.szIw);
    OneRound(F.w, sig.szW);
    BetweenRound(F.callPre, src.call, F.callPost);
  }

  /** The lines `MapOmp::generateBody` emits. */
  function OmpBody(src: OmpText): (r: seq<string>)
    ensures |r| == 9 + |src.sig.nnzIn| + |src.sig.nnzOut|
  {
    OmpLines(OmpLayout, src)
  }

  /** Recovers what a parallel body was generated from. */
  function ParseOmpBody(lines: seq<string>): Option<OmpText>
  {
    ParseOmpLines(OmpLayout, lines)
  }

  /** Reading the parallel body back gives what it was generated from. */
  lemma OmpBodyRound(src: OmpText)
    ensures ParseOmpBody(OmpBody(src)) == Some(src)
  {
    OmpLayoutReadable();
    OmpLinesRound(OmpLayout, src);
  }

  // ---- What the slot lines assign ----

  /** `dst[d] = src[t] ? src[s] + i*k : 0` for the numbers `[d, t, s, k]` of
      a tested slot line, when instance `i` runs. */
  function TestedSlot(nums: seq<nat>, ptrs: seq<Ptr>, i: nat): Ptr
    requires |nums| == 4 && nums[1] < |ptrs| && nums[2] < |ptrs|
  {
    if ptrs[nums[1]].Null? then Null else Offset(ptrs[nums[2]], Scale(i, nums[3]))
  }

  /** `dst[d] = src[s] + i*k` for the numbers `[d, s, k]` of an untested
      slot line, when instance `i` runs. */
  function UntestedSlot(nums: seq<nat>, ptrs: seq<Ptr>, i: nat): Ptr
    requires |nums| == 3 && nums[1] < |ptrs|
  {
    Offset(ptrs[nums[1]], Scale(i, nums[2]))
  }

  /** Port `j`'s line in a run of slot lines reads back as naming port `j`
      with its nonzero count. */
  lemma SlotLineReads(t: Template, nnz: seq<nat>, j: nat)
    requires Separated(t) && Holes(t) >= 1 && j < |nnz|
    ensures Match(t, SlotLines(t, nnz)[j]) == Some(SlotNums(t, j, nnz[j]))
  {
    MatchRender(t, SlotNums(t, j, nnz[j]));
  }

  /** Line `4 + j` of a serial body is input port `j`'s slot line. */
  lemma SerialArgLine(F: SerialForms, src: SerialText, j: nat)
    requires F.Readable() && j < |src.nnzIn|
    ensures Match(F.argSlot, SerialLines(F, src)[4 + j]) == Some(SlotNums(F.argSlot, j, src.nnzIn[j]))
  {
    SerialLinesAt(F, src);
    assert SerialLines(F, src)[4 + j] == SlotLines(F.argSlot, src.nnzIn)[j];
    SlotLineReads(F.argSlot, src.nnzIn, j);
  }

  /** Line `4 + j` of a parallel body is input port `j`'s slot line. */
  lemma OmpArgLine(F: OmpForms, src: OmpText, j: nat)
    requires F.Readable() && j < |src.sig.nnzIn|
    ensures Match(F.argSlot, OmpLines(F, src)[4 + j]) == Some(SlotNums(F.argSlot, j, src.sig.nnzIn[j]))
  {
    OmpLinesAt(F, src);
    assert OmpLines(F, src)[4 + j] == SlotLines(F.argSlot, src.sig.nnzIn)[j];
    SlotLineReads(F.argSlot, src.sig.nnzIn, j);
  }

  /** Line `5 + n_in + j` of a parallel body is output port `j`'s slot line. */
  lemma OmpResLine(F: OmpForms, src: OmpText, j: nat)
    requires F.Readable() && j < |src.sig.nnzOut|
    ensures Match(F.resSlot, OmpLines(F, src)[5 + |src.sig.nnzIn| + j])
         == Some(SlotNums(F.resSlot, j, src.sig.nnzOut[j]))
  {
    OmpLinesAt(F, src);
    var a := 4 + |src.sig.nnzIn|;
    assert OmpLines(F, src)[a + 1 + j] == SlotLines(F.resSlot, src.sig.nnzOut)[j];
    SlotLineReads(F.resSlot, src.sig.nnzOut, j);
  }

  /** Running a tested slot line for port `j` gives the slot the serial
      evaluation computes. */
  lemma TestedIsSerial(ptrs: seq<Ptr>, i: nat, j: nat, nnz: nat)
    requires j < |ptrs|
    ensures TestedSlot([j, j, j, nnz], ptrs, i) == SliceSlot(ptrs[j], i, nnz)
  {
  }

  /** Running an untested slot line for port `j` gives the unchecked slot
      of the parallel evaluation. */
  lemma UntestedIsUnchecked(ptrs: seq<Ptr>, i: nat, j: nat, nnz: nat)
    requires j < |ptrs|
    ensures UntestedSlot([j, j, nnz], ptrs, i) == UncheckedSlot(ptrs[j], i, nnz)
  {
  }

  /** The serial body's input slot lines are port `j`'s TESTED line
      (`TestedIsSerial`): the generated code and `Map::evalGen` hand `f` the
      same slices. */
  lemma SerialSlotLines(src: SerialText, j: nat)
    requires j < |src.nnzIn|
    ensures Match(SerialLayout.argSlot, SerialBody(src)[4 + j]) == Some([j, j, j, src.nnzIn[j]])
  {
    SerialLayoutReadable();
    SerialArgLine(SerialLayout, src, j);
    SlotNumsFour(SerialLayout.argSlot, j, src.nnzIn[j]);
  }

  /** The parallel body's input slot lines are port `j`'s UNTESTED line
      (`UntestedIsUnchecked`): the generated code advances an absent input
      port just as `MapOmp::eval` does. */
  lemma OmpArgSlotLines(src: OmpText, j: nat)
    requires j < |src.sig.nnzIn|
    ensures Match(OmpLayout.argSlot, OmpBody(src)[4 + j]) == Some([j, j, src.sig.nnzIn[j]])
  {
    OmpLayoutReadable();
    OmpArgLine(OmpLayout, src, j);
    SlotNumsThree(OmpLayout.argSlot, j, src.sig.nnzIn[j]);
  }

  /** The parallel body's output slot lines are port `j`'s tested line,
      which gives the serial slot. */
  lemma OmpResSlotLines(src: OmpText, j: nat)
    requires j < |src.sig.nnzOut|
    ensures Match(OmpLayout.resSlot, OmpBody(src)[5 + |src.sig.nnzIn| + j]) == Some([j, j, j, src.sig.nnzOut[j]])
  {
    OmpLayoutReadable();
    OmpResLine(OmpLayout, src, j);
    SlotNumsFour(OmpLayout.resSlot, j, src.sig.nnzOut[j]);
  }

  // ---- What the generated bodies do with `f`'s status ----

  /** How a generated call statement treats the status the call of `f`
      returns: `if (<call>) return 1;` ends the body with 1 on a nonzero
      status; the bare statement `<call>;` discards it. */
  datatype Reaction = ReturnOne | Discard

  /** The reaction of the call statement `callPre + call + callPost`; None
      for any other statement shape. */
  function Reacts(callPre: string, callPost: string): Option<Reaction>
  {
    if callPre == "    if (" && callPost == ") return 1;" then Some(ReturnOne)
    else if callPre == "    " && callPost == ";" then Some(Discard)
    else None
  }

  /** The serial body fails fast; the parallel body drops the status. */
  lemma LayoutReactions()
    ensures Reacts(SerialLayout.callPre, SerialLayout.callPost) == Some(ReturnOne)
    ensures Reacts(OmpLayout.callPre, OmpLayout.callPost) == Some(Discard)
  {
  }

  /**
   * Runs a generated loop on the statuses the `n` calls of `f` report. Under
   * `ReturnOne` the loop stops after the first call that reports failure
   * (nonzero) and the body returns 1; otherwise, and always under `Discard`,
   * every call runs and the body falls through.
   */
  method RunCalls(reaction: Reaction, status: seq<int>) returns (made: nat, failed: bool)
    ensures made <= |status|
    ensures reaction == Discard ==> made == |status| && !failed
    ensures reaction == ReturnOne ==>
      && (failed <==> exists k :: 0 <= k < |status| && status[k] != 0)
      && (forall k :: 0 <= k < made - (if failed then 1 else 0) ==> status[k] == 0)
      && (failed ==> made > 0 && status[made - 1] != 0)
      && (!failed ==> made == |status|)
  {
    made, failed := 0, false;
    while made < |status|
      invariant made <= |status| && !failed
      invariant reaction == ReturnOne ==> forall k :: 0 <= k < made ==> status[k] == 0
      decreases |status| - made
    {
      made := made + 1;
      if reaction == ReturnOne && status[made - 1] != 0 {
        failed := true;
        return;
      }
    }
  }

  /** The loop of the serial body (`Map::generateBody`), whose call line
      returns 1 on a nonzero status: it stops at the first failing call and
      fails exactly when some call fails. */
  method SerialStatus(status: seq<int>) returns (made: nat, failed: bool)
    ensures made <= |status|
    ensures failed <==> exists k :: 0 <= k < |status| && status[k] != 0
    ensures forall k :: 0 <= k < made - (if failed then 1 else 0) ==> status[k] == 0
    ensures failed ==> made > 0 && status[made - 1] != 0
    ensures !failed ==> made == |status|
  {
    LayoutReactions();
    made, failed := RunCalls(Reacts(SerialLayout.callPre, SerialLayout.callPost).value, status);
  }

  /** The loop of the parallel body (`MapOmp::generateBody`), whose call line
      drops the status: all `n` calls run and the body never fails. */
  method OmpStatus(status: seq<int>) returns (made: nat, failed: bool)
    ensures made == |status| && !failed
  {
    LayoutReactions();
    made, failed := RunCalls(Reacts(OmpLayout.callPre, OmpLayout.callPost).value, status);
  }
}
