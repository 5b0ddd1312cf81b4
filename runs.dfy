/** Several iterations of the loop of parse0 at once. The loop body is
    passed around as a function of the position and the state, so that what
    is said here about runs of iterations holds for any loop body. */
module Runs {
  import opened Bytes
  import opened Parser

  /** Where some iterations leave the decoder: the payloads sent, the
      position reached and the state there. */
  datatype Progress = Progress(out: seq<Payload>, next: nat, st: State)

  /** One iteration of the loop of parse0 on `input` (a panic where the
      loop could not be). */
  function Iteration(input: bytes, pos: nat, st: State): Step {
    if pos <= |input| && Valid(st) then StepAt(input, pos, st) else Stop([], Fault)
  }

  /** The loop body of parse0 on `input`, as a function. */
  function Loop(input: bytes): (nat, State) -> Step {
    (pos: nat, st: State) => Iteration(input, pos, st)
  }

  /** k iterations of the loop body `step` from `pos` in state `st`; None if
      the loop ends before the k-th is done. */
  function Run(step: (nat, State) -> Step, pos: nat, st: State, k: nat): Option<Progress>
    decreases k, 0, pos
  {
    if k == 0 then Some(Progress([], pos, st)) else RunFrom(step, pos, st, k - 1)
  }

  /** One iteration from `pos` in state `st`, then k more. (Run, RunFrom
      and RunNext are kept apart so that a run is unfolded one step at a
      time.) */
  function RunFrom(step: (nat, State) -> Step, pos: nat, st: State, k: nat): Option<Progress>
    decreases k, 3, pos
  {
    RunNext(step, pos, st, k)
  }

  /** Only an extra step of unfolding between RunFrom and RunAfter, so that
      the solver does not expand a long run all at once. */
  function RunNext(step: (nat, State) -> Step, pos: nat, st: State, k: nat): Option<Progress>
    decreases k, 2, pos
  {
    RunAfter(step, step(pos, st), k)
  }

  /** The iteration `s`, then k more. */
  function RunAfter(step: (nat, State) -> Step, s: Step, k: nat): Option<Progress>
    decreases k, 1, s
  {
    if s.Stop? then None
    else
      var rest := Run(step, s.next, s.st, k);
      if rest.None? then None else Some(Progress(s.out + rest.value.out, rest.value.next, rest.value.st))
  }

  /** One iteration that does not end the loop is a run of one. */
  lemma {:induction false} RunOne(step: (nat, State) -> Step, pos: nat, st: State)
    requires step(pos, st).Continue?
    ensures var s := step(pos, st); Run(step, pos, st, 1) == Some(Progress(s.out, s.next, s.st))
  {
    var s := step(pos, st);
    assert Run(step, pos, st, 1) == RunFrom(step, pos, st, 0) == RunNext(step, pos, st, 0) == RunAfter(step, s, 0);
    assert Run(step, s.next, s.st, 0) == Some(Progress([], s.next, s.st));
    assert s.out + [] == s.out;
  }

  /** Two iterations that do not end the loop are a run of two. */
  lemma {:induction false} RunTwo(step: (nat, State) -> Step, pos: nat, st: State)
    requires step(pos, st).Continue?
    requires step(step(pos, st).next, step(pos, st).st).Continue?
    ensures var s := step(pos, st); var t := step(s.next, s.st);
      Run(step, pos, st, 2) == Some(Progress(s.out + t.out, t.next, t.st))
  {
    var s := step(pos, st);
    assert Run(step, pos, st, 2) == RunFrom(step, pos, st, 1) == RunNext(step, pos, st, 1) == RunAfter(step, s, 1);
    RunOne(step, s.next, s.st);
  }

  /** Two consecutive runs, of j and then k iterations, are one run of
      j + k iterations that sends what both send, in order. */
  lemma {:induction false} RunAppend(step: (nat, State) -> Step, pos: nat, st: State, j: nat, k: nat)
    requires Run(step, pos, st, j).Some?
    requires var a := Run(step, pos, st, j).value; Run(step, a.next, a.st, k).Some?
    ensures var a := Run(step, pos, st, j).value; var b := Run(step, a.next, a.st, k).value;
      Run(step, pos, st, j + k) == Some(Progress(a.out + b.out, b.next, b.st))
    decreases j
  {
    if j == 0 {
      assert [] + Run(step, pos, st, k).value.out == Run(step, pos, st, k).value.out;
    } else {
      var s := step(pos, st);
      assert Run(step, pos, st, j) == RunFrom(step, pos, st, j - 1) == RunNext(step, pos, st, j - 1) == RunAfter(step, s, j - 1);
      assert Run(step, pos, st, j + k) == RunFrom(step, pos, st, j - 1 + k) == RunNext(step, pos, st, j - 1 + k)
        == RunAfter(step, s, j - 1 + k);
      RunAppend(step, s.next, s.st, j - 1, k);
      var a := Run(step, pos, st, j).value;
      var a' := Run(step, s.next, s.st, j - 1).value;
      var b := Run(step, a.next, a.st, k).value;
      assert s.out + (a'.out + b.out) == (s.out + a'.out) + b.out;
    }
  }

  /** Two consecutive runs with known ends, as one run. */
  lemma {:induction false} RunThen(step: (nat, State) -> Step, p0: nat, s0: State, j: nat, o1: seq<Payload>, p1: nat, s1: State,
                                   k: nat, o2: seq<Payload>, p2: nat, s2: State)
    requires Run(step, p0, s0, j) == Some(Progress(o1, p1, s1))
    requires Run(step, p1, s1, k) == Some(Progress(o2, p2, s2))
    ensures Run(step, p0, s0, j + k) == Some(Progress(o1 + o2, p2, s2))
  {
    RunAppend(step, p0, s0, j, k);
  }

  /** The total of a list of iteration counts. */
  function Sum(ks: seq<nat>): nat
    decreases |ks|
  {
    if ks == [] then 0 else ks[0] + Sum(ks[1..])
  }

  /** The payloads of a list of runs, in order. */
  function Flatten(outs: seq<seq<Payload>>): seq<Payload>
    decreases |outs|
  {
    if outs == [] then [] else outs[0] + Flatten(outs[1..])
  }

  /** Run i takes ks[i] iterations from pos[i] in state sts[i], sends
      outs[i] and stops at pos[i + 1] in state sts[i + 1], for every i. */
  ghost predicate Chained(step: (nat, State) -> Step, pos: seq<nat>, sts: seq<State>, ks: seq<nat>, outs: seq<seq<Payload>>) {
    |pos| == |ks| + 1 && |sts| == |ks| + 1 && |outs| == |ks| &&
    forall i :: 0 <= i < |ks| ==> Run(step, pos[i], sts[i], ks[i]) == Some(Progress(outs[i], pos[i + 1], sts[i + 1]))
  }

  /** Runs laid end to end, from the k-th on, are one run. */
  lemma {:induction false} ChainRun(step: (nat, State) -> Step, pos: seq<nat>, sts: seq<State>, ks: seq<nat>, outs: seq<seq<Payload>>, k: nat)
    requires Chained(step, pos, sts, ks, outs) && k <= |ks|
    ensures Run(step, pos[k], sts[k], Sum(ks[k..])) == Some(Progress(Flatten(outs[k..]), pos[|ks|], sts[|ks|]))
    decreases |ks| - k
  {
    if k == |ks| {
      assert ks[k..] == [] && outs[k..] == [];
    } else {
      ChainRun(step, pos, sts, ks, outs, k + 1);
      assert ks[k..][1..] == ks[k + 1..] && outs[k..][1..] == outs[k + 1..];
      RunThen(step, pos[k], sts[k], ks[k], outs[k], pos[k + 1], sts[k + 1],
        Sum(ks[k + 1..]), Flatten(outs[k + 1..]), pos[|ks|], sts[|ks|]);
    }
  }

  /** Runs laid end to end, with known ends, are one run. */
  lemma {:induction false} ChainWhole(step: (nat, State) -> Step, pos: seq<nat>, sts: seq<State>, ks: seq<nat>, outs: seq<seq<Payload>>,
                                      p: nat, st: State, k: nat, out: seq<Payload>, e: nat, st': State)
    requires Chained(step, pos, sts, ks, outs)
    requires pos[0] == p && sts[0] == st && Sum(ks[0..]) == k && Flatten(outs[0..]) == out
    requires pos[|ks|] == e && sts[|ks|] == st'
    ensures Run(step, p, st, k) == Some(Progress(out, e, st'))
  {
    ChainRun(step, pos, sts, ks, outs, 0);
  }

  /** The decoder of `input` from any position and state (a panic where
      the loop could not start). */
  function Decoding(input: bytes): (nat, State) -> Decoded {
    (pos: nat, st: State) => if pos <= |input| && Valid(st) then DecodeFrom(input, pos, st) else Decoded([], Fault)
  }

  /** `dec` is what the loop produces: an iteration that goes on sends its
      payloads ahead of what the loop produces after it. */
  ghost predicate Unrolls(step: (nat, State) -> Step, dec: (nat, State) -> Decoded) {
    forall p: nat, s: State {:trigger step(p, s)} :: step(p, s).Continue? ==>
      dec(p, s) == Prepend(step(p, s).out, dec(step(p, s).next, step(p, s).st))
  }

  /** DecodeFrom is the loop of parse0. */
  lemma {:induction false} IterationUnrolls(input: bytes)
    ensures Unrolls(Loop(input), Decoding(input))
  {
    forall p: nat, s: State | Loop(input)(p, s).Continue?
      ensures Decoding(input)(p, s)
        == Prepend(Loop(input)(p, s).out, Decoding(input)(Loop(input)(p, s).next, Loop(input)(p, s).st))
    {
      var t := StepAt(input, p, s);
      assert Loop(input)(p, s) == Iteration(input, p, s) == t;
      assert DecodeFrom(input, p, s) == Prepend(t.out, DecodeAfter(input, p, t));
      assert Decoding(input)(t.next, t.st) == DecodeFrom(input, t.next, t.st) == DecodeAfter(input, p, t);
    }
  }

  /** What a run sends comes first in what the loop produces, and the rest is
      produced from where the run leaves off. */
  lemma {:induction false} RunPrepend(step: (nat, State) -> Step, dec: (nat, State) -> Decoded, pos: nat, st: State, k: nat)
    requires Unrolls(step, dec) && Run(step, pos, st, k).Some?
    ensures var a := Run(step, pos, st, k).value; dec(pos, st) == Prepend(a.out, dec(a.next, a.st))
    decreases k
  {
    if k > 0 {
      var s := step(pos, st);
      assert Run(step, pos, st, k) == RunFrom(step, pos, st, k - 1) == RunNext(step, pos, st, k - 1) == RunAfter(step, s, k - 1);
      RunPrepend(step, dec, s.next, s.st, k - 1);
      var a := Run(step, pos, st, k).value;
      var a' := Run(step, s.next, s.st, k - 1).value;
      var d := dec(a.next, a.st);
      assert s.out + (a'.out + d.payloads) == (s.out + a'.out) + d.payloads;
    } else {
      assert [] + dec(pos, st).payloads == dec(pos, st).payloads;
    }
  }

  /** A run of parse0 that ends inside the input, in a state the loop can be
      in, leaves the rest of the stream to be decoded from there. */
  lemma {:induction false} RunDecode(input: bytes, pos: nat, st: State, k: nat)
    requires pos <= |input| && Valid(st) && Run(Loop(input), pos, st, k).Some?
    requires var a := Run(Loop(input), pos, st, k).value; a.next <= |input| && Valid(a.st)
    ensures var a := Run(Loop(input), pos, st, k).value;
      DecodeFrom(input, pos, st) == Prepend(a.out, DecodeFrom(input, a.next, a.st))
  {
    IterationUnrolls(input);
    RunPrepend(Loop(input), Decoding(input), pos, st, k);
    var a := Run(Loop(input), pos, st, k).value;
    assert Decoding(input)(pos, st) == DecodeFrom(input, pos, st);
    assert Decoding(input)(a.next, a.st) == DecodeFrom(input, a.next, a.st);
  }

  /** An iteration of parse0 that goes on is a run of one. */
  lemma {:induction false} IterateOnce(input: bytes, pos: nat, st: State, s: Step)
    requires pos <= |input| && Valid(st) && StepAt(input, pos, st) == s && s.Continue?
    ensures Run(Loop(input), pos, st, 1) == Some(Progress(s.out, s.next, s.st))
  {
    assert Loop(input)(pos, st) == Iteration(input, pos, st) == s;
    RunOne(Loop(input), pos, st);
  }

  /** An iteration that goes on, as a run of one. */
  lemma {:induction false} StepRun(input: bytes, p: nat, st: State, out: seq<Payload>, e: nat, st': State)
    requires p <= |input| && Valid(st) && StepAt(input, p, st) == Continue(out, e, st')
    ensures Run(Loop(input), p, st, 1) == Some(Progress(out, e, st'))
  {
    IterateOnce(input, p, st, Continue(out, e, st'));
  }

  /** Two iterations of parse0 that go on are a run of two. */
  lemma {:induction false} IterateTwice(input: bytes, pos: nat, st: State, s: Step, t: Step)
    requires pos <= |input| && Valid(st) && StepAt(input, pos, st) == s && s.Continue?
    requires StepAt(input, s.next, s.st) == t && t.Continue?
    ensures Run(Loop(input), pos, st, 2) == Some(Progress(s.out + t.out, t.next, t.st))
  {
    assert Loop(input)(pos, st) == Iteration(input, pos, st) == s;
    assert Loop(input)(s.next, s.st) == Iteration(input, s.next, s.st) == t;
    RunTwo(Loop(input), pos, st);
  }

  /** At the end of the input the next read reports EOF and the stream closes. */
  lemma {:induction false} AtEnd(input: bytes)
    ensures DecodeFrom(input, |input|, Zero) == Decoded([Err(IoError(EOF))], Closed)
  {
  }

  /** A run from the start that reaches the end of the input in the zero
      state: the stream is what it sends, then the EOF error that closes it. */
  lemma {:induction false} RunToEnd(input: bytes, k: nat)
    requires Run(Loop(input), 0, Zero, k).Some?
    requires Run(Loop(input), 0, Zero, k).value.next == |input|
    requires Run(Loop(input), 0, Zero, k).value.st == Zero
    ensures ParseStream(input) == Decoded(Run(Loop(input), 0, Zero, k).value.out + [Err(IoError(EOF))], Closed)
  {
    RunDecode(input, 0, Zero, k);
    AtEnd(input);
  }

  /** A run from the start after which the next iteration panics: the
      stream is what it sends and no more, and it is left open. */
  lemma {:induction false} RunToFault(input: bytes, k: nat)
    requires Run(Loop(input), 0, Zero, k).Some?
    requires var a := Run(Loop(input), 0, Zero, k).value;
      a.next <= |input| && Valid(a.st) && StepAt(input, a.next, a.st) == Stop([], Fault)
    ensures ParseStream(input) == Decoded(Run(Loop(input), 0, Zero, k).value.out, Fault)
  {
    RunDecode(input, 0, Zero, k);
    var a := Run(Loop(input), 0, Zero, k).value;
    assert a.out + [] == a.out;
  }
}
