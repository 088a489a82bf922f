/** What the fuzzer has the EVM do, told by the EVM's inputs and outputs alone. */
module Transcripts {
  import opened Common
  import opened Decimal
  import opened AbiValues
  import opened StateManager
  import opened Snapshots
  import opened Fuzzer

  // ------------------------------------------------------------------ which oracle decides

  /** What the k-th oracle answers, on the state that the earlier ones left. */
  function OracleRun(w: World, c: Contract, oracles: seq<string>, caller: Address, s: State, k: nat): EvmOutput
    requires k < |oracles|
    decreases k
  {
    var before := if k == 0 then s else OracleRun(w, c, oracles, caller, s, k - 1).state;
    w.evm(EvmInput(c.code, w.encodeCall(c.abi, oracles[k], []), caller, c.address, before))
  }

  function OracleEdges(w: World, c: Contract, oracles: seq<string>, caller: Address, s: State, n: nat): seq<Edge>
    requires n <= |oracles|
  {
    if n == 0 then [] else OracleEdges(w, c, oracles, caller, s, n - 1) + OracleRun(w, c, oracles, caller, s, n - 1).dag
  }

  lemma {:induction false} OracleRunShift(w: World, c: Contract, oracles: seq<string>, caller: Address, s: State,
                                          k: nat)
    requires 0 < k < |oracles|
    ensures OracleRun(w, c, oracles, caller, s, k)
         == OracleRun(w, c, oracles[1..], caller, OracleRun(w, c, oracles, caller, s, 0).state, k - 1)
  {
    if k > 1 { OracleRunShift(w, c, oracles, caller, s, k - 1); }
  }

  lemma {:induction false} OracleEdgesShift(w: World, c: Contract, oracles: seq<string>, caller: Address, s: State,
                                            n: nat)
    requires 0 < n <= |oracles|
    ensures OracleEdges(w, c, oracles, caller, s, n) == OracleRun(w, c, oracles, caller, s, 0).dag
         + OracleEdges(w, c, oracles[1..], caller, OracleRun(w, c, oracles, caller, s, 0).state, n - 1)
  {
    if n > 1 {
      OracleEdgesShift(w, c, oracles, caller, s, n - 1);
      OracleRunShift(w, c, oracles, caller, s, n - 1);
    }
  }

  ghost predicate AnswersTrue(w: World, c: Contract, oracles: seq<string>, caller: Address, s: State, k: nat)
    requires k < |oracles|
  {
    w.isTrue(OracleRun(w, c, oracles, caller, s, k).returned)
  }

  /** The first oracle that answers true names the violation, and the edges are the transaction's
      followed by those of the oracles up to it, or of all of them when none answers true. */
  lemma {:induction false} FirstTrueOracleDecides(w: World, c: Contract, oracles: seq<string>, caller: Address,
                                                  s: State, dag: seq<Edge>)
    returns (k: nat)
    ensures k <= |oracles| && forall j :: 0 <= j < k ==> !AnswersTrue(w, c, oracles, caller, s, j)
    ensures k < |oracles| ==> AnswersTrue(w, c, oracles, caller, s, k)
    ensures RunOracles(w, c, oracles, caller, s, dag) ==
            if k < |oracles| then Verdict(true, oracles[k], dag + OracleEdges(w, c, oracles, caller, s, k + 1))
            else Verdict(false, "", dag + OracleEdges(w, c, oracles, caller, s, k))
    decreases |oracles|
  {
    if oracles == [] {
      k := 0;
      assert dag + [] == dag;
    } else {
      var out := OracleRun(w, c, oracles, caller, s, 0);
      assert OracleEdges(w, c, oracles, caller, s, 0) + out.dag == out.dag;
      if w.isTrue(out.returned) {
        k := 0;
      } else {
        var later := FirstTrueOracleDecides(w, c, oracles[1..], caller, out.state, dag + out.dag);
        k := later + 1;
        forall j | 0 < j < |oracles|
          ensures AnswersTrue(w, c, oracles, caller, s, j)
                  <==> AnswersTrue(w, c, oracles[1..], caller, out.state, j - 1)
        {
          OracleRunShift(w, c, oracles, caller, s, j);
        }
        forall j | 0 <= j < k ensures !AnswersTrue(w, c, oracles, caller, s, j) {
          if j > 0 { assert !AnswersTrue(w, c, oracles[1..], caller, out.state, j - 1); }
        }
        OracleEdgesShift(w, c, oracles, caller, s, if k < |oracles| then k + 1 else k);
        var rest := OracleEdges(w, c, oracles[1..], caller, out.state, if k < |oracles| then k else k - 1);
        assert dag + (out.dag + rest) == dag + out.dag + rest;
      }
    }
  }

  /** The first oracle from k on that answers true, or their number when none does. */
  ghost function FirstTrue(w: World, c: Contract, oracles: seq<string>, caller: Address, s: State, k: nat): (n: nat)
    requires k <= |oracles|
    ensures k <= n <= |oracles| && forall j :: k <= j < n ==> !AnswersTrue(w, c, oracles, caller, s, j)
    ensures n < |oracles| ==> AnswersTrue(w, c, oracles, caller, s, n)
    decreases |oracles| - k
  {
    if k < |oracles| && !AnswersTrue(w, c, oracles, caller, s, k) then FirstTrue(w, c, oracles, caller, s, k + 1) else k
  }

  // ------------------------------------------------------------------ a transaction with its oracles

  /** The call itself, on contents of which a snapshot has just been taken. */
  function CallOf(w: World, c: Contract, name: string, args: seq<Abi>, caller: Address, contents: Contents): EvmOutput {
    w.evm(EvmInput(c.code, w.encodeCall(c.abi, name, Plains(args)), caller, c.address, State(contents, Some(contents))))
  }

  /** What a call leaves to the oracles: the state it made or, after an exception, its snapshot. */
  function LeftBy(call: EvmOutput): State {
    if !call.failed then call.state
    else State(if call.state.ckpt.Some? then call.state.ckpt.value else Contents([], map[]), call.state.ckpt)
  }

  /** The verdict on a call: that of the first oracle to answer true, with the edges of all that ran. */
  ghost function Told(w: World, c: Contract, name: string, args: seq<Abi>, caller: Address, contents: Contents)
    : Verdict
  {
    var call, oracles := CallOf(w, c, name, args, caller, contents), c.abi.oracles;
    var n := FirstTrue(w, c, oracles, caller, LeftBy(call), 0);
    if n < |oracles| then
      Verdict(true, oracles[n], call.dag + OracleEdges(w, c, oracles, caller, LeftBy(call), n + 1))
    else Verdict(false, "", call.dag + OracleEdges(w, c, oracles, caller, LeftBy(call), n))
  }

  /** Executing a call does what its transcript tells, whatever snapshot was there before. */
  lemma ExecuteAsTold(w: World, c: Contract, name: string, args: seq<Abi>, caller: Address, s: State)
    ensures Execute(w, c, name, args, caller, s) ==
            Outcome(CallOf(w, c, name, args, caller, s.contents).failed, Told(w, c, name, args, caller, s.contents))
  {
    var call := CallOf(w, c, name, args, caller, s.contents);
    assert Step(s, Op.Checkpoint) == State(s.contents, Some(s.contents));
    assert LeftBy(call) == Transact(w, c, CallData(w, c, name, args), caller, s).state;
    var k := FirstTrueOracleDecides(w, c, c.abi.oracles, caller, LeftBy(call), call.dag);
    var n := FirstTrue(w, c, c.abi.oracles, caller, LeftBy(call), 0);
    assert k == n;
  }

  /** The operations that stand after a call: all of them, or those up to the EVM's last checkpoint
      when it ends with an exception. */
  function Standing(failed: bool, ops: seq<Op>): seq<Op> {
    if !failed then ops
    else
      match LastCheckpoint(ops)
      case None => []
      case Some(i) => ops[..i]
  }

  /** Oracles see what the call did.  Whatever operations the EVM performed, the first oracle runs on
      the contents they lead to, so that a slot reads as last written; after an exception it
      runs on the contents the call began with, or those of the EVM's own last checkpoint.  The edges
      reported start with the call's. */
  lemma OraclesSeeTheCall(w: World, c: Contract, name: string, args: seq<Abi>, caller: Address, contents: Contents,
                          ops: seq<Op>, a: Address, key: Bytes)
    requires CallOf(w, c, name, args, caller, contents).state == Run(State(contents, Some(contents)), ops)
    ensures var call := CallOf(w, c, name, args, caller, contents);
            var seen, stand := LeftBy(call), Standing(call.failed, ops);
            && seen.contents == Run(State(contents, Some(contents)), stand).contents
            && SlotIn(seen.contents, a, key) == LastWritten(SlotIn(contents, a, key), stand, a, key)
            && (c.abi.oracles != [] ==>
                  OracleRun(w, c, c.abi.oracles, caller, seen, 0) ==
                  w.evm(EvmInput(c.code, w.encodeCall(c.abi, c.abi.oracles[0], []), caller, c.address, seen)))
            && call.dag <= Told(w, c, name, args, caller, contents).dag
  {
    var call, start := CallOf(w, c, name, args, caller, contents), State(contents, Some(contents));
    SnapshotIsLastCheckpoint(start, ops);
    SlotsHoldLastWrite(start, Standing(call.failed, ops), a, key);
  }
}
