/** The blackbox fuzzer's inputs: raw call data that starts with one of the swept selectors and whose
    length follows what the contract was seen to read. */
module BlackboxFuzzer {
  import opened Common
  import opened Decimal
  import BytecodeSweep
  import opened Fuzzer
  import opened Coverage
  import FuzzLoop

  type Lengths = map<Bytes, nat>

  const WORD: nat := 32

  /** What a call's data is known to need; a bare selector until something longer was read. */
  function KnownLength(lengths: Lengths, selector: Bytes): nat {
    if selector in lengths then lengths[selector] else 4
  }

  ghost predicate LengthsOk(lengths: Lengths) {
    forall s :: s in lengths ==> lengths[s] >= WORD
  }

  /** Outside nested calls, reading a word at an offset raises the length of the running selector. */
  function NoteRead(lengths: Lengths, selector: Bytes, offset: nat): Lengths {
    if selector !in lengths || lengths[selector] < offset + WORD then lengths[selector := offset + WORD] else lengths
  }

  function NoteReads(lengths: Lengths, selector: Bytes, offsets: seq<nat>): Lengths {
    if offsets == [] then lengths
    else NoteRead(NoteReads(lengths, selector, offsets[..|offsets| - 1]), selector, offsets[|offsets| - 1])
  }

  function Largest(offsets: seq<nat>): nat
    requires offsets != []
  {
    if |offsets| == 1 then offsets[0]
    else
      var rest := Largest(offsets[..|offsets| - 1]);
      if rest < offsets[|offsets| - 1] then offsets[|offsets| - 1] else rest
  }

  /** The recorded length is one word past the largest offset ever read for the selector; nothing else moves. */
  lemma {:induction false} LengthsTrackLargestRead(lengths: Lengths, selector: Bytes, offsets: seq<nat>)
    requires offsets != []
    ensures var after := NoteReads(lengths, selector, offsets);
            && after.Keys == lengths.Keys + {selector}
            && (forall s :: s in lengths && s != selector ==> after[s] == lengths[s])
            && var reached := Largest(offsets) + WORD;
               after[selector] ==
                 if selector in lengths && lengths[selector] > reached then lengths[selector] else reached
  {
    var last := |offsets| - 1;
    if last > 0 {
      LengthsTrackLargestRead(lengths, selector, offsets[..last]);
    } else {
      assert NoteReads(lengths, selector, offsets[..0]) == lengths;
    }
  }

  /** The data that mutation starts from: as it is, or its selector with blank arguments of the known length. */
  function Resized(data: Bytes, size: nat): Bytes
    requires |data| >= 4 && size >= 4
  {
    if |data| == size then data else data[..4] + Zeros(size - 4)
  }

  /** The selector stays and the length is the known one.  All but at most ten of the other bytes stay if
      the length does, and are zero if it changes. */
  ghost predicate Mutation(lengths: Lengths, data: Bytes, result: Bytes, changed: set<nat>) {
    && |data| >= 4 && |result| == KnownLength(lengths, data[..4]) >= 4
    && result[..4] == data[..4] && |changed| <= 10
    && forall i :: 4 <= i < |result| && i !in changed ==> result[i] == if |data| == |result| then data[i] else 0
  }

  /** Mutates in place: up to ten argument bytes, at the positions in `changed`, get new values.  A
      draw past the end changes nothing. */
  method Mutate(data: Bytes, lengths: Lengths) returns (result: Bytes, ghost changed: set<nat>)
    requires |data| >= 4 && LengthsOk(lengths)
    ensures |result| == KnownLength(lengths, data[..4]) >= 4 && result[..4] == data[..4]
    ensures Mutation(lengths, data, result, changed)
  {
    var size := KnownLength(lengths, data[..4]);
    var from := Resized(data, size);
    var buf := new Byte[size](i requires 0 <= i < size => from[i]);
    var span := if size > 4 then size - 4 else 1;   // a draw of 0 from an empty range still points past the selector
    var writes := 10;
    if * { writes := 1; }
    changed := {};
    var n := 0;
    while n < writes
      invariant n <= writes <= 10 && |changed| <= n
      invariant forall i :: 0 <= i < size && (i < 4 || i !in changed) ==> buf[i] == from[i]
    {
      var draw: nat :| draw < span;
      var value: Byte :| true;
      if 4 + draw < buf.Length {
        buf[4 + draw] := value;
      }
      changed := changed + {4 + draw};
      n := n + 1;
    }
    result := buf[..];
    assert result[..4] == from[..4] == data[..4];
  }

  // ------------------------------------------------------------------ the loop

  /** What running one input in a given round does: whether it reverts, its edges, and the offsets it reads. */
  datatype Ran = Ran(reverted: bool, dag: seq<Edge>, offsets: seq<nat>)

  ghost predicate InputOk(selectors: seq<Bytes>, input: Bytes) {
    |input| >= 4 && input[..4] in selectors
  }

  ghost predicate StateOk(selectors: seq<Bytes>, corpus: seq<Bytes>, lengths: Lengths) {
    && (forall i :: 0 <= i < |corpus| ==> InputOk(selectors, corpus[i]))
    && LengthsOk(lengths) && forall s :: s in lengths ==> s in selectors
  }

  /** A mutated input with an item's selector may join the corpus, and its reads the table. */
  lemma RoundKeepsOk(selectors: seq<Bytes>, corpus: seq<Bytes>, lengths: Lengths, pick: nat, input: Bytes,
                     offsets: seq<nat>)
    requires StateOk(selectors, corpus, lengths) && pick < |corpus|
    requires |input| >= 4 && input[..4] == corpus[pick][..4]
    ensures StateOk(selectors, corpus, NoteReads(lengths, input[..4], offsets))
    ensures StateOk(selectors, corpus + [input], NoteReads(lengths, input[..4], offsets))
  {
    assert InputOk(selectors, corpus[pick]);
    if offsets != [] { LengthsTrackLargestRead(lengths, input[..4], offsets); }
  }

  // ------------------------------------------------------------------ what a run of inputs amounts to

  type Runner = (nat, Bytes) -> Ran

  /** The round ran its input through the transition, and the input did not revert. */
  predicate WentThrough(run: Runner, round: nat, input: Bytes, t: string) {
    var out := run(round, input);
    !out.reverted && t in SerializeTransitions(out.dag)
  }

  ghost predicate EverWent(run: Runner, inputs: seq<Bytes>, t: string) {
    exists k :: 0 <= k < |inputs| && WentThrough(run, k + 1, inputs[k], t)
  }

  /** The inputs that went through a transition which no earlier one had gone through, in order. */
  ghost function Kept(run: Runner, inputs: seq<Bytes>): seq<Bytes> {
    if inputs == [] then []
    else
      var earlier, last := inputs[..|inputs| - 1], inputs[|inputs| - 1];
      Kept(run, earlier) + if Discovers(run, earlier, last) then [last] else []
  }

  ghost predicate Discovers(run: Runner, earlier: seq<Bytes>, input: Bytes) {
    exists t :: WentThrough(run, |earlier| + 1, input, t) && !EverWent(run, earlier, t)
  }

  /** The lengths that all inputs' reads lead to, those of reverted ones too. */
  function LengthsAfter(run: Runner, inputs: seq<Bytes>): Lengths {
    if inputs == [] then map[]
    else
      var last := inputs[|inputs| - 1];
      var selector := if |last| >= 4 then last[..4] else last;
      NoteReads(LengthsAfter(run, inputs[..|inputs| - 1]), selector, run(|inputs|, last).offsets)
  }

  /** Each input is a mutation, by the lengths then known, of a selector or of an input kept before. */
  ghost predicate AllMutations(selectors: seq<Bytes>, run: Runner, inputs: seq<Bytes>) {
    inputs != [] ==>
      var earlier, last := inputs[..|inputs| - 1], inputs[|inputs| - 1];
      && AllMutations(selectors, run, earlier)
      && exists item, changed :: item in selectors + Kept(run, earlier)
           && Mutation(LengthsAfter(run, earlier), item, last, changed)
  }

  lemma EverWentAppend(run: Runner, inputs: seq<Bytes>, input: Bytes, t: string)
    ensures EverWent(run, inputs + [input], t) <==>
            EverWent(run, inputs, t) || WentThrough(run, |inputs| + 1, input, t)
  {
    var longer := inputs + [input];
    if k :| 0 <= k < |inputs| && WentThrough(run, k + 1, inputs[k], t) { assert longer[k] == inputs[k]; }
    assert longer[|inputs|] == input;
  }

  /** The tables hold what the inputs amount to. */
  ghost predicate Tabled(selectors: seq<Bytes>, run: Runner, inputs: seq<Bytes>, corpus: seq<Bytes>,
                         coverage: seq<string>, lengths: Lengths) {
    && corpus == selectors + Kept(run, inputs) && lengths == LengthsAfter(run, inputs)
    && Distinct(coverage) && forall t :: t in coverage <==> EverWent(run, inputs, t)
  }

  /** Coverage grows by a round exactly when its input discovers something. */
  lemma RoundCovers(run: Runner, inputs: seq<Bytes>, coverage: seq<string>, input: Bytes)
    requires Distinct(coverage) && forall t :: t in coverage <==> EverWent(run, inputs, t)
    ensures var out := run(|inputs| + 1, input);
            var after := if out.reverted then coverage else AddCoverage(coverage, SerializeTransitions(out.dag));
            && Distinct(after) && (forall t :: t in after <==> EverWent(run, inputs + [input], t))
            && (|after| > |coverage| <==> Discovers(run, inputs, input))
  {
    var out := run(|inputs| + 1, input);
    var transitions := SerializeTransitions(out.dag);
    var after := if out.reverted then coverage else AddCoverage(coverage, transitions);
    AddCoverageExtends(coverage, transitions);
    forall t ensures t in after <==> EverWent(run, inputs + [input], t) { EverWentAppend(run, inputs, input, t); }
    if |after| > |coverage| {
      var t := after[|coverage|];
      assert t in after[|coverage|..] && t in transitions && WentThrough(run, |inputs| + 1, input, t);
    } else {
      assert after == coverage;
    }
    DistinctExtends(coverage, after);
  }

  lemma InputAppends(run: Runner, inputs: seq<Bytes>, input: Bytes)
    requires |input| >= 4
    ensures Kept(run, inputs + [input]) == Kept(run, inputs) + if Discovers(run, inputs, input) then [input] else []
    ensures LengthsAfter(run, inputs + [input])
         == NoteReads(LengthsAfter(run, inputs), input[..4], run(|inputs| + 1, input).offsets)
  {
    DropLastOfAppend(inputs, input);
  }

  lemma RoundTabled(selectors: seq<Bytes>, run: Runner, inputs: seq<Bytes>, corpus: seq<Bytes>, coverage: seq<string>,
                    lengths: Lengths, input: Bytes)
    requires Tabled(selectors, run, inputs, corpus, coverage, lengths) && |input| >= 4
    ensures var out := run(|inputs| + 1, input);
            var after := if out.reverted then coverage else AddCoverage(coverage, SerializeTransitions(out.dag));
            Tabled(selectors, run, inputs + [input], if |after| > |coverage| then corpus + [input] else corpus, after,
                   NoteReads(lengths, input[..4], out.offsets))
  {
    RoundCovers(run, inputs, coverage, input);
    InputAppends(run, inputs, input);
    assert selectors + (Kept(run, inputs) + [input]) == corpus + [input];
  }

  lemma DistinctExtends(before: seq<string>, after: seq<string>)
    requires Distinct(before) && Extends(before, after)
    ensures Distinct(after)
  {
    var added := after[|before|..];
    forall i, j | 0 <= i < j < |after| ensures after[i] != after[j] {
      if |before| <= i { assert added[i - |before|] != added[j - |before|]; }
      else if |before| <= j { assert added[j - |before|] in added; }
      else { assert before[i] != before[j]; }
    }
  }

  /** Runs one mutated input a round.  Its tables hold exactly what the inputs did: the coverage each
      transition that one of them went through without reverting, once; the corpus the selectors found
      in the bytecode and the inputs that discovered something; the lengths all they read.  So whatever
      it keeps calls one of those functions, and the corpus grows no faster than coverage. */
  method FuzzBlackbox(code: Bytes, run: Runner, rounds: nat)
    returns (corpus: seq<Bytes>, coverage: seq<string>, lengths: Lengths, ghost inputs: seq<Bytes>)
    requires BytecodeSweep.SelectorsFrom(code, 0) != []
    ensures var selectors := BytecodeSweep.SelectorsFrom(code, 0);
            && |inputs| == rounds && AllMutations(selectors, run, inputs)
            && Tabled(selectors, run, inputs, corpus, coverage, lengths)
    ensures var selectors := BytecodeSweep.SelectorsFrom(code, 0);
            && StateOk(selectors, corpus, lengths)
            && selectors <= corpus && |corpus| - |selectors| <= |coverage|
  {
    var selectors := BytecodeSweep.ExtractCallableFuncs(code);
    corpus, coverage, lengths, inputs := selectors, [], map[], [];
    SelectorsAreInputs(code);
    var exec := 0;
    while exec < rounds
      invariant exec == |inputs| <= rounds && AllMutations(selectors, run, inputs)
      invariant Tabled(selectors, run, inputs, corpus, coverage, lengths)
      invariant StateOk(selectors, corpus, lengths)
      invariant selectors <= corpus && |corpus| - |selectors| <= |coverage|
    {
      exec := exec + 1;
      ghost var input;
      corpus, coverage, lengths, input := BlackboxRound(run, exec, selectors, inputs, corpus, coverage, lengths);
      inputs := inputs + [input];
    }
  }

  method BlackboxRound(run: Runner, exec: nat, ghost selectors: seq<Bytes>, ghost inputs: seq<Bytes>,
                       corpus0: seq<Bytes>, coverage0: seq<string>, lengths0: Lengths)
    returns (corpus: seq<Bytes>, coverage: seq<string>, lengths: Lengths, ghost input: Bytes)
    requires exec == |inputs| + 1 && corpus0 != [] && StateOk(selectors, corpus0, lengths0)
    requires AllMutations(selectors, run, inputs) && Tabled(selectors, run, inputs, corpus0, coverage0, lengths0)
    ensures AllMutations(selectors, run, inputs + [input])
    ensures Tabled(selectors, run, inputs + [input], corpus, coverage, lengths)
    ensures StateOk(selectors, corpus, lengths)
    ensures corpus0 <= corpus && |corpus| - |corpus0| <= |coverage| - |coverage0|
  {
    var pick: nat :| pick < |corpus0|;
    var data, changed := Mutate(corpus0[pick], lengths0);
    input := data;
    var out := run(exec, data);
    RoundKeepsOk(selectors, corpus0, lengths0, pick, data, out.offsets);
    RoundTabled(selectors, run, inputs, corpus0, coverage0, lengths0, data);
    MutationAppend(selectors, run, inputs, corpus0, lengths0, pick, data, changed);
    corpus, coverage, lengths := corpus0, coverage0, NoteReads(lengths0, data[..4], out.offsets);
    if out.reverted {
      return;
    }
    var covChanged;
    coverage, covChanged := FuzzLoop.UpdateCoverage(coverage, SerializeTransitions(out.dag));
    if covChanged {
      corpus := corpus + [data];
    }
  }

  lemma MutationAppend(selectors: seq<Bytes>, run: Runner, inputs: seq<Bytes>, corpus: seq<Bytes>, lengths: Lengths,
                       pick: nat, input: Bytes, changed: set<nat>)
    requires AllMutations(selectors, run, inputs) && pick < |corpus|
    requires corpus == selectors + Kept(run, inputs) && lengths == LengthsAfter(run, inputs)
    requires Mutation(lengths, corpus[pick], input, changed)
    ensures AllMutations(selectors, run, inputs + [input])
  {
    DropLastOfAppend(inputs, input);
    assert corpus[pick] in selectors + Kept(run, inputs);
  }

  lemma SelectorsAreInputs(code: Bytes)
    ensures var selectors := BytecodeSweep.SelectorsFrom(code, 0);
            forall i :: 0 <= i < |selectors| ==> InputOk(selectors, selectors[i])
  {
    BytecodeSweep.SelectorsStandAt(code, 0);
    var selectors := BytecodeSweep.SelectorsFrom(code, 0);
    forall i | 0 <= i < |selectors| ensures InputOk(selectors, selectors[i]) {
      assert selectors[i][..4] == selectors[i];
    }
  }
}
