/** The fuzzing loop itself, over local tables it updates in place, with every random draw arbitrary. */
module FuzzLoop {
  import opened Common
  import opened Decimal
  import opened AbiValues
  import opened StateManager
  import opened Fuzzer
  import opened Snapshots
  import opened Transcripts
  import opened Plays

  /** Runs the oracles until one answers true. */
  method RunOraclesInTurn(w: World, c: Contract, caller: Address, state: State, dag: seq<Edge>)
    returns (verdict: Verdict)
    ensures verdict == RunOracles(w, c, c.abi.oracles, caller, state, dag)
  {
    var s, edges := state, dag;
    var i := 0;
    while i < |c.abi.oracles|
      invariant i <= |c.abi.oracles|
      invariant RunOracles(w, c, c.abi.oracles[i..], caller, s, edges)
                == RunOracles(w, c, c.abi.oracles, caller, state, dag)
    {
      var name := c.abi.oracles[i];
      var out := w.evm(EvmInput(c.code, w.encodeCall(c.abi, name, []), caller, c.address, s));
      s, edges := out.state, edges + out.dag;
      if w.isTrue(out.returned) {
        return Verdict(true, name, edges);
      }
      i := i + 1;
    }
    verdict := Verdict(false, "", edges);
  }

  method RunTransaction(w: World, c: Contract, data: Bytes, caller: Address, state: State)
    returns (reverted: bool, after: State, dag: seq<Edge>)
    ensures Transacted(reverted, after, dag) == Transact(w, c, data, caller, state)
  {
    var s := state.(ckpt := Some(state.contents));
    var out := w.evm(EvmInput(c.code, data, caller, c.address, s));
    reverted, after, dag := out.failed, out.state, out.dag;
    if reverted {
      after := Step(after, Op.Revert);
    }
  }

  /** What a transaction leaves, whatever operations the EVM performed on the state: all they did, and
      after an exception the contents it began with, or those of the EVM's own last checkpoint. */
  lemma TransactionLeaves(w: World, c: Contract, data: Bytes, caller: Address, s: State, ops: seq<Op>)
    requires w.evm(EvmInput(c.code, data, caller, c.address, Step(s, Op.Checkpoint))).state
             == Run(Step(s, Op.Checkpoint), ops)
    ensures var out := w.evm(EvmInput(c.code, data, caller, c.address, Step(s, Op.Checkpoint)));
            var left := Transact(w, c, data, caller, s);
            && left.reverted == out.failed && left.dag == out.dag
            && left.state.contents == Run(Step(s, Op.Checkpoint), Standing(out.failed, ops)).contents
  {
    SnapshotIsLastCheckpoint(Step(s, Op.Checkpoint), ops);
  }

  /** Appends what is new, and tells whether anything was. */
  method UpdateCoverage(known: seq<string>, transitions: seq<string>) returns (coverage: seq<string>, changed: bool)
    ensures coverage == AddCoverage(known, transitions) && known <= coverage && changed == (|coverage| > |known|)
  {
    coverage, changed := known, false;
    var i := 0;
    while i < |transitions|
      invariant i <= |transitions|
      invariant AddCoverage(coverage, transitions[i..]) == AddCoverage(known, transitions)
      invariant known <= coverage && changed == (|coverage| > |known|)
    {
      if transitions[i] !in coverage {
        coverage := coverage + [transitions[i]];
        changed := true;
      }
      assert transitions[i..][1..] == transitions[i + 1..];
      i := i + 1;
    }
  }

  /** What the constructors and non-empty parameter lists give every item's arguments. */
  ghost predicate AllDrawable(corpus: seq<Item>) {
    forall i :: 0 <= i < |corpus| ==> corpus[i].args != [] && forall a :: a in corpus[i].args ==> Drawable(a)
  }

  lemma DrawKeepsDrawable(args: seq<Abi>, after: seq<Abi>)
    requires ArgsMutateTo(args, after) && args != [] && forall a :: a in args ==> Drawable(a)
    ensures after != [] && forall a :: a in after ==> Drawable(a)
  {
    forall i | 0 <= i < |after| ensures Drawable(after[i]) {
      if after[i] != args[i] { MutationKeepsForm(args[i], after[i]); }
      else { assert after[i] in args; }
    }
  }

  lemma {:induction false} FairDrawsAppend(w: World, base: State, c: Campaign, draws: seq<Draw>, d: Draw)
    requires FairDraws(w, base, c, draws) && Fair(Rounds(w, base, c, draws), d)
    ensures FairDraws(w, base, c, draws + [d])
    ensures var c' := Rounds(w, base, c, draws); Rounds(w, base, c, draws + [d]) == Round(w, base, c', d.pick, d.args)
    decreases |draws|
  {
    if draws == [] {
      assert draws + [d] == [d];
    } else {
      assert (draws + [d])[1..] == draws[1..] + [d];
      FairDrawsAppend(w, base, Round(w, base, c, draws[0].pick, draws[0].args), draws[1..], d);
    }
  }

  /** The loop's local tables. */
  datatype Tables = Tables(
    corpus: seq<Item>,
    coverage: seq<string>,
    testcases: seq<string>,
    vulns: map<string, string>,
    reports: seq<(string, string)>)

  function TablesOf(c: Campaign): Tables {
    Tables(c.corpus, c.coverage, c.testcases, c.vulns, c.reports)
  }

  /** Corpus and coverage only grew, and the corpus no faster. */
  ghost predicate Grown(before: Tables, after: Tables) {
    && before.corpus <= after.corpus && before.coverage <= after.coverage
    && |after.corpus| - |before.corpus| <= |after.coverage| - |before.coverage|
  }

  /** There is something to pick, and whatever is picked can be mutated. */
  ghost predicate Playable(corpus: seq<Item>) {
    corpus != [] && AllDrawable(corpus)
  }

  /** Mutates a copy of the picked item's arguments. */
  method DrawArgs(item: Item) returns (args: seq<Abi>)
    requires item.args != [] && forall a :: a in item.args ==> Drawable(a)
    ensures ArgsMutateTo(item.args, args) && args != [] && forall a :: a in args ==> Drawable(a)
  {
    CopyAllIsIdentity(item.args);
    args := MutateAbis(CopyAll(item.args));
    DrawKeepsDrawable(item.args, args);
  }

  /** Enters one execution that was not rolled back into the tables. */
  method Enter(w: World, base: State, ghost c: Campaign, item: Item, args: seq<Abi>, verdict: Verdict, before: Tables)
    returns (t: Tables)
    requires before == TablesOf(c)
    ensures t == TablesOf(Counted(w, base, c, item, args, verdict)) && Grown(before, t)
    ensures t.corpus == before.corpus || t.corpus == before.corpus + [Item(item.contract, item.name, args, item.idx)]
  {
    var coverage, changed := UpdateCoverage(before.coverage, SerializeTransitions(verdict.dag));
    t := before.(coverage := coverage);
    var text := "";
    if verdict.violated || changed {
      text := w.toText(Txn(item.name, SerializeAll(args), base.contents, CALLER, item.idx));
    }
    if verdict.violated {
      if verdict.oracle !in t.vulns {
        t := t.(reports := t.reports + [(verdict.oracle, text)]);
        t := t.(vulns := t.vulns[verdict.oracle := text]);
      } else if |t.vulns[verdict.oracle]| > |text| {
        t := t.(vulns := t.vulns[verdict.oracle := text]);
      }
    }
    if changed {
      t := t.(corpus := t.corpus + [Item(item.contract, item.name, args, item.idx)]);
      t := t.(testcases := t.testcases + [text]);
    }
  }

  /** One round: pick, mutate a copy, run it, and enter what it did. */
  method FuzzRound(w: World, base: State, ghost c: Campaign, before: Tables) returns (t: Tables, ghost d: Draw)
    requires before == TablesOf(c) && Playable(before.corpus)
    ensures Fair(c, d) && t == TablesOf(Round(w, base, c, d.pick, d.args))
    ensures Grown(before, t) && Playable(t.corpus)
  {
    var pick: nat :| pick < |before.corpus|;
    var item := before.corpus[pick];
    var args := DrawArgs(item);
    d := Draw(pick, args);
    var data := CallData(w, item.contract, item.name, args);
    var reverted, after, dag := RunTransaction(w, item.contract, data, CALLER, base.(ckpt := None));
    if reverted {
      return before, d;
    }
    var verdict := RunOraclesInTurn(w, item.contract, CALLER, after, dag);
    t := Enter(w, base, c, item, args, verdict, before);
  }

  /** The loop, for any number of rounds.  Whatever it draws, its tables end as the campaign those
      draws lead to; `draws` records them, and `plays` what each round had the EVM do. */
  method Fuzz(w: World, base: State, start: Campaign, rounds: nat)
    returns (t: Tables, ghost draws: seq<Draw>, ghost plays: seq<Play>)
    requires Playable(start.corpus)
    ensures |draws| == rounds && FairDraws(w, base, start, draws) && t == TablesOf(Rounds(w, base, start, draws))
    ensures Played(w, base, start, draws, plays) && Recounts(w, base, start, plays, Rounds(w, base, start, draws))
    ensures Grown(TablesOf(start), t)
  {
    t, draws := TablesOf(start), [];
    var exec := 0;
    while exec < rounds
      invariant exec == |draws| <= rounds && FairDraws(w, base, start, draws)
      invariant t == TablesOf(Rounds(w, base, start, draws)) && Playable(t.corpus) && Grown(TablesOf(start), t)
    {
      exec := exec + 1;
      ghost var d;
      t, d := FuzzRound(w, base, Rounds(w, base, start, draws), t);
      FairDrawsAppend(w, base, start, draws, d);
      draws := draws + [d];
    }
    plays := RunsAsPlayed(w, base, start, draws);
  }
}
