/** The engine as it runs: one global count of deployments, on which every deployment, and so every
    replay, draws. */
module Engine {
  import opened Common
  import opened AbiValues
  import opened StateManager
  import opened Fuzzer
  import opened Replay
  import opened Plays
  import opened Accounting
  import opened FuzzLoop

  lemma {:induction false} InitialCorpusAppend(contracts: seq<Contract>, c: Contract, idx: nat)
    ensures InitialCorpus(contracts + [c], idx)
              == InitialCorpus(contracts, idx) + Items(c, c.abi.methods, idx + |contracts|)
  {
    if contracts == [] {
      assert contracts + [c] == [c];
    } else {
      assert (contracts + [c])[1..] == contracts[1..] + [c];
      InitialCorpusAppend(contracts[1..], c, idx + 1);
    }
  }

  lemma DeployStep(w: World, prefixes: seq<Prefix>, counter: nat, i: nat)
    requires i < |prefixes|
    ensures ContractInfo(w, prefixes[..i + 1], counter)
         == Deploy(w, ContractInfo(w, prefixes[..i], counter), prefixes[i])
  {
    assert prefixes[..i + 1][..i] == prefixes[..i];
  }

  /** Seeding the testcases from a position on, from this count and campaign, leads to the given end. */
  ghost predicate LeadsTo(w: World, prefixes: seq<Prefix>, contracts: seq<Contract>, counter: nat,
                          testcases: seq<string>, i: nat, c: Campaign, seeded: Option<Campaign>)
    requires |contracts| == |prefixes| && i <= |testcases|
  {
    Seed(w, prefixes, contracts, counter, testcases[i..], c) == seeded
  }

  lemma LeadsFromStart(w: World, prefixes: seq<Prefix>, contracts: seq<Contract>, counter: nat, testcases: seq<string>,
                       c: Campaign)
    requires |contracts| == |prefixes|
    ensures LeadsTo(w, prefixes, contracts, counter, testcases, 0, c,
                    Seed(w, prefixes, contracts, counter, testcases, c))
  {
    assert testcases[0..] == testcases;
  }

  lemma LeadsOn(w: World, prefixes: seq<Prefix>, contracts: seq<Contract>, counter: nat, testcases: seq<string>, i: nat,
                c: Campaign, seeded: Option<Campaign>, thrown: bool, later: nat, next: Campaign)
    requires |contracts| == |prefixes| && i < |testcases| && later == counter + |prefixes|
    requires LeadsTo(w, prefixes, contracts, counter, testcases, i, c, seeded)
    requires SeedOne(w, prefixes, contracts, counter, testcases[i], c) == if thrown then None else Some(next)
    ensures thrown ==> seeded.None?
    ensures !thrown ==> LeadsTo(w, prefixes, contracts, later, testcases, i + 1, next, seeded)
  {
    SeedContinues(w, prefixes, contracts, counter, testcases[i..], c);
    assert testcases[i..][1..] == testcases[i + 1..] && testcases[i..][0] == testcases[i];
  }

  /** The deployment count after a number of replays. */
  function CountAfter(count: nat, replays: nat, contracts: nat): nat {
    if replays == 0 then count else CountAfter(count, replays - 1, contracts) + contracts
  }

  class FuzzEngine {
    var deployedCount: nat

    constructor ()
      ensures deployedCount == 0
    {
      deployedCount := 0;
    }

    method DeployContract(w: World, prefix: Prefix, state: State) returns (c: Contract, after: State)
      modifies this
      ensures deployedCount == old(deployedCount) + 1
      ensures Deploy(w, Deployment([], state, old(deployedCount)), prefix) == Deployment([c], after, deployedCount)
    {
      deployedCount := deployedCount + 1;
      var self := ToAddress(deployedCount);
      var out := w.evm(EvmInput(prefix.bin, [], DEPLOYER, self, state));
      c, after := Contract(out.returned, self, prefix.abi), out.state;
    }

    /** Deploys the contracts and collects an item for each of their methods. */
    method GetContractInfo(w: World, prefixes: seq<Prefix>)
      returns (contracts: seq<Contract>, state: State, corpus: seq<Item>)
      modifies this
      ensures ContractInfo(w, prefixes, old(deployedCount)) == Deployment(contracts, state, deployedCount)
      ensures corpus == InitialCorpus(contracts, 0)
    {
      contracts, state, corpus := [], FRESH_STATE, [];
      var i := 0;
      assert prefixes[..0] == [];
      while i < |prefixes|
        invariant i <= |prefixes| && |contracts| == i
        invariant ContractInfo(w, prefixes[..i], old(deployedCount)) == Deployment(contracts, state, deployedCount)
        invariant corpus == InitialCorpus(contracts, 0)
      {
        var c;
        DeployStep(w, prefixes, old(deployedCount), i);
        c, state := DeployContract(w, prefixes[i], state);
        InitialCorpusAppend(contracts, c, 0);
        corpus := PushItems(corpus, c, i);
        contracts := contracts + [c];
        i := i + 1;
      }
      assert prefixes[..|prefixes|] == prefixes;
    }

    /** Loads a recorded transaction into a new deployment and runs it with its oracles.  The answer is
        the verdict that the EVM's transcript of the call tells. */
    method RerunText(w: World, prefixes: seq<Prefix>, text: string) returns (r: ReplayResult)
      modifies this
      ensures r == Rerun(w, prefixes, old(deployedCount), text)
      ensures AnswersAsTold(w, prefixes, old(deployedCount), text, r)
      ensures deployedCount == old(deployedCount) + |prefixes|
    {
      Deployed(w, prefixes, deployedCount);
      RerunAsTold(w, prefixes, deployedCount, text);
      var contracts, state, _ := GetContractInfo(w, prefixes);
      var parsed := w.fromText(text);
      if parsed.None? { return Thrown; }
      var txn := parsed.value;
      if txn.idx >= |contracts| { return Thrown; }
      var c := contracts[txn.idx];
      var found := Named(c.abi.methods, txn.name);
      if |found| != 1 { return Null; }
      var restored := DeserializeAll(CopyAll(found[0].abis), txn.args);
      if restored.AllFailed? { return Thrown; }
      var data := CallData(w, c, txn.name, restored.abis);
      var _, after, dag := RunTransaction(w, c, data, txn.caller, state.(contents := txn.sm));
      var verdict := RunOraclesInTurn(w, c, txn.caller, after, dag);
      r := Replayed(if verdict.violated then verdict.oracle else "", verdict.dag, restored.abis);
    }

    /** Replays one known testcase on a deployment of its own. */
    method SeedTestcase(w: World, prefixes: seq<Prefix>, contracts: seq<Contract>, testcase: string, ghost c: Campaign,
                        corpus0: seq<Item>, coverage0: seq<string>)
      returns (thrown: bool, corpus: seq<Item>, coverage: seq<string>)
      requires |contracts| == |prefixes| && c.corpus == corpus0 && c.coverage == coverage0
      modifies this
      ensures deployedCount == old(deployedCount) + |prefixes|
      ensures SeedOne(w, prefixes, contracts, old(deployedCount), testcase, c)
           == if thrown then None else Some(c.(corpus := corpus, coverage := coverage))
    {
      Deployed(w, prefixes, deployedCount);
      corpus, coverage := corpus0, coverage0;
      var r := RerunText(w, prefixes, testcase);
      match r {
        case Thrown => return true, [], [];
        case Null =>
        case Replayed(_, dag, args) =>
          var txn := w.fromText(testcase).value;
          coverage := coverage + SerializeTransitions(dag);
          corpus := corpus + [Item(contracts[txn.idx], txn.name, args, txn.idx)];
      }
      thrown := false;
    }

    /** Replays the known testcases before the first round, up to the first malformed one. */
    method SeedTestcases(w: World, prefixes: seq<Prefix>, contracts: seq<Contract>, testcases: seq<string>,
                         corpus0: seq<Item>)
      returns (thrown: bool, corpus: seq<Item>, coverage: seq<string>, ghost replayed: nat)
      requires |contracts| == |prefixes|
      modifies this
      ensures var c := Campaign(corpus0, [], [], map[], [], []);
              Seed(w, prefixes, contracts, old(deployedCount), testcases, c)
              == if thrown then None else Some(c.(corpus := corpus, coverage := coverage))
      ensures replayed <= |testcases| && (!thrown ==> replayed == |testcases|)
      ensures deployedCount == CountAfter(old(deployedCount), replayed, |prefixes|)
    {
      ghost var start := Campaign(corpus0, [], [], map[], [], []);
      ghost var c, seeded := start, Seed(w, prefixes, contracts, deployedCount, testcases, start);
      LeadsFromStart(w, prefixes, contracts, deployedCount, testcases, start);
      corpus, coverage := corpus0, [];
      var i := 0;
      while i < |testcases|
        invariant i <= |testcases| && deployedCount == CountAfter(old(deployedCount), i, |prefixes|)
        invariant c == start.(corpus := corpus, coverage := coverage)
        invariant LeadsTo(w, prefixes, contracts, deployedCount, testcases, i, c, seeded)
      {
        ghost var counter := deployedCount;
        thrown, corpus, coverage := SeedTestcase(w, prefixes, contracts, testcases[i], c, corpus, coverage);
        ghost var next := c.(corpus := corpus, coverage := coverage);
        LeadsOn(w, prefixes, contracts, counter, testcases, i, c, seeded, thrown, deployedCount, next);
        if thrown { return true, [], [], i + 1; }
        c := next;
        i := i + 1;
      }
      thrown, replayed := false, i;
    }

    /** A whole campaign.  Whatever the EVM does and whatever is drawn, its tables are accounted for
        by `end`, a campaign reached from the deployment count it started with, and each finding it
        returns or reports replays from that count to its own oracle. */
    method FuzzCampaign(w: World, prefixes: seq<Prefix>, testcases: seq<string>, rounds: nat)
      returns (thrown: bool, t: Tables, ghost draws: seq<Draw>, ghost plays: seq<Play>, ghost end: Campaign)
      requires Invertible(w)
      requires var start := Start(w, prefixes, deployedCount, testcases);
               start.Some? ==> Playable(start.value.corpus)
      modifies this
      ensures thrown == Start(w, prefixes, old(deployedCount), testcases).None?
      ensures !thrown ==> deployedCount == CountAfter(old(deployedCount) + |prefixes|, |testcases|, |prefixes|)
      ensures !thrown ==> |draws| == rounds && Reached(w, prefixes, old(deployedCount), testcases, draws, end)
      ensures !thrown ==> t == TablesOf(end) && FindingsAccounted(end)
      ensures !thrown ==>
                var start := Start(w, prefixes, old(deployedCount), testcases).value;
                var base := ContractInfo(w, prefixes, old(deployedCount)).state;
                && Played(w, base, start, draws, plays) && end.history == Executions(w, base, plays)
                && CoverageAccounted(w, base, start, end)
      ensures !thrown ==> AllReplay(w, prefixes, old(deployedCount), t)
    {
      ghost var counter := deployedCount;
      Deployed(w, prefixes, counter);
      var contracts, base, items := GetContractInfo(w, prefixes);
      var corpus, coverage;
      ghost var replayed;
      thrown, corpus, coverage, replayed := SeedTestcases(w, prefixes, contracts, testcases, items);
      var start := Campaign(corpus, coverage, [], map[], [], []);
      if thrown { return true, TablesOf(start), [], [], start; }
      t, draws, plays := Fuzz(w, base, start, rounds);
      end := Rounds(w, base, start, draws);
      FindingsReplay(w, prefixes, counter, testcases, draws, end);
      plays := ReachedCampaigns(w, prefixes, counter, testcases, draws, end);
    }
  }

  /** Each finding kept or reported replays, from the deployment count given, to its own oracle. */
  ghost predicate AllReplay(w: World, prefixes: seq<Prefix>, counter: nat, t: Tables) {
    && (forall oracle :: oracle in t.vulns ==> ReplaysTo(w, prefixes, counter, t.vulns[oracle], oracle))
    && (forall k :: 0 <= k < |t.reports| ==> ReplaysTo(w, prefixes, counter, t.reports[k].1, t.reports[k].0))
  }

  /** Pushes one item per method. */
  method PushItems(corpus: seq<Item>, c: Contract, idx: nat) returns (after: seq<Item>)
    ensures after == corpus + Items(c, c.abi.methods, idx)
  {
    after := corpus;
    var methods := c.abi.methods;
    var j := 0;
    while j < |methods|
      invariant j <= |methods| && after + Items(c, methods[j..], idx) == corpus + Items(c, methods, idx)
    {
      assert methods[j..][1..] == methods[j + 1..];
      after := after + [Item(c, methods[j].name, methods[j].abis, idx)];
      j := j + 1;
    }
  }
}
