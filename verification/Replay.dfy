/** Why a recorded transaction can be replayed: the loop only ever runs copies of the state it
    records, and the arguments it records keep the shape that replay reads them into. */
module Replay {
  import opened Common
  import opened Decimal
  import opened AbiValues
  import opened StateManager
  import opened Fuzzer
  import opened Transcripts

  // ------------------------------------------------------------------ items the loop can hold

  ghost predicate TemplateFor(c: Contract, name: string, args: seq<Abi>) {
    exists i :: 0 <= i < |c.abi.methods| && c.abi.methods[i].name == name && SameShapes(c.abi.methods[i].abis, args)
  }

  /** An item calls a deployed contract's method with arguments of that method's shape. */
  ghost predicate WellFormed(contracts: seq<Contract>, item: Item) {
    && item.idx < |contracts| && item.contract == contracts[item.idx]
    && TemplateFor(item.contract, item.name, item.args)
  }

  ghost predicate AllWellFormed(contracts: seq<Contract>, corpus: seq<Item>) {
    forall i :: 0 <= i < |corpus| ==> WellFormed(contracts, corpus[i])
  }

  lemma ShapesReflexive(abis: seq<Abi>)
    ensures SameShapes(abis, abis)
  {
    forall i | 0 <= i < |abis| ensures SameShape(abis[i], abis[i]) { SameShapeReflexive(abis[i]); }
    ShapesAt(abis, abis);
  }

  lemma ArgsKeepShape(abis: seq<Abi>, args: seq<Abi>, after: seq<Abi>)
    requires SameShapes(abis, args) && ArgsMutateTo(args, after)
    ensures SameShapes(abis, after)
  {
    ShapesAt(abis, args);
    forall i | 0 <= i < |abis| ensures SameShape(abis[i], after[i]) {
      if after[i] != args[i] {
        MutationKeepsForm(args[i], after[i]);
        SameShapeTransitive(abis[i], args[i], after[i]);
      }
    }
    ShapesAt(abis, after);
  }

  lemma {:induction false} NamedFinds(methods: seq<Method>, name: string, i: nat)
    requires i < |methods| && methods[i].name == name
    ensures Named(methods, name) != [] && (|Named(methods, name)| == 1 ==> Named(methods, name)[0] == methods[i])
  {
    if i > 0 {
      NamedFinds(methods[1..], name, i - 1);
    }
  }

  lemma {:induction false} NamedIsMethod(methods: seq<Method>, name: string) returns (i: nat)
    requires Named(methods, name) != []
    ensures i < |methods| && methods[i].name == name && methods[i] == Named(methods, name)[0]
  {
    if methods[0].name == name {
      i := 0;
    } else {
      i := NamedIsMethod(methods[1..], name);
      i := i + 1;
    }
  }

  // ------------------------------------------------------------------ one recorded transaction

  /** Several methods of the contract share the name. */
  predicate Ambiguous(c: Contract, name: string) {
    |Named(c.abi.methods, name)| > 1
  }

  /** Mutated arguments survive saving and reading back into the method they are for. */
  lemma TemplateRestores(c: Contract, name: string, args: seq<Abi>, after: seq<Abi>)
    requires TemplateFor(c, name, args) && ArgsMutateTo(args, after)
    ensures TemplateFor(c, name, after)
    ensures var found := Named(c.abi.methods, name);
            found != [] &&
            (|found| == 1 ==> DeserializeAll(CopyAll(found[0].abis), SerializeAll(after)) == AllRestored(after))
  {
    var methods := c.abi.methods;
    var i :| 0 <= i < |methods| && methods[i].name == name && SameShapes(methods[i].abis, args);
    NamedFinds(methods, name, i);
    ArgsKeepShape(methods[i].abis, args, after);
    CopyAllIsIdentity(methods[i].abis);
    RoundTripAll(methods[i].abis, after);
  }

  lemma RecordReplaysOn(w: World, d: Deployment, item: Item, args: seq<Abi>)
    requires WellFormed(d.contracts, item) && ArgsMutateTo(item.args, args)
    ensures var verdict := Told(w, item.contract, item.name, args, CALLER, d.state.contents);
            RerunOn(w, d, Txn(item.name, SerializeAll(args), d.state.contents, CALLER, item.idx)) ==
              if Ambiguous(item.contract, item.name) then Null
              else Replayed(if verdict.violated then verdict.oracle else "", verdict.dag, args)
  {
    TemplateRestores(item.contract, item.name, item.args, args);
    ExecuteAsTold(w, item.contract, item.name, args, CALLER, d.state.(contents := d.state.contents));
  }

  /** Replaying what a round records reproduces what the EVM did in it, its oracle and its edges,
      unless several methods of the contract share the recorded name: then replay declines. */
  lemma RecordReplays(w: World, prefixes: seq<Prefix>, counter: nat, item: Item, args: seq<Abi>)
    requires Invertible(w)
    requires WellFormed(ContractInfo(w, prefixes, counter).contracts, item)
    requires ArgsMutateTo(item.args, args)
    ensures var base := ContractInfo(w, prefixes, counter).state;
            var text := w.toText(Txn(item.name, SerializeAll(args), base.contents, CALLER, item.idx));
            var verdict := Told(w, item.contract, item.name, args, CALLER, base.contents);
            Rerun(w, prefixes, counter, text) ==
              if Ambiguous(item.contract, item.name) then Null
              else Replayed(if verdict.violated then verdict.oracle else "", verdict.dag, args)
  {
    RecordReplaysOn(w, ContractInfo(w, prefixes, counter), item, args);
  }

  /** The contract has exactly one method of that name, this one. */
  predicate OnlyMethod(methods: seq<Method>, name: string, i: nat) {
    i < |methods| && forall j :: 0 <= j < |methods| ==> (methods[j].name == name <==> j == i)
  }

  lemma {:induction false} NamedUnique(methods: seq<Method>, name: string)
    ensures |Named(methods, name)| == 0 <==> forall j :: 0 <= j < |methods| ==> methods[j].name != name
    ensures |Named(methods, name)| == 1 <==> exists i: nat :: OnlyMethod(methods, name, i)
  {
    if methods != [] {
      var rest := methods[1..];
      NamedUnique(rest, name);
      assert forall j :: 0 <= j < |rest| ==> rest[j] == methods[j + 1];
      if i: nat :| OnlyMethod(rest, name, i) {
        if methods[0].name != name { assert OnlyMethod(methods, name, i + 1); }
      }
      if i: nat :| OnlyMethod(methods, name, i) {
        if i > 0 { assert OnlyMethod(rest, name, i - 1); }
      } else if methods[0].name == name && |Named(rest, name)| == 0 {
        assert OnlyMethod(methods, name, 0);
      }
    }
  }

  /** What replaying any text answers, on a fresh deployment from this counter: the verdict that the
      transcript of the recorded call tells, or why there is none. */
  ghost predicate AnswersAsTold(w: World, prefixes: seq<Prefix>, counter: nat, text: string, r: ReplayResult) {
    var contracts := ContractInfo(w, prefixes, counter).contracts;
    match w.fromText(text)
    case None => r == Thrown
    case Some(txn) =>
      if txn.idx >= |contracts| then r == Thrown
      else
        var c := contracts[txn.idx];
        && (r == Null <==> !exists i: nat :: OnlyMethod(c.abi.methods, txn.name, i))
        && forall i: nat :: OnlyMethod(c.abi.methods, txn.name, i) ==>
             match DeserializeAll(c.abi.methods[i].abis, txn.args)
             case AllFailed => r == Thrown
             case AllRestored(args) =>
               var verdict := Told(w, c, txn.name, args, txn.caller, txn.sm);
               r == Replayed(if verdict.violated then verdict.oracle else "", verdict.dag, args)
  }

  lemma RerunAsTold(w: World, prefixes: seq<Prefix>, counter: nat, text: string)
    ensures AnswersAsTold(w, prefixes, counter, text, Rerun(w, prefixes, counter, text))
  {
    var d := ContractInfo(w, prefixes, counter);
    if w.fromText(text).Some? && w.fromText(text).value.idx < |d.contracts| {
      var txn := w.fromText(text).value;
      var c := d.contracts[txn.idx];
      NamedUnique(c.abi.methods, txn.name);
      forall i: nat | OnlyMethod(c.abi.methods, txn.name, i)
        ensures |Named(c.abi.methods, txn.name)| == 1 && Named(c.abi.methods, txn.name)[0] == c.abi.methods[i]
      {
        NamedFinds(c.abi.methods, txn.name, i);
      }
      if i: nat :| OnlyMethod(c.abi.methods, txn.name, i) {
        CopyAllIsIdentity(c.abi.methods[i].abis);
        var r := DeserializeAll(c.abi.methods[i].abis, txn.args);
        if r.AllRestored? {
          ExecuteAsTold(w, c, txn.name, r.abis, txn.caller, d.state.(contents := txn.sm));
        }
      }
    }
  }

  // ------------------------------------------------------------------ whole campaigns

  /** The record replays on a fresh deployment that starts from the same counter. */
  ghost predicate ReplaysTruly(w: World, prefixes: seq<Prefix>, counter: nat, e: Execution) {
    var contracts := ContractInfo(w, prefixes, counter).contracts;
    match w.fromText(e.text)
    case None => false
    case Some(txn) =>
      && txn.idx < |contracts|
      && match Rerun(w, prefixes, counter, e.text)
         case Replayed(oracle, dag, _) =>
           && !Ambiguous(contracts[txn.idx], txn.name) && dag == e.verdict.dag
           && oracle == (if e.verdict.violated then e.verdict.oracle else "")
         case Null => Ambiguous(contracts[txn.idx], txn.name)
         case Thrown => false
  }

  ghost predicate Replayable(w: World, prefixes: seq<Prefix>, counter: nat, c: Campaign) {
    && AllWellFormed(ContractInfo(w, prefixes, counter).contracts, c.corpus)
    && forall i :: 0 <= i < |c.history| ==> ReplaysTruly(w, prefixes, counter, c.history[i])
  }

  lemma RoundKeepsReplayable(w: World, prefixes: seq<Prefix>, counter: nat, c: Campaign, d: Draw)
    requires Invertible(w) && Replayable(w, prefixes, counter, c) && Fair(c, d)
    ensures Replayable(w, prefixes, counter, Round(w, ContractInfo(w, prefixes, counter).state, c, d.pick, d.args))
  {
    var deployment := ContractInfo(w, prefixes, counter);
    var item := c.corpus[d.pick];
    assert WellFormed(deployment.contracts, item);
    TemplateRestores(item.contract, item.name, item.args, d.args);
    assert WellFormed(deployment.contracts, Item(item.contract, item.name, d.args, item.idx));
    var after := Round(w, deployment.state, c, d.pick, d.args);
    if after.history != c.history {
      RecordReplays(w, prefixes, counter, item, d.args);
      assert ReplaysTruly(w, prefixes, counter, after.history[|c.history|]);
    }
  }

  lemma {:induction false} RoundsKeepReplayable(w: World, prefixes: seq<Prefix>, counter: nat, c: Campaign,
                                                draws: seq<Draw>)
    requires Invertible(w) && Replayable(w, prefixes, counter, c)
    requires FairDraws(w, ContractInfo(w, prefixes, counter).state, c, draws)
    ensures Replayable(w, prefixes, counter, Rounds(w, ContractInfo(w, prefixes, counter).state, c, draws))
    decreases |draws|
  {
    if draws != [] {
      RoundKeepsReplayable(w, prefixes, counter, c, draws[0]);
      RoundsKeepReplayable(w, prefixes, counter,
        Round(w, ContractInfo(w, prefixes, counter).state, c, draws[0].pick, draws[0].args), draws[1..]);
    }
  }

  lemma {:induction false} ItemsWellFormed(contracts: seq<Contract>, idx: nat, methods: seq<Method>, skipped: nat)
    requires idx < |contracts| && skipped + |methods| == |contracts[idx].abi.methods|
    requires contracts[idx].abi.methods[skipped..] == methods
    ensures AllWellFormed(contracts, Items(contracts[idx], methods, idx))
  {
    if methods != [] {
      assert contracts[idx].abi.methods[skipped + 1..] == methods[1..];
      ItemsWellFormed(contracts, idx, methods[1..], skipped + 1);
      ShapesReflexive(methods[0].abis);
      assert contracts[idx].abi.methods[skipped] == methods[0];
      assert WellFormed(contracts, Items(contracts[idx], methods, idx)[0]);
    }
  }

  lemma {:induction false} InitialWellFormed(contracts: seq<Contract>, rest: seq<Contract>, idx: nat)
    requires idx + |rest| == |contracts| && contracts[idx..] == rest
    ensures AllWellFormed(contracts, InitialCorpus(rest, idx))
  {
    if rest != [] {
      assert contracts[idx + 1..] == rest[1..];
      InitialWellFormed(contracts, rest[1..], idx + 1);
      assert contracts[idx] == rest[0];
      ItemsWellFormed(contracts, idx, rest[0].abi.methods, 0);
    }
  }

  /** Reading saved values into a method's arguments keeps their shape. */
  lemma {:induction false} DeserializeKeepsShape(a: Abi, s: Saved)
    ensures Deserialize(a, s).Restored? ==> SameShape(a, Deserialize(a, s).abi)
    decreases a, 1
  {
    if a.Tuple? && s.SavedTuple? { DeserializeAllKeepsShape(a.objs, s.objs); }
  }

  lemma {:induction false} DeserializeAllKeepsShape(abis: seq<Abi>, saved: seq<Saved>)
    ensures DeserializeAll(abis, saved).AllRestored? ==> SameShapes(abis, DeserializeAll(abis, saved).abis)
    decreases abis, 0
  {
    if abis != [] && saved != [] {
      DeserializeKeepsShape(abis[0], saved[0]);
      DeserializeAllKeepsShape(abis[1..], saved[1..]);
    }
  }

  /** The contracts a deployment of the prefixes makes, as far as their methods go. */
  ghost predicate Deploys(prefixes: seq<Prefix>, contracts: seq<Contract>) {
    |contracts| == |prefixes| && forall j :: 0 <= j < |prefixes| ==> contracts[j].abi == prefixes[j].abi
  }

  /** A replay on another deployment of the same contracts names a method of the same shape. */
  lemma ReplayedIsWellFormed(w: World, prefixes: seq<Prefix>, contracts: seq<Contract>, counter: nat, text: string)
    requires Deploys(prefixes, contracts) && Rerun(w, prefixes, counter, text).Replayed?
    ensures var txn := w.fromText(text).value;
            txn.idx < |contracts| &&
            WellFormed(contracts, Item(contracts[txn.idx], txn.name, Rerun(w, prefixes, counter, text).args, txn.idx))
  {
    var txn := w.fromText(text).value;
    Deployed(w, prefixes, counter);
    var methods := prefixes[txn.idx].abi.methods;
    assert ContractInfo(w, prefixes, counter).contracts[txn.idx].abi == prefixes[txn.idx].abi;
    assert contracts[txn.idx].abi == prefixes[txn.idx].abi;
    var i := NamedIsMethod(methods, txn.name);
    CopyAllIsIdentity(methods[i].abis);
    DeserializeAllKeepsShape(methods[i].abis, txn.args);
  }

  /** Seeding adds well-formed items and coverage, and nothing else. */
  ghost predicate SeededFrom(contracts: seq<Contract>, before: Campaign, after: Option<Campaign>) {
    after.Some? ==> AllWellFormed(contracts, after.value.corpus)
                    && after.value == before.(corpus := after.value.corpus, coverage := after.value.coverage)
  }

  lemma SeedOneWellFormed(w: World, prefixes: seq<Prefix>, contracts: seq<Contract>, counter: nat, testcase: string,
                          c: Campaign)
    requires Deploys(prefixes, contracts) && AllWellFormed(contracts, c.corpus)
    ensures SeededFrom(contracts, c, SeedOne(w, prefixes, contracts, counter, testcase, c))
  {
    if Rerun(w, prefixes, counter, testcase).Replayed? {
      ReplayedIsWellFormed(w, prefixes, contracts, counter, testcase);
    }
  }

  lemma SeededTransitive(contracts: seq<Contract>, a: Campaign, b: Campaign, c: Option<Campaign>)
    requires SeededFrom(contracts, a, Some(b)) && SeededFrom(contracts, b, c)
    ensures SeededFrom(contracts, a, c)
  {
  }

  lemma SeedContinues(w: World, prefixes: seq<Prefix>, contracts: seq<Contract>, counter: nat, testcases: seq<string>,
                      c: Campaign)
    requires |contracts| == |prefixes| && testcases != []
    ensures var first := SeedOne(w, prefixes, contracts, counter, testcases[0], c);
            Seed(w, prefixes, contracts, counter, testcases, c)
            == if first.None? then None
              else Seed(w, prefixes, contracts, counter + |prefixes|, testcases[1..], first.value)
  {
  }

  lemma {:induction false} SeedWellFormed(w: World, prefixes: seq<Prefix>, contracts: seq<Contract>, counter: nat,
                                          testcases: seq<string>, c: Campaign)
    requires Deploys(prefixes, contracts) && AllWellFormed(contracts, c.corpus)
    ensures SeededFrom(contracts, c, Seed(w, prefixes, contracts, counter, testcases, c))
    decreases |testcases|
  {
    if testcases != [] {
      SeedOneWellFormed(w, prefixes, contracts, counter, testcases[0], c);
      var first := SeedOne(w, prefixes, contracts, counter, testcases[0], c);
      if first.Some? {
        var seeded := Seed(w, prefixes, contracts, counter + |prefixes|, testcases[1..], first.value);
        SeedWellFormed(w, prefixes, contracts, counter + |prefixes|, testcases[1..], first.value);
        SeededTransitive(contracts, c, first.value, seeded);
      }
      SeedContinues(w, prefixes, contracts, counter, testcases, c);
    }
  }

  // ------------------------------------------------------------------ what the known testcases add

  /** What replaying the known testcases answers; every replay deploys the contracts once more. */
  function Results(w: World, prefixes: seq<Prefix>, counter: nat, testcases: seq<string>): (results: seq<ReplayResult>)
    ensures |results| == |testcases|
    decreases |testcases|
  {
    if testcases == [] then []
    else [Rerun(w, prefixes, counter, testcases[0])] + Results(w, prefixes, counter + |prefixes|, testcases[1..])
  }

  lemma ResultsFirst(w: World, prefixes: seq<Prefix>, counter: nat, testcases: seq<string>)
    requires testcases != []
    ensures Results(w, prefixes, counter, testcases)
         == [Rerun(w, prefixes, counter, testcases[0])] + Results(w, prefixes, counter + |prefixes|, testcases[1..])
  {
  }

  ghost predicate SomeThrow(results: seq<ReplayResult>) {
    exists r :: r in results && r.Thrown?
  }

  /** Some testcase replays through the transition. */
  ghost predicate SomeThrough(results: seq<ReplayResult>, t: string) {
    exists r :: r in results && r.Replayed? && t in SerializeTransitions(r.dag)
  }

  /** The items of the testcases that replay, each with the arguments read back. */
  function SeedItems(w: World, contracts: seq<Contract>, testcases: seq<string>, results: seq<ReplayResult>): seq<Item>
    requires |testcases| == |results|
  {
    if testcases == [] then []
    else SeedItem(w, contracts, testcases[0], results[0]) + SeedItems(w, contracts, testcases[1..], results[1..])
  }

  function SeedItem(w: World, contracts: seq<Contract>, testcase: string, result: ReplayResult): seq<Item> {
    match (w.fromText(testcase), result)
    case (Some(txn), Replayed(_, _, args)) =>
      if txn.idx < |contracts| then [Item(contracts[txn.idx], txn.name, args, txn.idx)] else []
    case _ => []
  }

  lemma SeedOneAdds(w: World, prefixes: seq<Prefix>, contracts: seq<Contract>, counter: nat, testcase: string,
                    c: Campaign)
    requires |contracts| == |prefixes|
    ensures var r := Rerun(w, prefixes, counter, testcase);
            var seeded := SeedOne(w, prefixes, contracts, counter, testcase, c);
            && (seeded.None? <==> r.Thrown?)
            && (seeded.Some? ==>
                  && seeded.value.corpus == c.corpus + SeedItem(w, contracts, testcase, r)
                  && seeded.value.coverage == c.coverage + if r.Replayed? then SerializeTransitions(r.dag) else [])
  {
    Deployed(w, prefixes, counter);
  }

  /** Seeding fails exactly when a result is malformed.  Otherwise the coverage has gained exactly the
      transitions of the results, and the corpus exactly an item for each that replays, in order. */
  ghost predicate SeededBy(w: World, contracts: seq<Contract>, testcases: seq<string>, results: seq<ReplayResult>,
                           c: Campaign, seeded: Option<Campaign>, t: string)
    requires |testcases| == |results|
  {
    && (seeded.None? <==> SomeThrow(results))
    && (seeded.Some? ==>
          && (t in seeded.value.coverage <==> t in c.coverage || SomeThrough(results, t))
          && seeded.value.corpus == c.corpus + SeedItems(w, contracts, testcases, results))
  }

  lemma {:induction false} KnownTestcasesSeed(w: World, prefixes: seq<Prefix>, contracts: seq<Contract>, counter: nat,
                                              testcases: seq<string>, c: Campaign, t: string)
    requires |contracts| == |prefixes|
    ensures SeededBy(w, contracts, testcases, Results(w, prefixes, counter, testcases), c,
                     Seed(w, prefixes, contracts, counter, testcases, c), t)
    decreases |testcases|
  {
    if testcases != [] {
      var first := SeedOne(w, prefixes, contracts, counter, testcases[0], c);
      SeedOneAdds(w, prefixes, contracts, counter, testcases[0], c);
      SeedContinues(w, prefixes, contracts, counter, testcases, c);
      ResultsFirst(w, prefixes, counter, testcases);
      var r := Rerun(w, prefixes, counter, testcases[0]);
      var later := Results(w, prefixes, counter + |prefixes|, testcases[1..]);
      var seeded := None;
      if first.Some? {
        KnownTestcasesSeed(w, prefixes, contracts, counter + |prefixes|, testcases[1..], first.value, t);
        seeded := Seed(w, prefixes, contracts, counter + |prefixes|, testcases[1..], first.value);
      }
      SeededByFirst(w, contracts, testcases, r, later, c, first, seeded, t);
    }
  }

  lemma SeededByFirst(w: World, contracts: seq<Contract>, testcases: seq<string>, r: ReplayResult,
                      later: seq<ReplayResult>, c: Campaign, first: Option<Campaign>, seeded: Option<Campaign>,
                      t: string)
    requires |testcases| == 1 + |later| && (first.None? <==> r.Thrown?)
    requires first.Some? ==>
               && first.value.corpus == c.corpus + SeedItem(w, contracts, testcases[0], r)
               && first.value.coverage == c.coverage + if r.Replayed? then SerializeTransitions(r.dag) else []
    requires if first.None? then seeded.None? else SeededBy(w, contracts, testcases[1..], later, first.value, seeded, t)
    ensures SeededBy(w, contracts, testcases, [r] + later, c, seeded, t)
  {
    FirstResult(r, later, t);
    assert ([r] + later)[1..] == later;
  }

  lemma FirstResult(first: ReplayResult, rest: seq<ReplayResult>, t: string)
    ensures SomeThrow([first] + rest) <==> first.Thrown? || SomeThrow(rest)
    ensures SomeThrough([first] + rest, t) <==>
            (first.Replayed? && t in SerializeTransitions(first.dag)) || SomeThrough(rest, t)
  {
    assert first in [first] + rest;
  }

  /** A campaign starts, unless a known testcase is malformed, with the contracts' own methods and what
      the known testcases add when they are replayed after its own deployment. */
  lemma StartSeeded(w: World, prefixes: seq<Prefix>, counter: nat, testcases: seq<string>, t: string)
    ensures var results := Results(w, prefixes, counter + |prefixes|, testcases);
            var contracts := ContractInfo(w, prefixes, counter).contracts;
            var start := Start(w, prefixes, counter, testcases);
            && (start.None? <==> SomeThrow(results))
            && (start.Some? ==>
                  && (t in start.value.coverage <==> SomeThrough(results, t))
                  && start.value.corpus
                     == InitialCorpus(contracts, 0) + SeedItems(w, contracts, testcases, results))
  {
    var d := ContractInfo(w, prefixes, counter);
    Deployed(w, prefixes, counter);
    var start := Campaign(InitialCorpus(d.contracts, 0), [], [], map[], [], []);
    KnownTestcasesSeed(w, prefixes, d.contracts, d.counter, testcases, start, t);
  }

  lemma StartIsReplayable(w: World, prefixes: seq<Prefix>, counter: nat, testcases: seq<string>)
    requires Start(w, prefixes, counter, testcases).Some?
    ensures var c := Start(w, prefixes, counter, testcases).value;
            && Replayable(w, prefixes, counter, c)
            && c.testcases == [] && c.vulns == map[] && c.reports == [] && c.history == []
  {
    var d := ContractInfo(w, prefixes, counter);
    Deployed(w, prefixes, counter);
    InitialWellFormed(d.contracts, d.contracts, 0);
    var start := Campaign(InitialCorpus(d.contracts, 0), [], [], map[], [], []);
    SeedWellFormed(w, prefixes, d.contracts, d.counter, testcases, start);
  }

  // ------------------------------------------------------------------ what the corpus starts with

  /** The initial corpus holds one item for every method of every contract, with the method's own
      arguments, and nothing else. */
  lemma {:induction false} InitialCorpusIsAllMethods(contracts: seq<Contract>, idx: nat, item: Item)
    ensures item in InitialCorpus(contracts, idx) <==>
            exists c, m :: 0 <= c < |contracts| && 0 <= m < |contracts[c].abi.methods|
              && item == Item(contracts[c], contracts[c].abi.methods[m].name, contracts[c].abi.methods[m].abis, idx + c)
  {
    if contracts != [] {
      InitialCorpusIsAllMethods(contracts[1..], idx + 1, item);
      ItemsAreMethods(contracts[0], contracts[0].abi.methods, idx, item);
      if item in InitialCorpus(contracts[1..], idx + 1) {
        var c, m :| 0 <= c < |contracts[1..]| && 0 <= m < |contracts[1..][c].abi.methods|
          && item == Item(contracts[1..][c], contracts[1..][c].abi.methods[m].name,
                          contracts[1..][c].abi.methods[m].abis, idx + 1 + c);
        assert contracts[c + 1] == contracts[1..][c];
      }
    }
  }

  lemma {:induction false} ItemsAreMethods(c: Contract, methods: seq<Method>, idx: nat, item: Item)
    ensures item in Items(c, methods, idx) <==>
            exists m :: 0 <= m < |methods| && item == Item(c, methods[m].name, methods[m].abis, idx)
  {
    if methods != [] {
      ItemsAreMethods(c, methods[1..], idx, item);
      if item in Items(c, methods[1..], idx) {
        var m :| 0 <= m < |methods[1..]| && item == Item(c, methods[1..][m].name, methods[1..][m].abis, idx);
        assert methods[m + 1] == methods[1..][m];
      }
    }
  }
}
