/** The fuzzing engine around the EVM: deployment, one transaction with its oracles, replay of a
    recorded transaction, and the loop that grows coverage, corpus and findings. */
module Fuzzer {
  import opened Common
  import opened Decimal
  import opened AbiValues
  import opened StateManager

  // ------------------------------------------------------------------ the world around the fuzzer

  datatype EvmInput = EvmInput(code: Bytes, data: Bytes, caller: Address, self: Address, state: State)

  datatype EvmOutput = EvmOutput(state: State, failed: bool, returned: Bytes, dag: seq<Edge>)

  datatype Method = Method(name: string, abis: seq<Abi>)

  datatype ContractAbi = ContractAbi(methods: seq<Method>, oracles: seq<string>)

  datatype Prefix = Prefix(bin: Bytes, abi: ContractAbi)

  /** A recorded transaction. */
  datatype Txn = Txn(name: string, args: seq<Saved>, sm: Contents, caller: Address, idx: nat)

  /** The EVM is any deterministic function; call encoding and the text codec are library functions. */
  datatype World = World(
    evm: EvmInput -> EvmOutput,
    encodeCall: (ContractAbi, string, seq<Plain>) -> Bytes,
    isTrue: Bytes -> bool,
    toText: Txn -> string,
    fromText: string -> Option<Txn>)

  ghost predicate Invertible(w: World) {
    forall t :: w.fromText(w.toText(t)) == Some(t) && w.toText(t) != ""
  }

  // ------------------------------------------------------------------ addresses

  function HexDigit(d: nat): Byte
    requires d < 16
  { if d < 10 then 48 + d else 87 + d }

  /** The text of a number in base 16, as character codes. */
  function Hex(n: nat): (s: Bytes)
    ensures s != [] && forall i :: 0 <= i < |s| ==> s[i] != 0
  { if n < 16 then [HexDigit(n)] else Hex(n / 16) + [HexDigit(n % 16)] }

  /** Copies the text of the number into a zeroed 20-byte buffer. */
  function ToAddress(n: nat): Address {
    var s := Hex(n);
    if |s| >= 20 then s[..20] else s + Zeros(20 - |s|)
  }

  const DEPLOYER: Address := Zeros(19) + [1]

  // ------------------------------------------------------------------ deployment

  datatype Contract = Contract(code: Bytes, address: Address, abi: ContractAbi)

  datatype Deployment = Deployment(contracts: seq<Contract>, state: State, counter: nat)

  function Deploy(w: World, d: Deployment, prefix: Prefix): Deployment {
    var self := ToAddress(d.counter + 1);
    var out := w.evm(EvmInput(prefix.bin, [], DEPLOYER, self, d.state));
    Deployment(d.contracts + [Contract(out.returned, self, prefix.abi)], out.state, d.counter + 1)
  }

  /** Deploys the contracts one after the other on a fresh state. */
  function ContractInfo(w: World, prefixes: seq<Prefix>, counter: nat): Deployment {
    if prefixes == [] then Deployment([], FRESH_STATE, counter)
    else Deploy(w, ContractInfo(w, prefixes[..|prefixes| - 1], counter), prefixes[|prefixes| - 1])
  }

  // ------------------------------------------------------------------ one transaction

  function CallData(w: World, c: Contract, name: string, args: seq<Abi>): Bytes {
    w.encodeCall(c.abi, name, Plains(args))
  }

  function RunCode(w: World, c: Contract, data: Bytes, caller: Address, s: State): EvmOutput {
    w.evm(EvmInput(c.code, data, caller, c.address, s))
  }

  datatype Verdict = Verdict(violated: bool, oracle: string, dag: seq<Edge>)

  /** Oracles run one after the other on the state the transaction left, and the first that answers
      true decides; the edges they run through add to the transaction's. */
  function RunOracles(w: World, c: Contract, oracles: seq<string>, caller: Address, s: State, dag: seq<Edge>): Verdict {
    if oracles == [] then Verdict(false, "", dag)
    else
      var out := RunCode(w, c, w.encodeCall(c.abi, oracles[0], []), caller, s);
      if w.isTrue(out.returned) then Verdict(true, oracles[0], dag + out.dag)
      else RunOracles(w, c, oracles[1..], caller, out.state, dag + out.dag)
  }

  datatype Transacted = Transacted(reverted: bool, state: State, dag: seq<Edge>)

  /** Checkpoints, runs the call, and rolls back on an EVM exception. */
  function Transact(w: World, c: Contract, data: Bytes, caller: Address, s: State): Transacted {
    var out := RunCode(w, c, data, caller, Step(s, Op.Checkpoint));
    Transacted(out.failed, if out.failed then Step(out.state, Op.Revert) else out.state, out.dag)
  }

  datatype Outcome = Outcome(reverted: bool, verdict: Verdict)

  /** Runs the call as a transaction, then the oracles. */
  function Execute(w: World, c: Contract, name: string, args: seq<Abi>, caller: Address, s: State): Outcome {
    var out := Transact(w, c, CallData(w, c, name, args), caller, s);
    Outcome(out.reverted, RunOracles(w, c, c.abi.oracles, caller, out.state, out.dag))
  }

  // ------------------------------------------------------------------ replay

  datatype ReplayResult =
    | Replayed(oracle: string, dag: seq<Edge>, args: seq<Abi>)
    | Null       // the method name is not unique
    | Thrown     // malformed input

  function Named(methods: seq<Method>, name: string): seq<Method> {
    if methods == [] then []
    else (if methods[0].name == name then [methods[0]] else []) + Named(methods[1..], name)
  }

  function RerunOn(w: World, d: Deployment, txn: Txn): ReplayResult {
    if txn.idx >= |d.contracts| then Thrown
    else
      var c := d.contracts[txn.idx];
      var found := Named(c.abi.methods, txn.name);
      if |found| != 1 then Null
      else
        var r := DeserializeAll(CopyAll(found[0].abis), txn.args);
        if r.AllFailed? then Thrown
        else
          var s := d.state.(contents := txn.sm);
          var verdict := Execute(w, c, txn.name, r.abis, txn.caller, s).verdict;
          Replayed(if verdict.violated then verdict.oracle else "", verdict.dag, r.abis)
  }

  /** Deploys the contracts anew and runs the recorded transaction on them. */
  function Rerun(w: World, prefixes: seq<Prefix>, counter: nat, text: string): ReplayResult {
    var d := ContractInfo(w, prefixes, counter);
    match w.fromText(text)
    case None => Thrown
    case Some(txn) => RerunOn(w, d, txn)
  }

  // ------------------------------------------------------------------ the loop

  datatype Item = Item(contract: Contract, name: string, args: seq<Abi>, idx: nat)

  /** One execution that was not rolled back. */
  datatype Execution = Execution(text: string, verdict: Verdict)

  datatype Campaign = Campaign(
    corpus: seq<Item>,
    coverage: seq<string>,
    testcases: seq<string>,
    vulns: map<string, string>,
    reports: seq<(string, string)>,   // calls of the bug handler
    history: seq<Execution>)

  const SEPARATOR := ">"

  function SerializeTransitions(dag: seq<Edge>): (s: seq<string>)
    ensures |s| == |dag| && forall i :: 0 <= i < |dag| ==> s[i] == Join(dag[i], SEPARATOR)
  { seq(|dag|, i requires 0 <= i < |dag| => Join(dag[i], SEPARATOR)) }

  /** Appends the transitions not seen before, each once, in order. */
  function AddCoverage(coverage: seq<string>, transitions: seq<string>): seq<string>
    decreases |transitions|
  {
    if transitions == [] then coverage
    else AddCoverage(if transitions[0] in coverage then coverage else coverage + [transitions[0]], transitions[1..])
  }

  function Items(c: Contract, methods: seq<Method>, idx: nat): seq<Item> {
    if methods == [] then [] else [Item(c, methods[0].name, methods[0].abis, idx)] + Items(c, methods[1..], idx)
  }

  function InitialCorpus(contracts: seq<Contract>, idx: nat): seq<Item> {
    if contracts == [] then []
    else Items(contracts[0], contracts[0].abi.methods, idx) + InitialCorpus(contracts[1..], idx + 1)
  }

  const CALLER: Address := ToAddress(1)

  /** What an execution that was not rolled back adds to the tables. */
  function Counted(w: World, base: State, c: Campaign, item: Item, args: seq<Abi>, verdict: Verdict): Campaign {
    var transitions := SerializeTransitions(verdict.dag);
    var coverage := AddCoverage(c.coverage, transitions);
    var text := w.toText(Txn(item.name, SerializeAll(args), base.contents, CALLER, item.idx));
    var first := verdict.violated && verdict.oracle !in c.vulns;
    var better := verdict.violated && (verdict.oracle in c.vulns ==> |c.vulns[verdict.oracle]| > |text|);
    var changed := |coverage| > |c.coverage|;
    Campaign(
      if changed then c.corpus + [Item(item.contract, item.name, args, item.idx)] else c.corpus,
      coverage,
      if changed then c.testcases + [text] else c.testcases,
      if better then c.vulns[verdict.oracle := text] else c.vulns,
      if first then c.reports + [(verdict.oracle, text)] else c.reports,
      c.history + [Execution(text, verdict)])
  }

  /** One round of the loop, for the corpus item picked and the mutated copy of its arguments. */
  function Round(w: World, base: State, c: Campaign, pick: nat, args: seq<Abi>): Campaign
    requires pick < |c.corpus|
  {
    var item := c.corpus[pick];
    var out := Execute(w, item.contract, item.name, args, CALLER, base.(ckpt := None));
    if out.reverted then c else Counted(w, base, c, item, args, out.verdict)
  }

  /** Adds one known testcase, replayed on a deployment of its own.  None means it was malformed. */
  function SeedOne(w: World, prefixes: seq<Prefix>, contracts: seq<Contract>, counter: nat, testcase: string,
                   c: Campaign): Option<Campaign>
    requires |contracts| == |prefixes|
  {
    match Rerun(w, prefixes, counter, testcase)
    case Thrown => None
    case Null => Some(c)
    case Replayed(_, dag, args) =>
      var txn := w.fromText(testcase).value;
      Deployed(w, prefixes, counter);
      Some(c.(coverage := c.coverage + SerializeTransitions(dag),
              corpus := c.corpus + [Item(contracts[txn.idx], txn.name, args, txn.idx)]))
  }

  /** The campaign before its first round: the contracts' own methods, then the known testcases. */
  function Seed(w: World, prefixes: seq<Prefix>, contracts: seq<Contract>, counter: nat, testcases: seq<string>,
                c: Campaign): Option<Campaign>
    requires |contracts| == |prefixes|
    decreases |testcases|
  {
    if testcases == [] then Some(c)
    else
      match SeedOne(w, prefixes, contracts, counter, testcases[0], c)
      case None => None
      case Some(next) => Seed(w, prefixes, contracts, counter + |prefixes|, testcases[1..], next)
  }

  /** One contract per prefix, at consecutive addresses after the counter. */
  lemma {:induction false} Deployed(w: World, prefixes: seq<Prefix>, counter: nat)
    ensures var d := ContractInfo(w, prefixes, counter);
            && |d.contracts| == |prefixes| && d.counter == counter + |prefixes|
            && (forall j :: 0 <= j < |prefixes| ==>
                  d.contracts[j].abi == prefixes[j].abi && d.contracts[j].address == ToAddress(counter + 1 + j))
  {
    if prefixes != [] {
      var last := |prefixes| - 1;
      Deployed(w, prefixes[..last], counter);
      assert ContractInfo(w, prefixes, counter)
        == Deploy(w, ContractInfo(w, prefixes[..last], counter), prefixes[last]);
    }
  }

  function StateLeft(outs: seq<EvmOutput>): State {
    if outs == [] then FRESH_STATE else outs[|outs| - 1].state
  }

  /** The constructors' outputs: each runs on the state that the one before left, at the next address. */
  ghost predicate Constructed(w: World, prefixes: seq<Prefix>, counter: nat, outs: seq<EvmOutput>) {
    && |outs| == |prefixes|
    && (outs != [] ==>
          var last := |outs| - 1;
          && Constructed(w, prefixes[..last], counter, outs[..last])
          && outs[last] == w.evm(EvmInput(prefixes[last].bin, [], DEPLOYER, ToAddress(counter + |outs|),
                                          StateLeft(outs[..last]))))
  }

  /** The outputs give the codes and the state of a deployment. */
  ghost predicate Shows(d: Deployment, counter: nat, outs: seq<EvmOutput>) {
    && |d.contracts| == |outs| && d.counter == counter + |outs| && d.state == StateLeft(outs)
    && forall j :: 0 <= j < |outs| ==> d.contracts[j].code == outs[j].returned
  }

  lemma DeployShows(w: World, d: Deployment, counter: nat, outs: seq<EvmOutput>, prefix: Prefix)
    returns (out: EvmOutput)
    requires Shows(d, counter, outs)
    ensures out == w.evm(EvmInput(prefix.bin, [], DEPLOYER, ToAddress(counter + |outs| + 1), StateLeft(outs)))
    ensures Shows(Deploy(w, d, prefix), counter, outs + [out])
  {
    out := w.evm(EvmInput(prefix.bin, [], DEPLOYER, ToAddress(counter + |outs| + 1), StateLeft(outs)));
  }

  /** Each constructor returns its contract's code, and the last leaves the state that the campaign
      starts from. */
  lemma {:induction false} DeployedCode(w: World, prefixes: seq<Prefix>, counter: nat) returns (outs: seq<EvmOutput>)
    ensures Constructed(w, prefixes, counter, outs) && Shows(ContractInfo(w, prefixes, counter), counter, outs)
  {
    outs := [];
    if prefixes != [] {
      var last := |prefixes| - 1;
      var before := DeployedCode(w, prefixes[..last], counter);
      var out := DeployShows(w, ContractInfo(w, prefixes[..last], counter), counter, before, prefixes[last]);
      outs := before + [out];
      DropLastOfAppend(before, out);
      DeployLast(w, prefixes, counter);
    }
  }

  lemma DeployLast(w: World, prefixes: seq<Prefix>, counter: nat)
    requires prefixes != []
    ensures ContractInfo(w, prefixes, counter)
         == Deploy(w, ContractInfo(w, prefixes[..|prefixes| - 1], counter), prefixes[|prefixes| - 1])
  {
  }

  /** The campaign that the loop starts from. */
  function Start(w: World, prefixes: seq<Prefix>, counter: nat, testcases: seq<string>): Option<Campaign> {
    Deployed(w, prefixes, counter);
    var d := ContractInfo(w, prefixes, counter);
    Seed(w, prefixes, d.contracts, d.counter, testcases,
         Campaign(InitialCorpus(d.contracts, 0), [], [], map[], [], []))
  }

  /** What was drawn for one round. */
  datatype Draw = Draw(pick: nat, args: seq<Abi>)

  ghost predicate Fair(c: Campaign, d: Draw) {
    d.pick < |c.corpus| && ArgsMutateTo(c.corpus[d.pick].args, d.args)
  }

  ghost predicate FairDraws(w: World, base: State, c: Campaign, draws: seq<Draw>)
    decreases |draws|
  {
    draws != [] ==> Fair(c, draws[0]) && FairDraws(w, base, Round(w, base, c, draws[0].pick, draws[0].args), draws[1..])
  }

  ghost function Rounds(w: World, base: State, c: Campaign, draws: seq<Draw>): Campaign
    requires FairDraws(w, base, c, draws)
    decreases |draws|
  {
    if draws == [] then c
    else Rounds(w, base, Round(w, base, c, draws[0].pick, draws[0].args), draws[1..])
  }
}
