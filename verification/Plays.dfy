/** What the rounds of a campaign play, told by the EVM alone: which item each round picked, whether
    its call went through, and what that adds to the corpus, the history and the coverage. */
module Plays {
  import opened Common
  import opened Decimal
  import opened AbiValues
  import opened StateManager
  import opened Fuzzer
  import opened Coverage
  import opened Transcripts

  /** A round runs an item's method on mutated arguments. */
  datatype Play = Play(item: Item, args: seq<Abi>)

  /** The call ended without an exception. */
  predicate Succeeds(w: World, base: State, p: Play) {
    !CallOf(w, p.item.contract, p.item.name, p.args, CALLER, base.contents).failed
  }

  ghost function VerdictOf(w: World, base: State, p: Play): Verdict {
    Told(w, p.item.contract, p.item.name, p.args, CALLER, base.contents)
  }

  /** The transaction that an item stands for, as text. */
  function RecordOf(w: World, base: State, item: Item): string {
    w.toText(Txn(item.name, SerializeAll(item.args), base.contents, CALLER, item.idx))
  }

  /** The item as the round ran it. */
  function AsPlayed(p: Play): Item { p.item.(args := p.args) }

  /** The executions of the plays that went through, in order. */
  ghost function Executions(w: World, base: State, plays: seq<Play>): seq<Execution> {
    if plays == [] then []
    else
      var earlier, last := plays[..|plays| - 1], plays[|plays| - 1];
      Executions(w, base, earlier)
      + if Succeeds(w, base, last) then [Execution(RecordOf(w, base, AsPlayed(last)), VerdictOf(w, base, last))] else []
  }

  ghost predicate RunsThrough(w: World, base: State, p: Play, e: Edge) {
    Succeeds(w, base, p) && e in VerdictOf(w, base, p).dag
  }

  ghost predicate EverThrough(w: World, base: State, plays: seq<Play>, e: Edge) {
    exists k :: 0 <= k < |plays| && RunsThrough(w, base, plays[k], e)
  }

  /** The play runs through an edge that neither the start nor an earlier play knew. */
  ghost predicate Discovers(w: World, base: State, start: Campaign, earlier: seq<Play>, p: Play) {
    exists e :: RunsThrough(w, base, p, e) && Join(e, SEPARATOR) !in start.coverage && !EverThrough(w, base, earlier, e)
  }

  /** The start's items, and an item with the arguments played for each discovery, in order. */
  ghost function CorpusAfter(w: World, base: State, start: Campaign, plays: seq<Play>): seq<Item> {
    if plays == [] then start.corpus
    else
      var earlier, last := plays[..|plays| - 1], plays[|plays| - 1];
      CorpusAfter(w, base, start, earlier)
      + if Discovers(w, base, start, earlier, last) then [AsPlayed(last)] else []
  }

  /** The round plays the item it picked from the corpus of that moment, with the arguments it drew. */
  ghost predicate PlayedAt(w: World, base: State, start: Campaign, d: Draw, earlier: seq<Play>, p: Play) {
    var corpus := CorpusAfter(w, base, start, earlier);
    d.pick < |corpus| && p == Play(corpus[d.pick], d.args)
  }

  ghost predicate Played(w: World, base: State, start: Campaign, draws: seq<Draw>, plays: seq<Play>) {
    && |plays| == |draws|
    && (draws != [] ==>
          var last := |draws| - 1;
          Played(w, base, start, draws[..last], plays[..last])
          && PlayedAt(w, base, start, draws[last], plays[..last], plays[last]))
  }

  /** The campaign is what the plays make of its start. */
  ghost predicate Recounts(w: World, base: State, start: Campaign, plays: seq<Play>, c: Campaign) {
    && c.history == start.history + Executions(w, base, plays)
    && c.corpus == CorpusAfter(w, base, start, plays)
    && forall e: Edge :: Join(e, SEPARATOR) in c.coverage <==>
         Join(e, SEPARATOR) in start.coverage || EverThrough(w, base, plays, e)
  }

  lemma EverThroughAppend(w: World, base: State, plays: seq<Play>, p: Play, e: Edge)
    ensures EverThrough(w, base, plays + [p], e) <==> EverThrough(w, base, plays, e) || RunsThrough(w, base, p, e)
  {
    var longer := plays + [p];
    if k :| 0 <= k < |plays| && RunsThrough(w, base, plays[k], e) { assert longer[k] == plays[k]; }
    assert longer[|plays|] == p;
  }

  lemma EdgeSerialized(dag: seq<Edge>, e: Edge)
    ensures Join(e, SEPARATOR) in SerializeTransitions(dag) <==> e in dag
  {
    var t := Join(e, SEPARATOR);
    if t in SerializeTransitions(dag) {
      var k :| 0 <= k < |dag| && SerializeTransitions(dag)[k] == t;
      JoinInjective(dag[k], e, SEPARATOR);
    }
    if e in dag {
      var k :| 0 <= k < |dag| && dag[k] == e;
      assert SerializeTransitions(dag)[k] == t;
    }
  }

  /** The coverage grows exactly on a discovery. */
  lemma CountedCoverage(w: World, base: State, start: Campaign, plays: seq<Play>, c: Campaign, p: Play)
    requires Recounts(w, base, start, plays, c) && Succeeds(w, base, p)
    ensures var after := AddCoverage(c.coverage, SerializeTransitions(VerdictOf(w, base, p).dag));
            && (|after| > |c.coverage| <==> Discovers(w, base, start, plays, p))
            && forall e: Edge :: Join(e, SEPARATOR) in after <==>
                 Join(e, SEPARATOR) in start.coverage || EverThrough(w, base, plays + [p], e)
  {
    var dag := VerdictOf(w, base, p).dag;
    var transitions := SerializeTransitions(dag);
    var after := AddCoverage(c.coverage, transitions);
    AddCoverageExtends(c.coverage, transitions);
    forall e: Edge
      ensures Join(e, SEPARATOR) in after <==>
              Join(e, SEPARATOR) in start.coverage || EverThrough(w, base, plays + [p], e)
    {
      EverThroughAppend(w, base, plays, p, e);
      EdgeSerialized(dag, e);
    }
    if |after| > |c.coverage| {
      var t := after[|c.coverage|];
      assert t in after[|c.coverage|..] && t in after && t !in c.coverage;
      var k :| 0 <= k < |transitions| && transitions[k] == t;
      assert RunsThrough(w, base, p, dag[k]) && t == Join(dag[k], SEPARATOR);
    }
    if Discovers(w, base, start, plays, p) {
      var e :| RunsThrough(w, base, p, e) && Join(e, SEPARATOR) !in start.coverage && !EverThrough(w, base, plays, e);
      EdgeSerialized(dag, e);
      assert Join(e, SEPARATOR) in after && Join(e, SEPARATOR) !in c.coverage;
    }
  }

  lemma RoundRecounts(w: World, base: State, start: Campaign, plays: seq<Play>, c: Campaign, d: Draw) returns (p: Play)
    requires Recounts(w, base, start, plays, c) && d.pick < |c.corpus|
    ensures p == Play(c.corpus[d.pick], d.args)
    ensures Recounts(w, base, start, plays + [p], Round(w, base, c, d.pick, d.args))
  {
    p := Play(c.corpus[d.pick], d.args);
    var longer := plays + [p];
    DropLastOfAppend(plays, p);
    ExecuteAsTold(w, p.item.contract, p.item.name, p.args, CALLER, base.(ckpt := None));
    if Succeeds(w, base, p) {
      CountedCoverage(w, base, start, plays, c, p);
    } else {
      forall e ensures EverThrough(w, base, longer, e) <==> EverThrough(w, base, plays, e) {
        EverThroughAppend(w, base, plays, p, e);
      }
    }
  }

  lemma PlayedAppend(w: World, base: State, start: Campaign, draws: seq<Draw>, plays: seq<Play>, d: Draw, p: Play)
    requires Played(w, base, start, draws, plays) && PlayedAt(w, base, start, d, plays, p)
    ensures Played(w, base, start, draws + [d], plays + [p])
  {
    DropLastOfAppend(draws, d);
    DropLastOfAppend(plays, p);
  }

  /** The campaign is what these draws make of the start. */
  ghost predicate Retold(w: World, base: State, start: Campaign, draws: seq<Draw>, plays: seq<Play>, c: Campaign) {
    Played(w, base, start, draws, plays) && Recounts(w, base, start, plays, c)
  }

  lemma RoundRetold(w: World, base: State, start: Campaign, draws: seq<Draw>, plays: seq<Play>, c: Campaign, d: Draw)
    returns (p: Play)
    requires Retold(w, base, start, draws, plays, c) && Fair(c, d)
    ensures Retold(w, base, start, draws + [d], plays + [p], Round(w, base, c, d.pick, d.args))
  {
    p := RoundRecounts(w, base, start, plays, c, d);
    PlayedAppend(w, base, start, draws, plays, d, p);
  }

  lemma MoveFirst(done: seq<Draw>, draws: seq<Draw>)
    requires draws != []
    ensures done + [draws[0]] + draws[1..] == done + draws
  {
  }

  lemma FirstOfRounds(w: World, base: State, c: Campaign, draws: seq<Draw>) returns (next: Campaign)
    requires FairDraws(w, base, c, draws) && draws != []
    ensures Fair(c, draws[0]) && next == Round(w, base, c, draws[0].pick, draws[0].args)
    ensures FairDraws(w, base, next, draws[1..]) && Rounds(w, base, c, draws) == Rounds(w, base, next, draws[1..])
  {
    next := Round(w, base, c, draws[0].pick, draws[0].args);
  }

  lemma {:induction false} RunsGoOn(w: World, base: State, start: Campaign, done: seq<Draw>, plays0: seq<Play>,
                                    c: Campaign, draws: seq<Draw>)
    returns (plays: seq<Play>)
    requires Retold(w, base, start, done, plays0, c) && FairDraws(w, base, c, draws)
    ensures Retold(w, base, start, done + draws, plays, Rounds(w, base, c, draws))
    decreases |draws|
  {
    if draws == [] {
      plays := plays0;
      assert done + draws == done;
    } else {
      var next := FirstOfRounds(w, base, c, draws);
      var p := RoundRetold(w, base, start, done, plays0, c, draws[0]);
      plays := RunsGoOn(w, base, start, done + [draws[0]], plays0 + [p], next, draws[1..]);
      MoveFirst(done, draws);
    }
  }

  /** Any fair run, retold from its draws and the EVM: its history is the executions of exactly the
      plays whose call went through, in draw order; its corpus gained an item for exactly the
      discoveries; and it covers exactly the edges known at the start and those such plays ran through. */
  lemma RunsAsPlayed(w: World, base: State, start: Campaign, draws: seq<Draw>) returns (plays: seq<Play>)
    requires FairDraws(w, base, start, draws)
    ensures Played(w, base, start, draws, plays)
    ensures Recounts(w, base, start, plays, Rounds(w, base, start, draws))
  {
    var none: seq<Draw> := [];
    assert Retold(w, base, start, none, [], start);
    plays := RunsGoOn(w, base, start, none, [], start, draws);
    assert none + draws == draws;
  }

  /** The draws leave no choice about the plays. */
  lemma {:induction false} PlaysUnique(w: World, base: State, start: Campaign, draws: seq<Draw>, plays: seq<Play>,
                                       others: seq<Play>)
    requires Played(w, base, start, draws, plays) && Played(w, base, start, draws, others)
    ensures plays == others
  {
    if draws != [] {
      var last := |draws| - 1;
      PlaysUnique(w, base, start, draws[..last], plays[..last], others[..last]);
      assert plays == plays[..last] + [plays[last]] && others == others[..last] + [others[last]];
    }
  }

  /** An edge is covered exactly when it was known at the start or some round ran through it whose
      call did not end with an exception. */
  lemma EdgesCovered(w: World, base: State, start: Campaign, draws: seq<Draw>, plays: seq<Play>, e: Edge)
    requires FairDraws(w, base, start, draws) && Played(w, base, start, draws, plays)
    ensures Join(e, SEPARATOR) in Rounds(w, base, start, draws).coverage <==>
            Join(e, SEPARATOR) in start.coverage
            || exists k :: 0 <= k < |plays| && var item, args := plays[k].item, plays[k].args;
                 && !CallOf(w, item.contract, item.name, args, CALLER, base.contents).failed
                 && e in Told(w, item.contract, item.name, args, CALLER, base.contents).dag
  {
    var same := RunsAsPlayed(w, base, start, draws);
    PlaysUnique(w, base, start, draws, plays, same);
    ThroughInFull(w, base, plays, e);
  }

  lemma ThroughInFull(w: World, base: State, plays: seq<Play>, e: Edge)
    ensures EverThrough(w, base, plays, e) <==>
            exists k :: 0 <= k < |plays| && var item, args := plays[k].item, plays[k].args;
              && !CallOf(w, item.contract, item.name, args, CALLER, base.contents).failed
              && e in Told(w, item.contract, item.name, args, CALLER, base.contents).dag
  {
    if k :| 0 <= k < |plays| && var item, args := plays[k].item, plays[k].args;
       && !CallOf(w, item.contract, item.name, args, CALLER, base.contents).failed
       && e in Told(w, item.contract, item.name, args, CALLER, base.contents).dag
    {
      assert RunsThrough(w, base, plays[k], e);
    }
  }
}
