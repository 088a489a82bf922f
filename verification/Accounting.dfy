/** What the loop's tables mean, read against the history of its executions. */
module Accounting {
  import opened Decimal
  import opened AbiValues
  import opened StateManager
  import opened Fuzzer
  import opened Replay
  import opened Coverage
  import opened Plays

  // ------------------------------------------------------------------ coverage

  predicate RanThrough(history: seq<Execution>, t: string) {
    exists i :: 0 <= i < |history| && t in SerializeTransitions(history[i].verdict.dag)
  }

  lemma RanThroughAppend(history: seq<Execution>, e: Execution, t: string)
    ensures RanThrough(history + [e], t) <==> RanThrough(history, t) || t in SerializeTransitions(e.verdict.dag)
  {
    var longer := history + [e];
    if RanThrough(history, t) {
      var i :| 0 <= i < |history| && t in SerializeTransitions(history[i].verdict.dag);
      assert longer[i] == history[i];
    }
    assert longer[|history|] == e;
  }

  /** The execution ran through a transition that neither the start nor an earlier execution knew. */
  ghost predicate Productive(start: Campaign, earlier: seq<Execution>, e: Execution) {
    exists t :: t in SerializeTransitions(e.verdict.dag) && t !in start.coverage && !RanThrough(earlier, t)
  }

  ghost function ProductiveTexts(start: Campaign, history: seq<Execution>): seq<string> {
    if history == [] then []
    else
      var earlier, last := history[..|history| - 1], history[|history| - 1];
      ProductiveTexts(start, earlier) + if Productive(start, earlier, last) then [last.text] else []
  }

  ghost predicate CoverageAccounted(w: World, base: State, start: Campaign, c: Campaign) {
    && Extends(start.coverage, c.coverage)
    && (forall t :: t in c.coverage <==> t in start.coverage || RanThrough(c.history, t))
    && c.testcases == ProductiveTexts(start, c.history)
    && start.corpus <= c.corpus
    && |c.corpus| - |start.corpus| == |c.testcases| <= |c.coverage| - |start.coverage|
    && forall k :: 0 <= k < |c.testcases| ==> RecordOf(w, base, c.corpus[|start.corpus| + k]) == c.testcases[k]
  }

  /** A counted execution extends the coverage exactly when it is productive. */
  lemma CoverageGrowsWhenProductive(start: Campaign, c: Campaign, e: Execution)
    requires Extends(start.coverage, c.coverage)
    requires forall t :: t in c.coverage <==> t in start.coverage || RanThrough(c.history, t)
    ensures var after := AddCoverage(c.coverage, SerializeTransitions(e.verdict.dag));
            && Extends(start.coverage, after)
            && (forall t :: t in after <==> t in start.coverage || RanThrough(c.history + [e], t))
            && |c.coverage| <= |after| && (|c.coverage| < |after| <==> Productive(start, c.history, e))
  {
    var transitions := SerializeTransitions(e.verdict.dag);
    var after := AddCoverage(c.coverage, transitions);
    AddCoverageExtends(c.coverage, transitions);
    ExtendsTransitive(start.coverage, c.coverage, after);
    forall t ensures t in after <==> t in start.coverage || RanThrough(c.history + [e], t) {
      RanThroughAppend(c.history, e, t);
    }
    if |after| > |c.coverage| {
      var t := after[|c.coverage|];
      assert t in after[|c.coverage|..] && t in after && t !in c.coverage;
      assert t in transitions;
    } else {
      assert after == c.coverage;
    }
  }

  lemma RoundKeepsCoverage(w: World, base: State, start: Campaign, c: Campaign, d: Draw)
    requires CoverageAccounted(w, base, start, c) && d.pick < |c.corpus|
    ensures CoverageAccounted(w, base, start, Round(w, base, c, d.pick, d.args))
  {
    var c' := Round(w, base, c, d.pick, d.args);
    if c'.history != c.history {
      var e := c'.history[|c.history|];
      CoverageGrowsWhenProductive(start, c, e);
      assert c'.history[..|c.history|] == c.history;
      assert c'.coverage == AddCoverage(c.coverage, SerializeTransitions(e.verdict.dag));
    }
  }

  // ------------------------------------------------------------------ findings

  predicate Violates(e: Execution, oracle: string) {
    e.verdict.violated && e.verdict.oracle == oracle
  }

  /** Execution i is the earliest among the shortest that violate the oracle. */
  ghost predicate Best(history: seq<Execution>, oracle: string, i: nat) {
    && i < |history| && Violates(history[i], oracle)
    && forall j :: 0 <= j < |history| && Violates(history[j], oracle) ==>
         |history[i].text| < |history[j].text| || (|history[i].text| == |history[j].text| && i <= j)
  }

  ghost predicate First(history: seq<Execution>, oracle: string, i: nat) {
    && i < |history| && Violates(history[i], oracle)
    && forall j :: 0 <= j < i ==> !Violates(history[j], oracle)
  }

  predicate EverViolated(history: seq<Execution>, oracle: string) {
    exists i :: 0 <= i < |history| && Violates(history[i], oracle)
  }

  ghost predicate BestKept(c: Campaign, oracle: string) {
    && (oracle in c.vulns <==> EverViolated(c.history, oracle))
    && (oracle in c.vulns ==> exists i: nat :: Best(c.history, oracle, i) && c.vulns[oracle] == c.history[i].text)
  }

  ghost predicate FirstReported(c: Campaign, k: nat)
    requires k < |c.reports|
  {
    exists i: nat :: First(c.history, c.reports[k].0, i) && c.reports[k].1 == c.history[i].text
  }

  ghost predicate FindingsAccounted(c: Campaign) {
    && (forall oracle :: BestKept(c, oracle))
    && (forall k :: 0 <= k < |c.reports| ==> FirstReported(c, k))
    && (forall j, k :: 0 <= j < k < |c.reports| ==> c.reports[j].0 != c.reports[k].0)
    && (forall oracle :: oracle in c.vulns <==> exists k :: 0 <= k < |c.reports| && c.reports[k].0 == oracle)
  }

  lemma KeepsBest(c: Campaign, c': Campaign, e: Execution, oracle: string)
    requires BestKept(c, oracle) && c'.history == c.history + [e]
    requires var better := e.verdict.oracle in c.vulns ==> |c.vulns[e.verdict.oracle]| > |e.text|;
             c'.vulns == if e.verdict.violated && better then c.vulns[e.verdict.oracle := e.text] else c.vulns
    ensures BestKept(c', oracle)
  {
    var n := |c.history|;
    assert c'.history[n] == e;
    assert forall i :: 0 <= i < n ==> c'.history[i] == c.history[i];
    if oracle in c.vulns {
      var i: nat :| Best(c.history, oracle, i) && c.vulns[oracle] == c.history[i].text;
      assert Violates(c'.history[i], oracle);
      if Violates(e, oracle) && |c.vulns[oracle]| > |e.text| {
        assert Best(c'.history, oracle, n);
      } else {
        assert Best(c'.history, oracle, i);
      }
    } else if Violates(e, oracle) {
      assert Best(c'.history, oracle, n);
    }
  }

  lemma KeepsReports(c: Campaign, c': Campaign, e: Execution)
    requires FindingsAccounted(c) && c'.history == c.history + [e]
    requires c'.reports == if e.verdict.violated && e.verdict.oracle !in c.vulns
                           then c.reports + [(e.verdict.oracle, e.text)] else c.reports
    ensures forall k :: 0 <= k < |c'.reports| ==> FirstReported(c', k)
  {
    var n := |c.history|;
    assert forall i :: 0 <= i < n ==> c'.history[i] == c.history[i];
    forall k | 0 <= k < |c'.reports| ensures FirstReported(c', k) {
      if k < |c.reports| {
        assert FirstReported(c, k);
        var i: nat :| First(c.history, c.reports[k].0, i) && c.reports[k].1 == c.history[i].text;
        assert First(c'.history, c'.reports[k].0, i);
      } else {
        assert BestKept(c, e.verdict.oracle);
        assert c'.history[n] == e;
        assert First(c'.history, e.verdict.oracle, n);
      }
    }
  }

  lemma RoundKeepsFindings(w: World, base: State, c: Campaign, d: Draw)
    requires FindingsAccounted(c) && d.pick < |c.corpus|
    ensures FindingsAccounted(Round(w, base, c, d.pick, d.args))
  {
    var c' := Round(w, base, c, d.pick, d.args);
    if c'.history != c.history {
      var e := c'.history[|c.history|];
      forall oracle ensures BestKept(c', oracle) {
        assert BestKept(c, oracle);
        KeepsBest(c, c', e, oracle);
      }
      KeepsReports(c, c', e);
      forall oracle
        ensures oracle in c'.vulns <==> exists k :: 0 <= k < |c'.reports| && c'.reports[k].0 == oracle
      {
        if oracle in c.vulns {
          var k :| 0 <= k < |c.reports| && c.reports[k].0 == oracle;
          assert c'.reports[k].0 == oracle;
        } else if Violates(e, oracle) {
          assert c'.reports[|c.reports|].0 == oracle;
        }
      }
    }
  }

  // ------------------------------------------------------------------ whole campaigns

  ghost predicate Unstarted(c: Campaign) {
    c.testcases == [] && c.vulns == map[] && c.reports == [] && c.history == []
  }

  lemma {:induction false} RoundsKeepAccounts(w: World, base: State, start: Campaign, c: Campaign, draws: seq<Draw>)
    requires FairDraws(w, base, c, draws)
    requires CoverageAccounted(w, base, start, c) && FindingsAccounted(c)
    ensures var end := Rounds(w, base, c, draws); CoverageAccounted(w, base, start, end) && FindingsAccounted(end)
    decreases |draws|
  {
    if draws != [] {
      RoundKeepsCoverage(w, base, start, c, draws[0]);
      RoundKeepsFindings(w, base, c, draws[0]);
      RoundsKeepAccounts(w, base, start, Round(w, base, c, draws[0].pick, draws[0].args), draws[1..]);
    }
  }

  /** After any number of rounds, the history is the executions of the plays whose call went through;
      coverage has gained exactly their new transitions; the testcases are the executions that gained
      any, in order, and the corpus has gained just their items; each oracle's finding is the earliest
      shortest violating transaction, and each violated oracle was reported once, at its first
      violation. */
  lemma CampaignAccounting(w: World, base: State, start: Campaign, draws: seq<Draw>) returns (plays: seq<Play>)
    requires Unstarted(start) && FairDraws(w, base, start, draws)
    ensures Played(w, base, start, draws, plays)
    ensures var end := Rounds(w, base, start, draws);
            && end.history == Executions(w, base, plays)
            && CoverageAccounted(w, base, start, end) && FindingsAccounted(end)
  {
    plays := RunsAsPlayed(w, base, start, draws);
    RoundsKeepAccounts(w, base, start, start, draws);
  }

  /** Replaying a text yields the oracle, unless the method name it records is ambiguous. */
  ghost predicate ReplaysTo(w: World, prefixes: seq<Prefix>, counter: nat, text: string, oracle: string) {
    var contracts := ContractInfo(w, prefixes, counter).contracts;
    match w.fromText(text)
    case None => false
    case Some(txn) =>
      && txn.idx < |contracts|
      && var r := Rerun(w, prefixes, counter, text);
         if Ambiguous(contracts[txn.idx], txn.name) then r == Null else r.Replayed? && r.oracle == oracle
  }

  lemma KeptFindingReplays(w: World, prefixes: seq<Prefix>, counter: nat, c: Campaign, oracle: string)
    requires Replayable(w, prefixes, counter, c) && BestKept(c, oracle) && oracle in c.vulns
    ensures ReplaysTo(w, prefixes, counter, c.vulns[oracle], oracle)
  {
    var i: nat :| Best(c.history, oracle, i) && c.vulns[oracle] == c.history[i].text;
    assert ReplaysTruly(w, prefixes, counter, c.history[i]);
  }

  lemma ReportReplays(w: World, prefixes: seq<Prefix>, counter: nat, c: Campaign, k: nat)
    requires Replayable(w, prefixes, counter, c) && k < |c.reports| && FirstReported(c, k)
    ensures ReplaysTo(w, prefixes, counter, c.reports[k].1, c.reports[k].0)
  {
    var i: nat :| First(c.history, c.reports[k].0, i) && c.reports[k].1 == c.history[i].text;
    assert ReplaysTruly(w, prefixes, counter, c.history[i]);
  }

  /** The campaign that fair draws lead to from the contracts' methods and the known testcases. */
  ghost predicate Reached(w: World, prefixes: seq<Prefix>, counter: nat, testcases: seq<string>, draws: seq<Draw>,
                          end: Campaign) {
    var start := Start(w, prefixes, counter, testcases);
    var base := ContractInfo(w, prefixes, counter).state;
    start.Some? && FairDraws(w, base, start.value, draws) && end == Rounds(w, base, start.value, draws)
  }

  lemma ReachedCampaigns(w: World, prefixes: seq<Prefix>, counter: nat, testcases: seq<string>, draws: seq<Draw>,
                         end: Campaign) returns (plays: seq<Play>)
    requires Invertible(w) && Reached(w, prefixes, counter, testcases, draws, end)
    ensures Replayable(w, prefixes, counter, end) && FindingsAccounted(end)
    ensures var base, start := ContractInfo(w, prefixes, counter).state, Start(w, prefixes, counter, testcases).value;
            && CoverageAccounted(w, base, start, end)
            && Played(w, base, start, draws, plays) && end.history == Executions(w, base, plays)
  {
    var start := Start(w, prefixes, counter, testcases).value;
    StartIsReplayable(w, prefixes, counter, testcases);
    RoundsKeepReplayable(w, prefixes, counter, start, draws);
    plays := CampaignAccounting(w, ContractInfo(w, prefixes, counter).state, start, draws);
  }

  /** Every finding a campaign keeps, and every finding it reported, replays on a fresh deployment
      that starts from the same counter, to the very oracle it is filed under. */
  lemma FindingsReplay(w: World, prefixes: seq<Prefix>, counter: nat, testcases: seq<string>, draws: seq<Draw>,
                       end: Campaign)
    requires Invertible(w) && Reached(w, prefixes, counter, testcases, draws, end)
    ensures forall oracle :: oracle in end.vulns ==> ReplaysTo(w, prefixes, counter, end.vulns[oracle], oracle)
    ensures forall k :: 0 <= k < |end.reports| ==> ReplaysTo(w, prefixes, counter, end.reports[k].1, end.reports[k].0)
  {
    var _ := ReachedCampaigns(w, prefixes, counter, testcases, draws, end);
    forall oracle | oracle in end.vulns ensures ReplaysTo(w, prefixes, counter, end.vulns[oracle], oracle) {
      assert BestKept(end, oracle);
      KeptFindingReplays(w, prefixes, counter, end, oracle);
    }
    forall k | 0 <= k < |end.reports| ensures ReplaysTo(w, prefixes, counter, end.reports[k].1, end.reports[k].0) {
      ReportReplays(w, prefixes, counter, end, k);
    }
  }
}
