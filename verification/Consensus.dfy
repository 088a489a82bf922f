/** From a miner's finding to a validator's vote: the reward rule, the check a validator makes, and
    when the two sides agree. */
module Consensus {
  import opened Fuzzer
  import opened Replay
  import opened Accounting
  import OracleId

  /** A name's UTF-16 code units; characters beyond the basic plane take two. */
  function CodeUnits(name: string): seq<OracleId.CodeUnit> {
    if name == [] then []
    else
      var c := name[0] as int;
      var units := if c < 0x1_0000 then [c] else [0xD800 + (c - 0x1_0000) / 0x400 % 0x400, 0xDC00 + c % 0x400];
      units + CodeUnits(name[1..])
  }

  /** The characters that code units stand for: a high and a low surrogate make one. */
  function Characters(units: seq<OracleId.CodeUnit>): seq<int> {
    if units == [] then []
    else if |units| >= 2 && 0xD800 <= units[0] < 0xDC00 && 0xDC00 <= units[1] < 0xE000 then
      [0x1_0000 + (units[0] - 0xD800) * 0x400 + (units[1] - 0xDC00)] + Characters(units[2..])
    else [units[0]] + Characters(units[1..])
  }

  lemma {:induction false} CodeUnitsStandForName(name: string)
    ensures |Characters(CodeUnits(name))| == |name|
    ensures forall k :: 0 <= k < |name| ==> Characters(CodeUnits(name))[k] == name[k] as int
  {
    if name != [] {
      var c, rest := name[0] as int, CodeUnits(name[1..]);
      CodeUnitsStandForName(name[1..]);
      if c < 0x1_0000 {
        assert CodeUnits(name) == [c] + rest && CodeUnits(name)[1..] == rest;
      } else {
        assert CodeUnits(name)[2..] == rest;
        assert Characters(CodeUnits(name)) == [c] + Characters(rest);
      }
    }
  }

  function IdOf(oracle: string): nat { OracleId.Id(CodeUnits(oracle)) }

  /** What the protocol contract and the project's split of its rewards tell about a project. */
  datatype Project = Project(prefixes: seq<Prefix>, frozen: set<nat>, splittings: map<string, real>, baseReward: real)

  function MinerReward(p: Project, oracle: string): real {
    if IdOf(oracle) in p.frozen then 0.0
    else if oracle in p.splittings then p.splittings[oracle] * p.baseReward
    else 0.0
  }

  lemma ProductPositive(x: real, y: real)
    ensures x * y > 0.0 <==> (x > 0.0 && y > 0.0) || (x < 0.0 && y < 0.0)
  {
  }

  /** An oracle is rewarded exactly when it is not frozen and its share and the base reward have one sign. */
  lemma RewardPositive(p: Project, oracle: string)
    ensures MinerReward(p, oracle) > 0.0 <==>
            && IdOf(oracle) !in p.frozen && oracle in p.splittings
            && var share := p.splittings[oracle];
               (share > 0.0 && p.baseReward > 0.0) || (share < 0.0 && p.baseReward < 0.0)
  {
    if oracle in p.splittings { ProductPositive(p.splittings[oracle], p.baseReward); }
  }

  /** What the oracles are rewarded with altogether. */
  function TotalReward(p: Project, oracles: seq<string>): real {
    if oracles == [] then 0.0 else MinerReward(p, oracles[0]) + TotalReward(p, oracles[1..])
  }

  /** The shares of those oracles that are not frozen. */
  function OpenShares(p: Project, oracles: seq<string>): real {
    if oracles == [] then 0.0
    else
      var first := oracles[0];
      (if first in p.splittings && IdOf(first) !in p.frozen then p.splittings[first] else 0.0)
      + OpenShares(p, oracles[1..])
  }

  /** The base reward is handed out in the proportion of the shares: whatever oracles are found, they
      get as much of it as their unfrozen shares add up to. */
  lemma {:induction false} RewardsAddUp(p: Project, oracles: seq<string>)
    ensures TotalReward(p, oracles) == OpenShares(p, oracles) * p.baseReward
  {
    if oracles != [] { RewardsAddUp(p, oracles[1..]); }
  }

  datatype Vote = Aye | Nay | Rejected

  function CheckAndVote(w: World, p: Project, counter: nat, text: string, oracleId: nat, rewards: int): Vote {
    match Rerun(w, p.prefixes, counter, text)
    case Thrown => Rejected
    case Null => Nay
    case Replayed(oracle, _, _) =>
      if oracle == "" then Nay
      else if IdOf(oracle) != oracleId then Nay
      else if rewards <= 0 || rewards as real != MinerReward(p, oracle) then Nay
      else Aye
  }

  // ------------------------------------------------------------------ the miner's side

  datatype Mint = Mint(text: string, project: nat, reward: int, oracleId: nat)

  /** Only a whole number can be minted; for any other the conversion throws. */
  predicate Whole(reward: real) {
    reward.Floor as real == reward
  }

  function MintOf(id: nat, project: Project, report: (string, string)): Mint {
    Mint(report.1, id, MinerReward(project, report.0).Floor, IdOf(report.0))
  }

  predicate Throws(project: Project, oracle: string) {
    MinerReward(project, oracle) > 0.0 && !Whole(MinerReward(project, oracle))
  }

  class Miner {
    var reported: set<(nat, string)>
    var minted: seq<Mint>

    constructor ()
      ensures reported == {} && minted == []
    {
      reported, minted := {}, [];
    }

    /** The bug handler: claims the oracle before anything else, and mints when there is a reward. */
    method OnBug(id: nat, project: Project, oracle: string, text: string) returns (thrown: bool)
      modifies this
      ensures reported == old(reported) + {(id, oracle)}
      ensures thrown == ((id, oracle) !in old(reported) && Throws(project, oracle))
      ensures minted == old(minted) +
                if (id, oracle) !in old(reported) && MinerReward(project, oracle) > 0.0 && !thrown
                then [MintOf(id, project, (oracle, text))] else []
    {
      if (id, oracle) in reported {
        assert reported == reported + {(id, oracle)};
        return false;
      }
      reported := reported + {(id, oracle)};
      var reward := MinerReward(project, oracle);
      if reward > 0.0 {
        var oracleId := OracleId.ToOracleId(CodeUnits(oracle));
        if !Whole(reward) { return true; }
        minted := minted + [Mint(text, id, reward.Floor, oracleId)];
      }
      thrown := false;
    }

    /** One campaign's reports, handled in order; a handler that throws ends the campaign. */
    method OnBugs(id: nat, project: Project, reports: seq<(string, string)>) returns (handled: nat)
      requires forall j, k :: 0 <= j < k < |reports| ==> reports[j].0 != reports[k].0
      requires forall k :: 0 <= k < |reports| ==> (id, reports[k].0) !in reported
      modifies this
      ensures handled <= |reports| && minted == old(minted) + MintsFor(id, project, reports[..handled])
      ensures forall k :: 0 <= k < handled ==> !Throws(project, reports[k].0)
      ensures handled < |reports| ==> Throws(project, reports[handled].0)
    {
      handled := 0;
      while handled < |reports|
        invariant handled <= |reports| && minted == old(minted) + MintsFor(id, project, reports[..handled])
        invariant forall j :: handled <= j < |reports| ==> (id, reports[j].0) !in reported
        invariant forall k :: 0 <= k < handled ==> !Throws(project, reports[k].0)
      {
        var thrown := OnBug(id, project, reports[handled].0, reports[handled].1);
        if thrown { return; }
        assert reports[..handled + 1][..handled] == reports[..handled];
        handled := handled + 1;
      }
    }
  }

  /** What the reports lead to when none of them throws. */
  function MintsFor(id: nat, project: Project, reports: seq<(string, string)>): seq<Mint> {
    if reports == [] then []
    else
      var last := reports[|reports| - 1];
      MintsFor(id, project, reports[..|reports| - 1])
      + if MinerReward(project, last.0) > 0.0 then [MintOf(id, project, last)] else []
  }

  // ------------------------------------------------------------------ agreement

  /** A validator confirms a claim exactly when its text replays to a named oracle for which a miner
      that has reported nothing yet would mint that very claim; a malformed text fails the check. */
  lemma AyeMeansMintable(w: World, p: Project, id: nat, counter: nat, text: string, oracleId: nat, rewards: int)
    ensures var r := Rerun(w, p.prefixes, counter, text);
            CheckAndVote(w, p, counter, text, oracleId, rewards) == Aye <==>
              && r.Replayed? && r.oracle != "" && !Throws(p, r.oracle)
              && MintsFor(id, p, [(r.oracle, text)]) == [Mint(text, id, rewards, oracleId)]
    ensures CheckAndVote(w, p, counter, text, oracleId, rewards) == Rejected
            <==> Rerun(w, p.prefixes, counter, text).Thrown?
  {
    var r := Rerun(w, p.prefixes, counter, text);
    if r.Replayed? {
      MintsForOne(id, p, (r.oracle, text));
      WholeRewards(MinerReward(p, r.oracle), rewards);
    }
  }

  lemma WholeRewards(reward: real, rewards: int)
    ensures rewards as real == reward <==> Whole(reward) && reward.Floor == rewards
  {
  }

  lemma MintsForOne(id: nat, p: Project, report: (string, string))
    ensures MintsFor(id, p, [report]) == if MinerReward(p, report.0) > 0.0 then [MintOf(id, p, report)] else []
  {
    assert [report][..0] == [];
  }

  /** The same with a miner at work: it is handed the oracle that the text replays to. */
  method MinerAgrees(w: World, p: Project, id: nat, counter: nat, text: string, oracleId: nat, rewards: int)
    returns (agreed: bool)
    ensures agreed == (CheckAndVote(w, p, counter, text, oracleId, rewards) == Aye)
  {
    AyeMeansMintable(w, p, id, counter, text, oracleId, rewards);
    var r := Rerun(w, p.prefixes, counter, text);
    if !r.Replayed? || r.oracle == "" { return false; }
    MintsForOne(id, p, (r.oracle, text));
    var miner := new Miner();
    var thrown := miner.OnBug(id, p, r.oracle, text);
    agreed := !thrown && miner.minted == [Mint(text, id, rewards, oracleId)];
  }

  /** Two claims on one text that are both confirmed name the same oracle and the same reward. */
  lemma ConfirmedClaimsAgree(w: World, p: Project, counter: nat, text: string, oracleId: nat, rewards: int,
                             otherId: nat, otherRewards: int)
    requires CheckAndVote(w, p, counter, text, oracleId, rewards) == Aye
    requires CheckAndVote(w, p, counter, text, otherId, otherRewards) == Aye
    ensures oracleId == otherId && rewards == otherRewards > 0
  {
    AyeMeansMintable(w, p, 0, counter, text, oracleId, rewards);
    AyeMeansMintable(w, p, 0, counter, text, otherId, otherRewards);
    assert [Mint(text, 0, rewards, oracleId)][0] == [Mint(text, 0, otherRewards, otherId)][0];
  }

  lemma MintedReport(id: nat, project: Project, reports: seq<(string, string)>, m: Mint) returns (k: nat)
    requires m in MintsFor(id, project, reports)
    ensures k < |reports| && m == MintOf(id, project, reports[k]) && MinerReward(project, reports[k].0) > 0.0
  {
    var last := |reports| - 1;
    if m in MintsFor(id, project, reports[..last]) {
      k := MintedReport(id, project, reports[..last], m);
    } else {
      k := last;
    }
  }

  /** Any validator's verdict on anything that a miner mints from a campaign, when it replays from
      the same deployment count while the project's terms stand: Aye, unless several methods of the
      contract share the recorded name, or the oracle has no name. */
  lemma MintedClaimsAreJudged(w: World, p: Project, id: nat, counter: nat, testcases: seq<string>, draws: seq<Draw>,
                              end: Campaign, handled: nat, m: Mint) returns (oracle: string)
    requires Invertible(w) && Reached(w, p.prefixes, counter, testcases, draws, end)
    requires handled <= |end.reports| && forall k :: 0 <= k < handled ==> !Throws(p, end.reports[k].0)
    requires m in MintsFor(id, p, end.reports[..handled])
    ensures m.oracleId == IdOf(oracle) && oracle in end.vulns && m.reward as real == MinerReward(p, oracle) > 0.0
    ensures w.fromText(m.text).Some?
    ensures var txn := w.fromText(m.text).value; var contracts := ContractInfo(w, p.prefixes, counter).contracts;
            txn.idx < |contracts| &&
            CheckAndVote(w, p, counter, m.text, m.oracleId, m.reward) ==
              if Ambiguous(contracts[txn.idx], txn.name) || oracle == "" then Nay else Aye
  {
    var k := MintedReport(id, p, end.reports[..handled], m);
    oracle := end.reports[k].0;
    FindingsReplay(w, p.prefixes, counter, testcases, draws, end);
    var _ := ReachedCampaigns(w, p.prefixes, counter, testcases, draws, end);
    assert ReplaysTo(w, p.prefixes, counter, m.text, oracle);
  }
}
