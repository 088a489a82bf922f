/** What no interleaving of the validator's callbacks can break. */
module ValidatorProofs {
  import opened Validator
  import Common

  // ------------------------------------------------------------------ counting

  function Votes(log: seq<Entry>, t: Token): nat {
    if log == [] then 0
    else Votes(log[..|log| - 1], t)
         + if IsVote(log[|log| - 1], t) then 1 else 0
  }

  predicate IsVote(e: Entry, t: Token) {
    (e.VoteAye? || e.VoteNay?) && e.token == t
  }

  lemma {:induction false} VotesConcat(log: seq<Entry>, added: seq<Entry>, t: Token)
    ensures Votes(log + added, t) == Votes(log, t) + Votes(added, t)
  {
    if added == [] {
      assert log + added == log;
    } else {
      var last := |added| - 1;
      VotesConcat(log, added[..last], t);
      assert (log + added)[..|log| + last] == log + added[..last];
    }
  }

  /** The callback has claimed the token but not cast its vote; if it was aborted there, it never will. */
  predicate Owes(c: Callback, t: Token) {
    (c.stage == AwaitProject || c.stage == AwaitVerdict) && c.Wf() && c.Token() == t
  }

  function Owing(callbacks: seq<Callback>, t: Token): nat {
    if callbacks == [] then 0
    else Owing(callbacks[..|callbacks| - 1], t) + if Owes(callbacks[|callbacks| - 1], t) then 1 else 0
  }

  lemma {:induction false} OwingUpdate(callbacks: seq<Callback>, i: nat, c: Callback, t: Token)
    requires i < |callbacks|
    ensures Owing(callbacks[i := c], t) + (if Owes(callbacks[i], t) then 1 else 0)
         == Owing(callbacks, t) + if Owes(c, t) then 1 else 0
  {
    var last := |callbacks| - 1;
    if i == last {
      assert callbacks[i := c][..last] == callbacks[..last];
    } else {
      OwingUpdate(callbacks[..last], i, c, t);
      assert callbacks[i := c][..last] == callbacks[..last][i := c];
    }
  }

  lemma {:induction false} OwingSpawn(callbacks: seq<Callback>, born: seq<Callback>, t: Token)
    requires forall i :: 0 <= i < |born| ==> born[i].stage == AtEvent
    ensures Owing(callbacks + born, t) == Owing(callbacks, t)
  {
    if born == [] {
      assert callbacks + born == callbacks;
    } else {
      OwingSpawn(callbacks, born[..|born| - 1], t);
      assert (callbacks + born)[..|callbacks| + |born| - 1] == callbacks + born[..|born| - 1];
    }
  }

  // ------------------------------------------------------------------ at most one vote

  /** Each claimed token is accounted for once: by its vote, or by the callback that still owes it. */
  ghost predicate Balanced(s: State) {
    forall t :: Votes(s.log, t) + Owing(s.callbacks, t) == if t in s.voted && t != "0" then 1 else 0
  }

  /** What one resumption can add to the log: nothing, what it learned, or an answer and the call it leads to. */
  ghost predicate Addition(added: seq<Entry>, i: nat, t: Token) {
    || added == [] || added == [Frozen(i, t)] || added == [Added(i, t)]
    || added == [ReadyTrue(i, t), PostProcess(i, t)]
    || added == [Judged(i, t, true), VoteAye(i, t)] || added == [Judged(i, t, false), VoteNay(i, t)]
  }

  /** A resumed callback changes only its own entry. */
  lemma ResumeShape(s: State, i: nat, answer: Answer) returns (c: Callback, added: seq<Entry>, t: Token)
    requires Wf(s) && i < |s.callbacks|
    ensures var s' := ResumeCallback(s, i, answer);
            && s'.callbacks == s.callbacks[i := c] && s'.log == s.log + added
            && s.voted <= s'.voted && c.events == s.callbacks[i].events
    ensures Addition(added, i, t) && (added != [] ==> s.callbacks[i].stage != AtEvent && t == s.callbacks[i].Token())
  {
    var s' := ResumeCallback(s, i, answer);
    c := s'.callbacks[i];
    added := s'.log[|s.log|..];
    t := if s.callbacks[i].stage == AtEvent then "" else s.callbacks[i].Token();
  }

  lemma VotesInAddition(added: seq<Entry>, i: nat, u: Token, t: Token)
    requires Addition(added, i, u)
    ensures Votes(added, t) == if u == t && |added| == 2 && !added[1].PostProcess? then 1 else 0
  {
    if |added| == 2 {
      assert added[..1] == [added[0]] && added[..1][..0] == [];
    } else if |added| == 1 {
      assert added[..0] == [];
    }
  }

  lemma ResumeKeepsBalanceOf(s: State, i: nat, answer: Answer, t: Token)
    requires Wf(s) && i < |s.callbacks| && "0" in s.voted
    requires Votes(s.log, t) + Owing(s.callbacks, t) == if t in s.voted && t != "0" then 1 else 0
    ensures var s' := ResumeCallback(s, i, answer);
            Votes(s'.log, t) + Owing(s'.callbacks, t) == if t in s'.voted && t != "0" then 1 else 0
  {
    var c, added, u := ResumeShape(s, i, answer);
    VotesConcat(s.log, added, t);
    VotesInAddition(added, i, u, t);
    OwingUpdate(s.callbacks, i, c, t);
    OwesChange(s, i, answer, t);
  }

  /** A callback comes to owe a vote exactly by claiming the token, and stops owing exactly by voting. */
  lemma OwesChange(s: State, i: nat, answer: Answer, t: Token)
    requires Wf(s) && i < |s.callbacks| && "0" in s.voted
    ensures var s' := ResumeCallback(s, i, answer); var before, after := s.callbacks[i], s'.callbacks[i];
            && (!Owes(before, t) && Owes(after, t) <==> t !in s.voted && t in s'.voted)
            && (Owes(before, t) && !Owes(after, t) <==> |s'.log| == |s.log| + 2 && IsVote(s'.log[|s.log| + 1], t))
  {
  }

  lemma ResumeKeepsBalance(s: State, i: nat, answer: Answer)
    requires Wf(s) && i < |s.callbacks| && Balanced(s) && "0" in s.voted
    ensures Balanced(ResumeCallback(s, i, answer))
  {
    var s' := ResumeCallback(s, i, answer);
    forall t ensures Votes(s'.log, t) + Owing(s'.callbacks, t) == if t in s'.voted && t != "0" then 1 else 0 {
      assert Votes(s.log, t) + Owing(s.callbacks, t) == if t in s.voted && t != "0" then 1 else 0;
      ResumeKeepsBalanceOf(s, i, answer, t);
    }
  }

  lemma {:induction false} RunsBalance(chain: seq<Event>, actions: seq<Action>)
    ensures Balanced(Run(chain, actions)) && "0" in Run(chain, actions).voted
  {
    if actions != [] {
      var prefix := actions[..|actions| - 1];
      RunsBalance(chain, prefix);
      var s, s' := Run(chain, prefix), Run(chain, actions);
      match actions[|actions| - 1] {
        case Poll(latest, failed) =>
          forall t ensures Owing(s'.callbacks, t) == Owing(s.callbacks, t) {
            OwingSpawn(s.callbacks, s'.callbacks[|s.callbacks|..], t);
            assert s'.callbacks == s.callbacks + s'.callbacks[|s.callbacks|..];
          }
          assert forall t :: Votes(s'.log, t) == Votes(s.log, t);
        case Resume(i, answer) =>
          if i < |s.callbacks| { ResumeKeepsBalance(s, i, answer); }
      }
    }
  }

  /** However callbacks interleave and windows repeat, no token is voted on twice, none is voted on
      before it is in the voted set, and the placeholder "0" never is. */
  lemma AtMostOneVote(chain: seq<Event>, actions: seq<Action>, t: Token)
    ensures Votes(Run(chain, actions).log, t) <= 1
    ensures Votes(Run(chain, actions).log, t) == 1 ==> t in Run(chain, actions).voted && t != "0"
  {
    RunsBalance(chain, actions);
    assert Votes(Run(chain, actions).log, t) + Owing(Run(chain, actions).callbacks, t)
        == if t in Run(chain, actions).voted && t != "0" then 1 else 0;
  }

  // ------------------------------------------------------------------ post-processing

  predicate ClaimedBy(log: seq<Entry>, t: Token) {
    t == "0" || exists q :: 0 <= q < |log| && log[q].Added? && log[q].token == t
  }

  /** Each answer and the call it leads to stand together: a ready answer with the post-processing, a
      verdict with the vote of the same sense.  The token had been claimed before. */
  ghost predicate Paired(log: seq<Entry>, p: nat)
    requires p < |log|
  {
    match log[p]
    case PostProcess(i, t) => p > 0 && log[p - 1] == ReadyTrue(i, t) && ClaimedBy(log[..p - 1], t)
    case ReadyTrue(i, t) => p + 1 < |log| && log[p + 1] == PostProcess(i, t)
    case VoteAye(i, t) => p > 0 && log[p - 1] == Judged(i, t, true) && ClaimedBy(log[..p - 1], t)
    case VoteNay(i, t) => p > 0 && log[p - 1] == Judged(i, t, false) && ClaimedBy(log[..p - 1], t)
    case Judged(i, t, valid) => p + 1 < |log| && log[p + 1] == if valid then VoteAye(i, t) else VoteNay(i, t)
    case _ => true
  }

  ghost predicate Disciplined(s: State) {
    && (forall p :: 0 <= p < |s.log| ==> Paired(s.log, p))
    && (forall t :: t in s.voted ==> ClaimedBy(s.log, t))
    && (forall i :: 0 <= i < |s.callbacks| ==> PastClaim(s.callbacks[i], s.voted))
  }

  /** Beyond the freeze check a callback works on a token that is in the voted set. */
  predicate PastClaim(c: Callback, voted: set<Token>) {
    c.stage != AtEvent && c.stage != AwaitFrozen && c.Wf() ==> c.Token() in voted
  }

  lemma ClaimedGrows(log: seq<Entry>, added: seq<Entry>, t: Token)
    requires ClaimedBy(log, t)
    ensures ClaimedBy(log + added, t)
  {
    if t != "0" {
      var q :| 0 <= q < |log| && log[q].Added? && log[q].token == t;
      assert (log + added)[q] == log[q];
    }
  }

  lemma PairedGrows(log: seq<Entry>, added: seq<Entry>, i: nat, t: Token, p: nat)
    requires forall q :: 0 <= q < |log| ==> Paired(log, q)
    requires Addition(added, i, t) && (|added| == 2 ==> ClaimedBy(log, t)) && p < |log + added|
    ensures Paired(log + added, p)
  {
    var longer := log + added;
    if p < |log| {
      assert Paired(log, p);
      assert longer[p] == log[p];
      if p > 0 { assert longer[..p - 1] == log[..p - 1]; }
    } else {
      assert longer[..|log|] == log;
    }
  }

  lemma ResumeKeepsDiscipline(s: State, i: nat, answer: Answer)
    requires Wf(s) && i < |s.callbacks| && Disciplined(s)
    ensures Disciplined(ResumeCallback(s, i, answer))
  {
    var s' := ResumeCallback(s, i, answer);
    var c, added, u := ResumeShape(s, i, answer);
    assert PastClaim(s.callbacks[i], s.voted);
    forall t | t in s'.voted ensures ClaimedBy(s'.log, t) {
      if t in s.voted {
        ClaimedGrows(s.log, added, t);
      } else {
        assert s'.log[|s.log|] == Added(i, t);
      }
    }
    forall j | 0 <= j < |s'.callbacks| ensures PastClaim(s'.callbacks[j], s'.voted) {
      assert PastClaim(s.callbacks[j], s.voted);
    }
    forall p | 0 <= p < |s'.log| ensures Paired(s'.log, p) {
      PairedGrows(s.log, added, i, u, p);
    }
  }

  lemma {:induction false} RunsAreDisciplined(chain: seq<Event>, actions: seq<Action>)
    ensures Disciplined(Run(chain, actions))
  {
    if actions != [] {
      var prefix := actions[..|actions| - 1];
      RunsAreDisciplined(chain, prefix);
      match actions[|actions| - 1] {
        case Poll(_, _) =>
        case Resume(i, answer) =>
          if i < |Run(chain, prefix).callbacks| { ResumeKeepsDiscipline(Run(chain, prefix), i, answer); }
      }
    }
  }

  /** VotePostProcessAye is called exactly when the same callback has just learned that the token is
      ready, a vote is cast exactly when it has just judged the claim and in that sense, and both only
      for tokens claimed earlier in the run. */
  lemma CallsFollowAnswers(chain: seq<Event>, actions: seq<Action>, p: nat)
    requires p < |Run(chain, actions).log|
    ensures Paired(Run(chain, actions).log, p)
  {
    RunsAreDisciplined(chain, actions);
  }

  // ------------------------------------------------------------------ nothing is missed

  /** The progress entry is written under one name and read under another, so every poll starts over. */
  lemma {:induction false} EveryPollStartsOver(chain: seq<Event>, actions: seq<Action>)
    ensures FirstBlock(Run(chain, actions).lastBlock, "Minted") == START_FETCH_BLOCK
    ensures "Minted" !in Run(chain, actions).lastBlock
  {
    if actions != [] {
      EveryPollStartsOver(chain, actions[..|actions| - 1]);
    }
  }

  predicate Handled(s: State, i: nat, t: Token) {
    t in s.voted || Frozen(i, t) in s.log
  }

  ghost predicate KeepsUp(s: State, i: nat)
    requires i < |s.callbacks|
  {
    var c := s.callbacks[i];
    c.next <= |c.events| && forall j :: 0 <= j < c.next && c.events[j].Minted? ==> Handled(s, i, c.events[j].token)
  }

  lemma ResumeKeepsUp(s: State, i: nat, answer: Answer, k: nat)
    requires Wf(s) && i < |s.callbacks| && k < |s.callbacks|
    requires KeepsUp(s, k) && PastClaim(s.callbacks[k], s.voted)
    ensures KeepsUp(ResumeCallback(s, i, answer), k)
    ensures ResumeCallback(s, i, answer).callbacks[k].events == s.callbacks[k].events
  {
    var s' := ResumeCallback(s, i, answer);
    var c, added, u := ResumeShape(s, i, answer);
    var before, after := s.callbacks[k], s'.callbacks[k];
    forall j | 0 <= j < after.next && after.events[j].Minted? ensures Handled(s', k, after.events[j].token) {
      if j < before.next {
        assert Handled(s, k, before.events[j].token);
      } else if before.stage == AwaitFrozen {
        assert s'.log[|s.log|] == Frozen(k, before.Token());
      }
    }
  }

  lemma {:induction false} CallbacksKeepUp(chain: seq<Event>, actions: seq<Action>, k: nat)
    requires k < |Run(chain, actions).callbacks|
    ensures KeepsUp(Run(chain, actions), k)
  {
    var prefix := actions[..|actions| - 1];
    var s := Run(chain, prefix);
    match actions[|actions| - 1] {
      case Poll(_, _) =>
        if k < |s.callbacks| {
          CallbacksKeepUp(chain, prefix, k);
          var s' := Run(chain, actions);
          assert s'.callbacks[k] == s.callbacks[k];
          forall j | 0 <= j < s.callbacks[k].next && s.callbacks[k].events[j].Minted?
            ensures Handled(s', k, s.callbacks[k].events[j].token)
          {
            assert Handled(s, k, s.callbacks[k].events[j].token);
          }
        }
      case Resume(i, answer) =>
        CallbacksKeepUp(chain, prefix, k);
        if i < |s.callbacks| {
          RunsAreDisciplined(chain, prefix);
          ResumeKeepsUp(s, i, answer, k);
        }
    }
  }

  lemma StepKeepsEvents(chain: seq<Event>, s: State, a: Action, k: nat)
    requires Wf(s) && k < |s.callbacks|
    ensures k < |Step(chain, s, a).callbacks| && Step(chain, s, a).callbacks[k].events == s.callbacks[k].events
  {
    if a.Resume? && a.callback < |s.callbacks| { var c, added, u := ResumeShape(s, a.callback, a.answer); }
  }

  lemma LastAction(chain: seq<Event>, actions: seq<Action>, more: seq<Action>)
    requires more != []
    ensures Run(chain, actions + more) == Step(chain, Run(chain, actions + more[..|more| - 1]), more[|more| - 1])
  {
    Common.DropLastOfConcat(actions, more);
  }

  /** Later actions only add callbacks; none loses its events. */
  lemma {:induction false} CallbacksPersist(chain: seq<Event>, actions: seq<Action>, more: seq<Action>, k: nat)
    requires k < |Run(chain, actions).callbacks|
    ensures k < |Run(chain, actions + more).callbacks|
    ensures Run(chain, actions + more).callbacks[k].events == Run(chain, actions).callbacks[k].events
  {
    if more == [] {
      assert actions + more == actions;
    } else {
      var fewer, last := more[..|more| - 1], more[|more| - 1];
      CallbacksPersist(chain, actions, fewer, k);
      LastAction(chain, actions, more);
      StepKeepsEvents(chain, Run(chain, actions + fewer), last, k);
    }
  }

  /** A window's callback gets exactly the chain's events of its blocks, as often as the chain has them. */
  lemma {:induction false} WindowEvents(chain: seq<Event>, w: Window, e: Event)
    ensures multiset(EventsIn(chain, w))[e] == if w.fromBlock <= e.block <= w.toBlock then multiset(chain)[e] else 0
  {
    if chain != [] {
      WindowEvents(chain[1..], w, e);
      assert chain == [chain[0]] + chain[1..];
    }
  }

  /** The windows whose fetch reports no error. */
  function Fetched(windows: seq<Window>, failed: set<nat>, index: nat): seq<Window> {
    if windows == [] then []
    else (if index in failed then [] else [windows[0]]) + Fetched(windows[1..], failed, index + 1)
  }

  /** How often an event is handed to these callbacks. */
  function Delivered(callbacks: seq<Callback>, e: Event): nat {
    if callbacks == [] then 0 else multiset(callbacks[0].events)[e] + Delivered(callbacks[1..], e)
  }

  /** So many for each window that covers the block. */
  function ForEach(windows: seq<Window>, block: nat, count: nat): nat {
    if windows == [] then 0
    else (if windows[0].fromBlock <= block <= windows[0].toBlock then count else 0)
         + ForEach(windows[1..], block, count)
  }

  lemma {:induction false} ForEachIsProduct(windows: seq<Window>, block: nat, count: nat)
    ensures ForEach(windows, block, count) == TimesCovered(windows, block) * count
  {
    if windows != [] {
      ForEachIsProduct(windows[1..], block, count);
      OneMore(TimesCovered(windows[1..], block), count);
    }
  }

  lemma OneMore(n: nat, m: nat)
    ensures (1 + n) * m == m + n * m
  {
  }

  lemma FirstDelivers(born: seq<Callback>, c: Callback, windows: seq<Window>, w: Window, e: Event, count: nat)
    requires Delivered(born, e) == ForEach(windows, e.block, count)
    requires multiset(c.events)[e] == if w.fromBlock <= e.block <= w.toBlock then count else 0
    ensures Delivered([c] + born, e) == ForEach([w] + windows, e.block, count)
  {
    assert ([w] + windows)[1..] == windows && ([c] + born)[1..] == born;
  }

  lemma {:induction false} SpawnedDelivers(chain: seq<Event>, windows: seq<Window>, failed: set<nat>, index: nat,
                                           e: Event)
    ensures Delivered(Spawned(chain, windows, failed, index), e)
         == ForEach(Fetched(windows, failed, index), e.block, multiset(chain)[e])
  {
    if windows != [] {
      SpawnedDelivers(chain, windows[1..], failed, index + 1, e);
      var born, fetched := Spawned(chain, windows[1..], failed, index + 1), Fetched(windows[1..], failed, index + 1);
      if index !in failed {
        WindowEvents(chain, windows[0], e);
        FirstDelivers(born, Callback(EventsIn(chain, windows[0]), 0, AtEvent, false), fetched, windows[0], e,
          multiset(chain)[e]);
      } else {
        assert [] + born == born && [] + fetched == fetched;
      }
    }
  }

  /** A poll, at any time, adds idle callbacks that are handed every event of the chain as often as the
      windows fetched without an error cover its block, counted from the start block, and changes
      nothing else. */
  lemma PollDelivers(chain: seq<Event>, actions: seq<Action>, latest: nat, failed: set<nat>, e: Event)
    returns (born: seq<Callback>)
    ensures var s := Run(chain, actions);
            Run(chain, actions + [Poll(latest, failed)]) == s.(callbacks := s.callbacks + born)
    ensures forall i :: 0 <= i < |born| ==> born[i].next == 0 && born[i].stage == AtEvent && !born[i].aborted
    ensures var fetched := Fetched(Windows(START_FETCH_BLOCK, latest), failed, 0);
            Delivered(born, e) == TimesCovered(fetched, e.block) * multiset(chain)[e]
  {
    EveryPollStartsOver(chain, actions);
    born := Spawned(chain, Windows(START_FETCH_BLOCK, latest), failed, 0);
    Common.DropLastOfAppend(actions, Poll(latest, failed));
    SpawnedDelivers(chain, Windows(START_FETCH_BLOCK, latest), failed, 0, e);
    ForEachIsProduct(Fetched(Windows(START_FETCH_BLOCK, latest), failed, 0), e.block, multiset(chain)[e]);
  }

  predicate Passed(s: State, i: nat, j: nat) {
    i < |s.callbacks| && j < s.callbacks[i].next <= |s.callbacks[i].events|
  }

  function Progress(s: State): nat {
    if "uvulns" in s.lastBlock then s.lastBlock["uvulns"] else 0
  }

  /** The progress noted is no smaller than the block of any other event that a callback has passed. */
  ghost predicate Noted(s: State) {
    forall i: nat, j: nat :: Passed(s, i, j) && s.callbacks[i].events[j].OtherEvent? ==>
      s.callbacks[i].events[j].block <= Progress(s)
  }

  /** It is zero or the block of an event that some callback has passed. */
  ghost predicate Sourced(s: State) {
    Progress(s) == 0
    || exists i: nat, j: nat :: Passed(s, i, j) && s.callbacks[i].events[j].block == Progress(s)
  }

  lemma PassedAfter(s: State, i: nat, answer: Answer, k: nat, j: nat)
    requires Wf(s) && i < |s.callbacks| && k < |s.callbacks|
    ensures var s' := ResumeCallback(s, i, answer);
            && (Passed(s, k, j) ==> Passed(s', k, j)) && s'.callbacks[k].events == s.callbacks[k].events
            && (Passed(s', k, j) && !Passed(s, k, j) ==>
                  k == i && j == s.callbacks[i].next && s'.callbacks[i].next == j + 1)
  {
    var c, added, u := ResumeShape(s, i, answer);
  }

  lemma ResumeNotes(s: State, i: nat, answer: Answer)
    requires Wf(s) && i < |s.callbacks|
    ensures var s' := ResumeCallback(s, i, answer); var c := s.callbacks[i];
            && Progress(s') >= Progress(s)
            && (Progress(s') != Progress(s) ==>
                  c.next < |c.events| && s'.callbacks[i].next == c.next + 1
                  && Progress(s') == c.events[c.next].block)
            && (s'.callbacks[i].next == c.next + 1 && c.events[c.next].OtherEvent? ==>
                  Progress(s') >= c.events[c.next].block)
  {
  }

  lemma ResumeKeepsNoted(s: State, i: nat, answer: Answer)
    requires Wf(s) && i < |s.callbacks| && Noted(s) && Sourced(s)
    ensures Noted(ResumeCallback(s, i, answer)) && Sourced(ResumeCallback(s, i, answer))
  {
    var s' := ResumeCallback(s, i, answer);
    var shape, added, u := ResumeShape(s, i, answer);
    ResumeNotes(s, i, answer);
    forall k: nat, j: nat | Passed(s', k, j) && s'.callbacks[k].events[j].OtherEvent?
      ensures s'.callbacks[k].events[j].block <= Progress(s')
    {
      PassedAfter(s, i, answer, k, j);
      if Passed(s, k, j) { assert s.callbacks[k].events[j].block <= Progress(s); }
    }
    if Progress(s') != Progress(s) {
      assert Passed(s', i, s.callbacks[i].next);
    } else if k: nat, j: nat :| Passed(s, k, j) && s.callbacks[k].events[j].block == Progress(s) {
      PassedAfter(s, i, answer, k, j);
      assert Passed(s', k, j);
    }
  }

  lemma PollKeepsNoted(chain: seq<Event>, s: State, latest: nat, failed: set<nat>)
    requires Wf(s) && Noted(s) && Sourced(s)
    ensures Noted(Step(chain, s, Poll(latest, failed))) && Sourced(Step(chain, s, Poll(latest, failed)))
  {
    var s' := Step(chain, s, Poll(latest, failed));
    forall k: nat, j: nat | Passed(s', k, j) ensures Passed(s, k, j) && s'.callbacks[k] == s.callbacks[k] {
    }
    if k: nat, j: nat :| Passed(s, k, j) && s.callbacks[k].events[j].block == Progress(s) {
      assert Passed(s', k, j);
    }
  }

  /** The progress noted never falls. */
  lemma {:induction false} ProgressIsNoted(chain: seq<Event>, actions: seq<Action>)
    ensures Noted(Run(chain, actions)) && Sourced(Run(chain, actions))
    ensures actions != [] ==> Progress(Run(chain, actions)) >= Progress(Run(chain, actions[..|actions| - 1]))
  {
    if actions != [] {
      var prefix, last := actions[..|actions| - 1], actions[|actions| - 1];
      ProgressIsNoted(chain, prefix);
      match last {
        case Poll(latest, failed) => PollKeepsNoted(chain, Run(chain, prefix), latest, failed);
        case Resume(i, answer) =>
          if i < |Run(chain, prefix).callbacks| {
            ResumeKeepsNoted(Run(chain, prefix), i, answer);
            ResumeNotes(Run(chain, prefix), i, answer);
          }
      }
    }
  }

  lemma {:induction false} EventDelivered(chain: seq<Event>, w: Window, e: Event)
    requires e in chain && w.fromBlock <= e.block <= w.toBlock
    ensures e in EventsIn(chain, w)
  {
    if e != chain[0] {
      EventDelivered(chain[1..], w, e);
    }
  }

  lemma {:induction false} CoveredByOne(windows: seq<Window>, block: nat) returns (i: nat)
    requires TimesCovered(windows, block) > 0
    ensures i < |windows| && windows[i].fromBlock <= block <= windows[i].toBlock
  {
    if windows[0].fromBlock <= block <= windows[0].toBlock {
      i := 0;
    } else {
      i := CoveredByOne(windows[1..], block);
      i := i + 1;
    }
  }

  lemma {:induction false} SpawnedPerWindow(chain: seq<Event>, windows: seq<Window>, i: nat, index: nat)
    requires i < |windows|
    ensures i < |Spawned(chain, windows, {}, index)|
    ensures Spawned(chain, windows, {}, index)[i].events == EventsIn(chain, windows[i])
  {
    if i > 0 {
      SpawnedPerWindow(chain, windows[1..], i - 1, index + 1);
    }
  }

  lemma {:induction false} IdleOwesNothing(callbacks: seq<Callback>, t: Token)
    requires forall i :: 0 <= i < |callbacks| ==> callbacks[i].Done()
    ensures Owing(callbacks, t) == 0
  {
    if callbacks != [] {
      IdleOwesNothing(callbacks[..|callbacks| - 1], t);
    }
  }

  predicate SeenFrozen(log: seq<Entry>, t: Token) {
    exists p :: 0 <= p < |log| && log[p].Frozen? && log[p].token == t
  }

  /** Once every callback has run to its end after an error-free poll, each token minted between the
      start block and the latest block was voted on exactly once, unless its oracle was seen frozen. */
  lemma EveryMintedTokenIsVoted(chain: seq<Event>, before: seq<Action>, latest: nat, more: seq<Action>, e: Event)
    requires START_FETCH_BLOCK < latest && e in chain && e.Minted? && START_FETCH_BLOCK <= e.block <= latest
    requires e.token != "0"
    requires forall i :: 0 <= i < |Run(chain, before + [Poll(latest, {})] + more).callbacks| ==>
               Run(chain, before + [Poll(latest, {})] + more).callbacks[i].Done()
    ensures var log := Run(chain, before + [Poll(latest, {})] + more).log;
            Votes(log, e.token) == 1 || SeenFrozen(log, e.token)
  {
    var polled := before + [Poll(latest, {})];
    var all := polled + more;
    assert polled[..|polled| - 1] == before;
    EveryPollStartsOver(chain, before);
    var windows := Windows(START_FETCH_BLOCK, latest);
    WindowsCover(START_FETCH_BLOCK, latest, e.block);
    var w := CoveredByOne(windows, e.block);
    SpawnedPerWindow(chain, windows, w, 0);
    EventDelivered(chain, windows[w], e);
    var k := |Run(chain, before).callbacks| + w;
    assert Run(chain, polled).callbacks[k].events == EventsIn(chain, windows[w]);
    CallbacksPersist(chain, polled, more, k);
    CallbacksKeepUp(chain, all, k);
    var s := Run(chain, all);
    var j :| 0 <= j < |s.callbacks[k].events| && s.callbacks[k].events[j] == e;
    assert Handled(s, k, e.token);
    if e.token in s.voted {
      RunsBalance(chain, all);
      IdleOwesNothing(s.callbacks, e.token);
      assert Votes(s.log, e.token) + Owing(s.callbacks, e.token)
          == if e.token in s.voted && e.token != "0" then 1 else 0;
    }
  }
}
