/** A callback of the validator written straight through, from one event to the next, and the proof
    that every callback of every interleaved run does exactly that with the answers it is given. */
module ValidatorHandler {
  import opened Validator
  import opened ValidatorProofs
  import Common

  /** A moment at which a callback goes on: what it is answered, and which tokens are voted then. */
  datatype Moment = Moment(answer: Answer, voted: set<Token>)

  // ------------------------------------------------------------------ the handler

  /** Handles its events in turn.  It stops where no more moments come, and where one rejects.  The
      first moment of an event only brings the callback to it. */
  function Handle(i: nat, events: seq<Event>, ms: seq<Moment>): seq<Entry>
    decreases |ms|
  {
    if events == [] || ms == [] then []
    else if events[0].Minted? then AskFrozen(i, events[0].token, events[1..], ms[1..])
    else Handle(i, events[1..], ms[1..])
  }

  /** No moment is left, or it rejects. */
  predicate Stops(ms: seq<Moment>) {
    ms == [] || ms[0].answer.Reject?
  }

  function AskFrozen(i: nat, t: Token, rest: seq<Event>, ms: seq<Moment>): seq<Entry>
    decreases |ms|
  {
    if Stops(ms) then []
    else if ms[0].answer.yes then [Frozen(i, t)] + Handle(i, rest, ms[1..])
    else if t in ms[0].voted then AskReady(i, t, rest, ms[1..])
    else [Added(i, t)] + AskProject(i, t, rest, ms[1..])
  }

  function AskProject(i: nat, t: Token, rest: seq<Event>, ms: seq<Moment>): seq<Entry>
    decreases |ms|
  {
    if Stops(ms) then [] else AskVerdict(i, t, rest, ms[1..])
  }

  function AskVerdict(i: nat, t: Token, rest: seq<Event>, ms: seq<Moment>): seq<Entry>
    decreases |ms|
  {
    if Stops(ms) then []
    else if ms[0].answer.yes then [Judged(i, t, true), VoteAye(i, t)] + AfterAye(i, t, rest, ms[1..])
    else [Judged(i, t, false), VoteNay(i, t)] + Finish(i, rest, ms[1..])
  }

  /** A failure to vote is caught. */
  function AfterAye(i: nat, t: Token, rest: seq<Event>, ms: seq<Moment>): seq<Entry>
    decreases |ms|
  {
    if ms == [] then [] else AskReady(i, t, rest, ms[1..])
  }

  function AskReady(i: nat, t: Token, rest: seq<Event>, ms: seq<Moment>): seq<Entry>
    decreases |ms|
  {
    if Stops(ms) then []
    else if ms[0].answer.yes then [ReadyTrue(i, t), PostProcess(i, t)] + Finish(i, rest, ms[1..])
    else Handle(i, rest, ms[1..])
  }

  /** The event's last call has to come back. */
  function Finish(i: nat, rest: seq<Event>, ms: seq<Moment>): seq<Entry>
    decreases |ms|
  {
    if Stops(ms) then [] else Handle(i, rest, ms[1..])
  }

  // ------------------------------------------------------------------ what a run gives a callback

  function Moments(chain: seq<Event>, actions: seq<Action>, i: nat): seq<Moment> {
    if actions == [] then []
    else
      var prefix, last := actions[..|actions| - 1], actions[|actions| - 1];
      Moments(chain, prefix, i)
      + if last.Resume? && last.callback == i < |Run(chain, prefix).callbacks|
        then [Moment(last.answer, Run(chain, prefix).voted)] else []
  }

  function Of(log: seq<Entry>, i: nat): seq<Entry> {
    if log == [] then []
    else Of(log[..|log| - 1], i) + if log[|log| - 1].callback == i then [log[|log| - 1]] else []
  }

  lemma OfLast(log: seq<Entry>, i: nat)
    requires log != []
    ensures Of(log, i) == Of(log[..|log| - 1], i) + if log[|log| - 1].callback == i then [log[|log| - 1]] else []
  {
  }

  lemma OneMore(s: seq<Entry>, t: seq<Entry>, u: seq<Entry>)
    ensures s + t + u == s + (t + u)
  {
  }

  lemma {:induction false} OfConcat(log: seq<Entry>, added: seq<Entry>, i: nat)
    ensures Of(log + added, i) == Of(log, i) + Of(added, i)
  {
    if added == [] {
      assert log + added == log;
    } else {
      var last := |added| - 1;
      OfConcat(log, added[..last], i);
      Common.DropLastOfConcat(log, added);
      OfLast(log + added, i);
      OfLast(added, i);
      OneMore(Of(log, i), Of(added[..last], i), if added[last].callback == i then [added[last]] else []);
    }
  }

  lemma {:induction false} OfUniform(added: seq<Entry>, i: nat, j: nat)
    requires forall k :: 0 <= k < |added| ==> added[k].callback == j
    ensures Of(added, i) == if i == j then added else []
  {
    if added != [] {
      OfUniform(added[..|added| - 1], i, j);
    }
  }

  // ------------------------------------------------------------------ a callback goes on as the handler would

  /** What the handler still does from where the callback stands. */
  function From(i: nat, c: Callback, ms: seq<Moment>): seq<Entry>
    requires c.Wf()
  {
    if c.aborted then []
    else if c.stage == AtEvent then Handle(i, c.events[c.next..], ms)
    else
      var t, rest := c.Token(), c.events[c.next + 1..];
      match c.stage
      case AwaitFrozen => AskFrozen(i, t, rest, ms)
      case AwaitReadyAgain => AskReady(i, t, rest, ms)
      case AwaitProject => AskProject(i, t, rest, ms)
      case AwaitVerdict => AskVerdict(i, t, rest, ms)
      case AwaitAye => AfterAye(i, t, rest, ms)
      case AwaitReady => AskReady(i, t, rest, ms)
      case _ => Finish(i, rest, ms)
  }

  /** The entries a resumption makes, stage by stage. */
  function Made(s: State, i: nat, answer: Answer): seq<Entry>
    requires i < |s.callbacks| && s.callbacks[i].Wf()
  {
    var log := ResumeCallback(s, i, answer).log;
    if |s.log| <= |log| then log[|s.log|..] else []
  }

  lemma MadeAdds(s: State, i: nat, answer: Answer)
    requires Wf(s) && i < |s.callbacks|
    ensures var s' := ResumeCallback(s, i, answer); var c := s'.callbacks[i];
            && s'.callbacks == s.callbacks[i := c] && s'.log == s.log + Made(s, i, answer)
            && c.Wf() && c.events == s.callbacks[i].events
            && forall k :: 0 <= k < |Made(s, i, answer)| ==> Made(s, i, answer)[k].callback == i
  {
    var c, added, t := ResumeShape(s, i, answer);
    assert (s.log + added)[|s.log|..] == added;
  }

  lemma StageGoesOn(s: State, i: nat, answer: Answer, ms: seq<Moment>)
    requires Wf(s) && i < |s.callbacks| && ResumeCallback(s, i, answer).callbacks[i].Wf()
    requires !s.callbacks[i].aborted && s.callbacks[i].stage != AtEvent
    requires answer.Value? || s.callbacks[i].stage == AwaitAye
    ensures From(i, s.callbacks[i], [Moment(answer, s.voted)] + ms)
         == Made(s, i, answer) + From(i, ResumeCallback(s, i, answer).callbacks[i], ms)
  {
    var b, c := s.callbacks[i], ResumeCallback(s, i, answer).callbacks[i];
    var t, rest, made := b.Token(), b.events[b.next + 1..], Made(s, i, answer);
    var all := [Moment(answer, s.voted)] + ms;
    assert all[1..] == ms && all[0] == Moment(answer, s.voted);
    if b.stage == AwaitFrozen {
      assert made == if answer.yes then [Frozen(i, t)] else if t in s.voted then [] else [Added(i, t)];
    } else if b.stage == AwaitVerdict {
      assert made == if answer.yes then [Judged(i, t, true), VoteAye(i, t)] else [Judged(i, t, false), VoteNay(i, t)];
    } else if b.stage == AwaitReady || b.stage == AwaitReadyAgain {
      assert made == if answer.yes then [ReadyTrue(i, t), PostProcess(i, t)] else [];
    } else {
      assert made == [];
    }
  }

  lemma GoesOn(s: State, i: nat, answer: Answer, ms: seq<Moment>)
    requires Wf(s) && i < |s.callbacks| && ResumeCallback(s, i, answer).callbacks[i].Wf()
    ensures From(i, s.callbacks[i], [Moment(answer, s.voted)] + ms)
         == Made(s, i, answer) + From(i, ResumeCallback(s, i, answer).callbacks[i], ms)
  {
    var s' := ResumeCallback(s, i, answer);
    var b, c, made := s.callbacks[i], s'.callbacks[i], Made(s, i, answer);
    var all := [Moment(answer, s.voted)] + ms;
    assert all[1..] == ms && all[0] == Moment(answer, s.voted);
    if b.aborted || b.Done() {
      assert made == [];
    } else if b.stage == AtEvent {
      assert made == [];
      assert b.events[b.next..][1..] == b.events[b.next + 1..] && b.events[b.next..][0] == b.events[b.next];
    } else if answer.Reject? && b.stage != AwaitAye {
      assert made == [];
    } else {
      StageGoesOn(s, i, answer, ms);
    }
  }

  /** With the moments it has had, the handler has made the callback's part of the log, and goes on from
      where the callback stands. */
  ghost predicate InStep(s: State, i: nat, had: seq<Moment>, ms: seq<Moment>)
    requires Wf(s) && i < |s.callbacks|
  {
    Handle(i, s.callbacks[i].events, had + ms) == Of(s.log, i) + From(i, s.callbacks[i], ms)
  }

  lemma PollInStep(chain: seq<Event>, s: State, latest: nat, failed: set<nat>, i: nat, had: seq<Moment>,
                   ms: seq<Moment>)
    requires Wf(s) && i < |Step(chain, s, Poll(latest, failed)).callbacks|
    requires if i < |s.callbacks| then InStep(s, i, had, ms) else had == [] && Of(s.log, i) == []
    ensures InStep(Step(chain, s, Poll(latest, failed)), i, had, ms)
  {
    var c := Step(chain, s, Poll(latest, failed)).callbacks[i];
    if i < |s.callbacks| {
      assert c == s.callbacks[i];
    } else {
      assert c.events[0..] == c.events;
      assert had + ms == ms;
    }
  }

  lemma OwnInStep(s: State, after: State, i: nat, m: Moment, made: seq<Entry>, had: seq<Moment>, ms: seq<Moment>)
    requires Wf(s) && Wf(after) && i < |s.callbacks| == |after.callbacks|
    requires after.callbacks[i].events == s.callbacks[i].events && Of(after.log, i) == Of(s.log, i) + made
    requires From(i, s.callbacks[i], [m] + ms) == made + From(i, after.callbacks[i], ms)
    requires InStep(s, i, had, [m] + ms)
    ensures InStep(after, i, had + [m], ms)
  {
    assert had + [m] + ms == had + ([m] + ms);
  }

  lemma OtherInStep(s: State, after: State, i: nat, had: seq<Moment>, ms: seq<Moment>)
    requires Wf(s) && Wf(after) && i < |s.callbacks| == |after.callbacks|
    requires after.callbacks[i] == s.callbacks[i] && Of(after.log, i) == Of(s.log, i)
    requires InStep(s, i, had, ms)
    ensures InStep(after, i, had, ms)
  {
  }

  lemma ResumeInStep(s: State, j: nat, answer: Answer, i: nat, had: seq<Moment>, ms: seq<Moment>)
    requires Wf(s) && i < |s.callbacks| && j < |s.callbacks| && Wf(ResumeCallback(s, j, answer))
    requires InStep(s, i, had, if i == j then [Moment(answer, s.voted)] + ms else ms)
    ensures i < |ResumeCallback(s, j, answer).callbacks|
    ensures InStep(ResumeCallback(s, j, answer), i, if i == j then had + [Moment(answer, s.voted)] else had, ms)
  {
    var after, made := ResumeCallback(s, j, answer), Made(s, j, answer);
    MadeAdds(s, j, answer);
    OfConcat(s.log, made, i);
    OfUniform(made, i, j);
    if i == j {
      GoesOn(s, j, answer, ms);
      OwnInStep(s, after, i, Moment(answer, s.voted), made, had, ms);
    } else {
      assert Of(s.log, i) + [] == Of(s.log, i);
      OtherInStep(s, after, i, had, ms);
    }
  }

  lemma {:induction false} RunHandles(chain: seq<Event>, actions: seq<Action>, i: nat, ms: seq<Moment>)
    requires i < |Run(chain, actions).callbacks|
    ensures InStep(Run(chain, actions), i, Moments(chain, actions, i), ms)
  {
    var prefix, last := actions[..|actions| - 1], actions[|actions| - 1];
    var s, had := Run(chain, prefix), Moments(chain, prefix, i);
    match last {
      case Poll(latest, failed) =>
        if i < |s.callbacks| { RunHandles(chain, prefix, i, ms); } else { BornSilent(chain, prefix, i); }
        PollInStep(chain, s, latest, failed, i, had, ms);
        assert Moments(chain, actions, i) == had;
      case Resume(j, answer) =>
        if j < |s.callbacks| {
          RunHandles(chain, prefix, i, if i == j then [Moment(answer, s.voted)] + ms else ms);
          ResumeInStep(s, j, answer, i, had, ms);
          assert i != j ==> Moments(chain, actions, i) == had;
        } else {
          RunHandles(chain, prefix, i, ms);
          assert Moments(chain, actions, i) == had;
        }
    }
  }

  /** A callback that does not exist yet has had no moments and no entries. */
  lemma {:induction false} BornSilent(chain: seq<Event>, actions: seq<Action>, i: nat)
    requires i >= |Run(chain, actions).callbacks|
    ensures Moments(chain, actions, i) == [] && Of(Run(chain, actions).log, i) == []
  {
    if actions != [] {
      var prefix, last := actions[..|actions| - 1], actions[|actions| - 1];
      var s := Run(chain, prefix);
      if last.Resume? && last.callback < |s.callbacks| {
        MadeAdds(s, last.callback, last.answer);
        OfConcat(s.log, Made(s, last.callback, last.answer), i);
        OfUniform(Made(s, last.callback, last.answer), i, last.callback);
      }
      BornSilent(chain, prefix, i);
    }
  }

  lemma NothingMore(s: State, i: nat, had: seq<Moment>)
    requires Wf(s) && i < |s.callbacks| && InStep(s, i, had, [])
    ensures Of(s.log, i) == Handle(i, s.callbacks[i].events, had)
  {
    assert had + [] == had;
  }

  /** Whatever the interleaving, the entries of each callback are exactly those the handler makes on its
      events with the answers the callback was given and the tokens voted when it was given them. */
  lemma CallbacksHandle(chain: seq<Event>, actions: seq<Action>, i: nat)
    requires i < |Run(chain, actions).callbacks|
    ensures Of(Run(chain, actions).log, i)
         == Handle(i, Run(chain, actions).callbacks[i].events, Moments(chain, actions, i))
  {
    var none: seq<Moment> := [];
    RunHandles(chain, actions, i, none);
    NothingMore(Run(chain, actions), i, Moments(chain, actions, i));
  }

  lemma ClaimedConcat(log: seq<Entry>, added: seq<Entry>, t: Token)
    ensures ClaimedBy(log + added, t) <==> ClaimedBy(log, t) || ClaimedBy(added, t)
  {
    if q :| 0 <= q < |log| && log[q].Added? && log[q].token == t { assert (log + added)[q] == log[q]; }
    if q :| 0 <= q < |added| && added[q].Added? && added[q].token == t { assert (log + added)[|log| + q] == added[q]; }
  }

  /** The tokens voted at any time are the placeholder and those that a callback has claimed. */
  lemma {:induction false} VotedAreClaimed(chain: seq<Event>, actions: seq<Action>, t: Token)
    ensures t in Run(chain, actions).voted <==> ClaimedBy(Run(chain, actions).log, t)
  {
    if actions != [] {
      var prefix, last := actions[..|actions| - 1], actions[|actions| - 1];
      var s := Run(chain, prefix);
      VotedAreClaimed(chain, prefix, t);
      if last.Resume? && last.callback < |s.callbacks| {
        var c, added, u := ResumeShape(s, last.callback, last.answer);
        ClaimedConcat(s.log, added, t);
        if t != "0" { ClaimedAdds(s, last.callback, last.answer, added, t); }
      }
    }
  }

  lemma ClaimedAdds(s: State, i: nat, answer: Answer, added: seq<Entry>, t: Token)
    requires Wf(s) && i < |s.callbacks| && ResumeCallback(s, i, answer).log == s.log + added && t != "0"
    ensures t in ResumeCallback(s, i, answer).voted <==> t in s.voted || ClaimedBy(added, t)
  {
    var log := ResumeCallback(s, i, answer).log;
    assert added == log[|s.log|..];
    if t in ResumeCallback(s, i, answer).voted && t !in s.voted { assert log[|s.log|] == Added(i, t); }
  }
}
