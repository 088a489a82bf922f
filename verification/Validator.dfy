/** The validator: every poll re-reads the chain in overlapping block windows, each window's events
    are handled by an asynchronous callback, and all callbacks share one set of voted tokens.  A
    callback runs undisturbed only up to its next `await`, so the model steps one callback at a
    time from one await to the next, in any order. */
module Validator {

  const START_FETCH_BLOCK: nat := 28560000
  const MAX_PER_FETCH: nat := 3000

  type Token = string

  datatype Event =
    | Minted(project: nat, token: Token, oracle: int, block: nat)
    | OtherEvent(block: nat)

  // ------------------------------------------------------------------ block windows

  datatype Window = Window(fromBlock: nat, toBlock: nat)

  function Windows(start: nat, latest: nat): seq<Window>
    decreases latest - start
  {
    if start >= latest then []
    else
      var end := if start + MAX_PER_FETCH > latest then latest else start + MAX_PER_FETCH;
      [Window(start, end)] + Windows(start + MAX_PER_FETCH, latest)
  }

  /** The loop that issues one fetch per window. */
  method GetPastEvent(start: nat, latest: nat) returns (fetches: seq<Window>)
    ensures fetches == Windows(start, latest)
  {
    fetches := [];
    var i := start;
    while i < latest
      invariant fetches + Windows(i, latest) == Windows(start, latest)
    {
      var toBlock := i + MAX_PER_FETCH;
      if toBlock > latest {
        toBlock := latest;
      }
      fetches := fetches + [Window(i, toBlock)];
      i := i + MAX_PER_FETCH;
    }
  }

  function TimesCovered(windows: seq<Window>, block: nat): nat {
    if windows == [] then 0
    else (if windows[0].fromBlock <= block <= windows[0].toBlock then 1 else 0) + TimesCovered(windows[1..], block)
  }

  /** The windows cover every block from the start to the latest and no other, and only where two
      of them meet is a block read twice.  When the chain has not grown past the start, nothing is
      read at all. */
  lemma {:induction false} WindowsCover(start: nat, latest: nat, block: nat)
    ensures TimesCovered(Windows(start, latest), block) ==
            if !(start < latest && start <= block <= latest) then 0
            else if start < block < latest && (block - start) % MAX_PER_FETCH == 0 then 2
            else 1
    decreases latest - start
  {
    if start < latest {
      var next := start + MAX_PER_FETCH;
      WindowsCover(next, latest, block);
      if block > next {
        assert (block - start) % MAX_PER_FETCH == (block - next) % MAX_PER_FETCH by {
          assert block - start == (block - next) + MAX_PER_FETCH;
        }
      } else if start < block < next {
        assert 0 < block - start < MAX_PER_FETCH;
      }
    }
  }

  // ------------------------------------------------------------------ callbacks

  /** Where a callback is suspended.  A rejected promise ends it there. */
  datatype Stage =
    | AtEvent            // about to look at its next event
    | AwaitFrozen        // IsOracleFreezed
    | AwaitReadyAgain    // IsVoteReady, for a token voted on earlier
    | AwaitPostAgain     // VotePostProcessAye, for a token voted on earlier
    | AwaitProject       // GetProjectInfo
    | AwaitVerdict       // check_and_vote
    | AwaitAye           // VoteAye, whose failure is caught
    | AwaitReady         // IsVoteReady after voting
    | AwaitPost          // VotePostProcessAye after voting
    | AwaitNay           // VoteNay

  datatype Callback = Callback(events: seq<Event>, next: nat, stage: Stage, aborted: bool) {
    predicate Wf() {
      next <= |events| && (stage != AtEvent ==> next < |events| && events[next].Minted?)
    }

    predicate Done() { stage == AtEvent && next == |events| }

    function Token(): Token
      requires Wf() && stage != AtEvent
    { events[next].token }

    function At(s: Stage): Callback { this.(stage := s) }

    function Advance(): Callback
    { this.(stage := AtEvent, next := next + 1) }
  }

  /** What a callback learns and does, in the order it happens over all callbacks. */
  datatype Entry =
    | Frozen(callback: nat, token: Token)
    | Added(callback: nat, token: Token)
    | Judged(callback: nat, token: Token, valid: bool)
    | ReadyTrue(callback: nat, token: Token)
    | VoteAye(callback: nat, token: Token)
    | VoteNay(callback: nat, token: Token)
    | PostProcess(callback: nat, token: Token)

  datatype State = State(
    voted: set<Token>,
    lastBlock: map<string, nat>,
    callbacks: seq<Callback>,
    log: seq<Entry>)

  const INITIAL: State := State({"0"}, map["uvulns" := 0], [], [])

  datatype Answer = Value(yes: bool) | Reject

  datatype Action =
    | Poll(latest: nat, failed: set<nat>)         // windows whose fetch reports an error
    | Resume(callback: nat, answer: Answer)

  function EventsIn(chain: seq<Event>, w: Window): seq<Event> {
    if chain == [] then []
    else (if w.fromBlock <= chain[0].block <= w.toBlock then [chain[0]] else []) + EventsIn(chain[1..], w)
  }

  function Spawned(chain: seq<Event>, windows: seq<Window>, failed: set<nat>, index: nat): (born: seq<Callback>)
    ensures forall i :: 0 <= i < |born| ==> born[i].next == 0 && born[i].stage == AtEvent && !born[i].aborted
  {
    if windows == [] then []
    else (if index in failed then [] else [Callback(EventsIn(chain, windows[0]), 0, AtEvent, false)])
         + Spawned(chain, windows[1..], failed, index + 1)
  }

  /** The first block to fetch: the entry under the event's name, unless it is missing or zero. */
  function FirstBlock(lastBlock: map<string, nat>, name: string): nat {
    if name in lastBlock && lastBlock[name] != 0 then lastBlock[name] else START_FETCH_BLOCK
  }

  function Max(a: nat, b: nat): nat { if a > b then a else b }

  function NoteBlock(lastBlock: map<string, nat>, block: nat): map<string, nat> {
    lastBlock["uvulns" := Max(if "uvulns" in lastBlock then lastBlock["uvulns"] else 0, block)]
  }

  /** One callback runs from the answer to what it awaited up to its next await. */
  function ResumeCallback(s: State, i: nat, answer: Answer): State
    requires i < |s.callbacks| && s.callbacks[i].Wf()
  {
    var c := s.callbacks[i];
    if c.aborted || c.Done() then s
    else if c.stage == AtEvent then
      if c.events[c.next].Minted? then s.(callbacks := s.callbacks[i := c.At(AwaitFrozen)])
      else s.(callbacks := s.callbacks[i := c.Advance()], lastBlock := NoteBlock(s.lastBlock, c.events[c.next].block))
    else if answer.Reject? && c.stage != AwaitAye then s.(callbacks := s.callbacks[i := c.(aborted := true)])
    else
      var t := c.Token();
      var noted := NoteBlock(s.lastBlock, c.events[c.next].block);
      match c.stage
      case AwaitFrozen =>
        if answer.yes then
          s.(callbacks := s.callbacks[i := c.Advance()], lastBlock := noted, log := s.log + [Frozen(i, t)])
        else if t in s.voted then
          s.(callbacks := s.callbacks[i := c.At(AwaitReadyAgain)])
        else
          s.(callbacks := s.callbacks[i := c.At(AwaitProject)], voted := s.voted + {t}, log := s.log + [Added(i, t)])
      case AwaitReadyAgain =>
        if answer.yes then
          s.(callbacks := s.callbacks[i := c.At(AwaitPostAgain)], log := s.log + [ReadyTrue(i, t), PostProcess(i, t)])
        else s.(callbacks := s.callbacks[i := c.Advance()])
      case AwaitPostAgain => s.(callbacks := s.callbacks[i := c.Advance()])
      case AwaitProject => s.(callbacks := s.callbacks[i := c.At(AwaitVerdict)])
      case AwaitVerdict =>
        if answer.yes then
          s.(callbacks := s.callbacks[i := c.At(AwaitAye)], log := s.log + [Judged(i, t, true), VoteAye(i, t)])
        else s.(callbacks := s.callbacks[i := c.At(AwaitNay)], log := s.log + [Judged(i, t, false), VoteNay(i, t)])
      case AwaitAye => s.(callbacks := s.callbacks[i := c.At(AwaitReady)])
      case AwaitReady =>
        if answer.yes then
          s.(callbacks := s.callbacks[i := c.At(AwaitPost)], log := s.log + [ReadyTrue(i, t), PostProcess(i, t)])
        else s.(callbacks := s.callbacks[i := c.Advance()], lastBlock := noted)
      case AwaitPost => s.(callbacks := s.callbacks[i := c.Advance()], lastBlock := noted)
      case AwaitNay => s.(callbacks := s.callbacks[i := c.Advance()], lastBlock := noted)
  }

  ghost predicate Wf(s: State) {
    forall i :: 0 <= i < |s.callbacks| ==> s.callbacks[i].Wf()
  }

  function Step(chain: seq<Event>, s: State, a: Action): (s': State)
    requires Wf(s)
    ensures Wf(s')
  {
    match a
    case Poll(latest, failed) =>
      s.(callbacks := s.callbacks + Spawned(chain, Windows(FirstBlock(s.lastBlock, "Minted"), latest), failed, 0))
    case Resume(i, answer) => if i < |s.callbacks| then ResumeCallback(s, i, answer) else s
  }

  function Run(chain: seq<Event>, actions: seq<Action>): (s: State)
    ensures Wf(s)
  {
    if actions == [] then INITIAL else Step(chain, Run(chain, actions[..|actions| - 1]), actions[|actions| - 1])
  }
}
