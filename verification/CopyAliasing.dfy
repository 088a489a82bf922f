/** What can pass between a state manager and its copy: account objects that the caller holds.  The
    calls here are given such objects, put them into a manager, take them out, and change them
    directly, as the EVM does. */
module CopyAliasing {
  import opened Common
  import opened StateManager

  /** A call on a manager.  Account objects are named by their place among those in hand. */
  datatype Call =
    | Take(address: Address)                           // getAccount; the object is in hand from now on
    | Put(address: Address, handle: nat)               // putAccount of an object in hand
    | Change(handle: nat, fields: AccountFields)       // of an object in hand, without a call
    | Do(op: Op)

  // ------------------------------------------------------------------ which objects a run reaches

  /** Where the given objects stand in the manager, and which of the objects in hand they are; None
      is an object that the manager made. */
  datatype Tracked = Tracked(stands: map<Address, Account>, held: seq<Option<Account>>)

  ghost function Track(given: seq<Account>, calls: seq<Call>): Tracked {
    if calls == [] then Tracked(map[], seq(|given|, i requires 0 <= i < |given| => Some(given[i])))
    else TrackCall(Track(given, calls[..|calls| - 1]), calls[|calls| - 1])
  }

  ghost function TrackCall(t: Tracked, call: Call): Tracked {
    match call
    case Take(a) => t.(held := t.held + [if a in t.stands then Some(t.stands[a]) else None])
    case Put(a, h) =>
      if h >= |t.held| then t
      else if t.held[h].Some? then t.(stands := t.stands[a := t.held[h].value])
      else t.(stands := t.stands - {a})
    case Change(_, _) => t
    case Do(op) =>
      match op
      case PutAccount(a, _) => t.(stands := t.stands - {a})
      case PutContractCode(a, _) => t.(stands := t.stands - {a})
      case DeleteAccount(a) => t.(stands := t.stands - {a})
      case Revert => t.(stands := map[])
      case _ => t
  }

  /** The given object that a call changes, if it changes one. */
  ghost function Target(t: Tracked, call: Call): Option<Account> {
    match call
    case Change(h, _) => if h < |t.held| then t.held[h] else None
    case Do(op) => if op.ModifyAccountFields? && op.address in t.stands then Some(t.stands[op.address]) else None
    case _ => None
  }

  ghost function FieldsOf(call: Call): AccountFields
    requires call.Change? || (call.Do? && call.op.ModifyAccountFields?)
  {
    if call.Change? then call.fields else call.op.fields
  }

  /** The changes that a run makes to one object, in order. */
  ghost function Writes(given: seq<Account>, calls: seq<Call>, x: Account): seq<AccountFields> {
    if calls == [] then []
    else
      var prefix, last := calls[..|calls| - 1], calls[|calls| - 1];
      Writes(given, prefix, x) + if Target(Track(given, prefix), last) == Some(x) then [FieldsOf(last)] else []
  }

  function ChangedBy(v: AccountValue, writes: seq<AccountFields>): AccountValue {
    if writes == [] then v else WithFields(ChangedBy(v, writes[..|writes| - 1]), writes[|writes| - 1])
  }

  ghost predicate OnlyGiven(t: Tracked, given: seq<Account>) {
    && (forall a :: a in t.stands ==> t.stands[a] in given)
    && (forall i :: 0 <= i < |t.held| && t.held[i].Some? ==> t.held[i].value in given)
  }

  lemma TrackingKeepsGiven(t: Tracked, call: Call, given: seq<Account>)
    requires OnlyGiven(t, given)
    ensures OnlyGiven(TrackCall(t, call), given)
  {
  }

  lemma {:induction false} TracksOnlyGiven(given: seq<Account>, calls: seq<Call>)
    ensures OnlyGiven(Track(given, calls), given)
  {
    if calls != [] {
      TracksOnlyGiven(given, calls[..|calls| - 1]);
      TrackingKeepsGiven(Track(given, calls[..|calls| - 1]), calls[|calls| - 1], given);
    }
  }

  /** A run changes no object of the caller's that it was not given. */
  lemma {:induction false} OnlyGivenAreWritten(given: seq<Account>, calls: seq<Call>, x: Account)
    requires x !in given
    ensures Writes(given, calls, x) == []
  {
    if calls != [] {
      OnlyGivenAreWritten(given, calls[..|calls| - 1], x);
      TracksOnlyGiven(given, calls[..|calls| - 1]);
    }
  }

  /** One that it is given can be changed: by putting it in and modifying the address. */
  lemma PuttingReaches(x: Account, a: Address, fields: AccountFields)
    ensures Writes([x], [Put(a, 0), Do(ModifyAccountFields(a, fields))], x) == [fields]
  {
    var calls := [Put(a, 0), Do(ModifyAccountFields(a, fields))];
    assert calls[..1] == [Put(a, 0)] && calls[..1][..0] == [];
    assert Track([x], calls[..1]).stands == map[a := x];
    assert Writes([x], calls[..1], x) == [];
  }

  // ------------------------------------------------------------------ what a run does besides

  /** The contents agree but for the account values, which alone depend on the objects. */
  ghost predicate AlikeContents(c: Contents, d: Contents) {
    && c.known == d.known && c.entries.Keys == d.entries.Keys
    && forall a :: a in c.entries ==>
         c.entries[a].code == d.entries[a].code && c.entries[a].storage == d.entries[a].storage
  }

  ghost predicate Alike(s: State, t: State) {
    && AlikeContents(s.contents, t.contents) && s.ckpt.Some? == t.ckpt.Some?
    && (s.ckpt.Some? ==> AlikeContents(s.ckpt.value, t.ckpt.value))
  }

  /** The operation a call amounts to, with so many objects in hand. */
  function Plain(inHand: nat, call: Call): Op {
    match call
    case Take(a) => GetAccount(a)
    case Put(a, h) => if h < inHand then PutAccount(a, EMPTY_ACCOUNT) else Commit
    case Change(_, _) => Commit
    case Do(op) => op
  }

  ghost function Plainly(given: seq<Account>, calls: seq<Call>): seq<Op> {
    if calls == [] then []
    else
      var prefix, last := calls[..|calls| - 1], calls[|calls| - 1];
      Plainly(given, prefix) + [Plain(|Track(given, prefix).held|, last)]
  }

  /** A step does the same to the rest, whatever the account values are. */
  lemma UpdatesAlike(c: Contents, d: Contents, op: Op)
    requires AlikeContents(c, d) && !op.Checkpoint? && !op.Commit? && !op.Revert?
    ensures AlikeContents(Update(c, op), Update(d, op))
  {
  }

  lemma StepsAlike(s: State, t: State, op: Op)
    requires Alike(s, t)
    ensures Alike(Step(s, op), Step(t, op))
  {
    if !op.Checkpoint? && !op.Commit? && !op.Revert? { UpdatesAlike(s.contents, t.contents, op); }
  }

  lemma AlikeItself(s: State)
    ensures Alike(s, s)
  {
  }

  lemma ModifiedAlike(s: State, t: State, a: Address, fields: AccountFields)
    requires Alike(t, s)
    ensures Alike(t, Step(s, ModifyAccountFields(a, fields)))
  {
  }

  lemma SharedAlike(c: Contents, sharers: set<Address>, fields: AccountFields)
    requires sharers <= c.entries.Keys
    ensures AlikeContents(Shared(c, sharers, fields), c)
  {
  }

  lemma PutsAlike(s: State, a: Address, v: AccountValue, w: AccountValue)
    ensures Alike(Step(s, PutAccount(a, v)), Step(s, PutAccount(a, w)))
  {
  }

  lemma AlikeTransitive(s: State, t: State, u: State)
    requires Alike(s, t) && Alike(t, u)
    ensures Alike(s, u)
  {
  }

  /** The state is, but for account values, where the first calls take it. */
  ghost predicate OnCourse(start: State, given: seq<Account>, calls: seq<Call>, i: nat, now: State)
    requires i <= |calls|
  {
    Alike(now, Run(start, Plainly(given, calls[..i])))
  }

  lemma CourseGoesOn(start: State, given: seq<Account>, calls: seq<Call>, i: nat, now: State, next: State)
    requires i < |calls| && OnCourse(start, given, calls, i, now)
    requires Alike(next, Step(now, Plain(|Track(given, calls[..i]).held|, calls[i])))
    ensures OnCourse(start, given, calls, i + 1, next)
  {
    var ops, op := Plainly(given, calls[..i]), Plain(|Track(given, calls[..i]).held|, calls[i]);
    assert calls[..i + 1][..i] == calls[..i];
    assert (ops + [op])[..|ops|] == ops;
    StepsAlike(now, Run(start, ops), op);
    AlikeTransitive(next, Step(now, op), Step(Run(start, ops), op));
  }

  lemma CourseEnds(start: State, given: seq<Account>, calls: seq<Call>, now: State)
    ensures OnCourse(start, given, calls, 0, start)
    ensures OnCourse(start, given, calls, |calls|, now) <==> Alike(now, Run(start, Plainly(given, calls)))
  {
    assert calls[..0] == [] && calls[..|calls|] == calls;
  }

  // ------------------------------------------------------------------ runs on objects

  /** The manager's objects and those in hand are as tracked; what is not tracked is not among `watched`. */
  ghost predicate Follows(t: Tracked, objects: map<Address, Account>, held: seq<Account>, watched: set<Account>) {
    && |held| == |t.held|
    && (forall i :: 0 <= i < |held| ==> if t.held[i].Some? then held[i] == t.held[i].value else held[i] !in watched)
    && t.stands.Keys <= objects.Keys
    && (forall a :: a in objects ==> if a in t.stands then objects[a] == t.stands[a] else objects[a] !in watched)
  }

  lemma FollowsTouched(t: Tracked, objects: map<Address, Account>, held: seq<Account>, watched: set<Account>,
                       a: Address, x: Account)
    requires Follows(t, objects, held, watched) && if a in objects then x == objects[a] else x !in watched
    ensures Follows(t, objects[a := x], held, watched)
  {
  }

  lemma FollowsReplaced(t: Tracked, objects: map<Address, Account>, held: seq<Account>, watched: set<Account>,
                        a: Address, x: Account)
    requires Follows(t, objects, held, watched) && x !in watched
    ensures Follows(t.(stands := t.stands - {a}), objects[a := x], held, watched)
  {
  }

  lemma FollowsRemoved(t: Tracked, objects: map<Address, Account>, held: seq<Account>, watched: set<Account>,
                       a: Address)
    requires Follows(t, objects, held, watched)
    ensures Follows(t.(stands := t.stands - {a}), objects - {a}, held, watched)
  {
  }

  lemma FollowsTaken(t: Tracked, objects: map<Address, Account>, held: seq<Account>, watched: set<Account>, a: Address)
    requires Follows(t, objects, held, watched) && a in objects
    ensures Follows(TrackCall(t, Take(a)), objects, held + [objects[a]], watched)
  {
  }

  lemma FollowsPut(t: Tracked, objects: map<Address, Account>, held: seq<Account>, watched: set<Account>, a: Address,
                   h: nat)
    requires Follows(t, objects, held, watched) && h < |held|
    ensures Follows(TrackCall(t, Put(a, h)), objects[a := held[h]], held, watched)
  {
  }

  method Perform(n: FuzzStateManager, held0: seq<Account>, call: Call, ghost t: Tracked, ghost watched: set<Account>)
    returns (held: seq<Account>)
    requires n.Valid() && Follows(t, n.accounts, held0, watched)
    modifies n.Repr, held0
    ensures n.Valid() && fresh(n.Repr - old(n.Repr) - (set x | x in held0))
    ensures Follows(TrackCall(t, call), n.accounts, held, watched)
    ensures Alike(n.View(), Step(old(n.View()), Plain(|held0|, call)))
    ensures forall x :: x in held ==> x in held0 || x in n.Repr
    ensures forall x :: x in watched ==>
              x.Value() == if Target(t, call) == Some(x) then WithFields(old(x.Value()), FieldsOf(call))
                else old(x.Value())
  {
    held := held0;
    match call {
      case Take(a) =>
        var account := TakeOut(n, a, t, held0, watched);
        held := held0 + [account];
      case Put(a, h) => if h < |held0| { PutHeld(n, a, held0, h, t, watched); }
      case Change(h, fields) => if h < |held0| { ChangeHeld(n, held0[h], fields); }
      case Do(op) => Operate(n, op, t, held0, watched);
    }
  }

  /** Hands out the object at an address. */
  method TakeOut(n: FuzzStateManager, a: Address, ghost t: Tracked, ghost held: seq<Account>,
                 ghost watched: set<Account>) returns (account: Account)
    requires n.Valid() && Follows(t, n.accounts, held, watched)
    modifies n
    ensures n.Valid() && fresh(n.Repr - old(n.Repr)) && account in n.Repr
    ensures n.View() == Step(old(n.View()), GetAccount(a))
    ensures Follows(TrackCall(t, Take(a)), n.accounts, held + [account], watched)
  {
    account := n.GetAccount(a);
    FollowsTouched(t, old(n.accounts), held, watched, a, account);
    FollowsTaken(t, n.accounts, held, watched, a);
  }

  /** Puts an object in hand at an address. */
  method PutHeld(n: FuzzStateManager, a: Address, held: seq<Account>, h: nat, ghost t: Tracked,
                 ghost watched: set<Account>)
    requires n.Valid() && Follows(t, n.accounts, held, watched) && h < |held|
    modifies n
    ensures n.Valid() && fresh(n.Repr - old(n.Repr) - {held[h]})
    ensures Alike(n.View(), Step(old(n.View()), PutAccount(a, EMPTY_ACCOUNT)))
    ensures Follows(TrackCall(t, Put(a, h)), n.accounts, held, watched)
  {
    n.PutAccount(a, held[h]);
    FollowsPut(t, old(n.accounts), held, watched, a, h);
    PutsAlike(old(n.View()), a, held[h].Value(), EMPTY_ACCOUNT);
  }

  /** Changes an object, wherever it stands. */
  method ChangeHeld(n: FuzzStateManager, x: Account, fields: AccountFields)
    requires n.Valid()
    modifies x
    ensures n.Valid() && x.Value() == WithFields(old(x.Value()), fields) && Alike(n.View(), old(n.View()))
  {
    x.Modify(fields);
    assert n.Valid();
  }

  /** A modification at an address. */
  method ModifyAt(n: FuzzStateManager, a: Address, fields: AccountFields)
    requires n.Valid()
    modifies if a in n.accounts then {n.accounts[a]} else {}
    ensures n.Valid() && Alike(n.View(), old(n.View()))
    ensures a in n.accounts ==> n.accounts[a].Value() == WithFields(old(n.accounts[a].Value()), fields)
  {
    var rejected := n.ModifyAccountFields(a, fields);
    if !rejected { SharedAlike(old(n.ToJSON()), old(n.Sharers(a)), fields); }
  }

  /** An operation without objects in hand. */
  method Operate(n: FuzzStateManager, op: Op, ghost t: Tracked, ghost held: seq<Account>, ghost watched: set<Account>)
    requires n.Valid() && Follows(t, n.accounts, held, watched)
    modifies n.Repr
    ensures n.Valid() && fresh(n.Repr - old(n.Repr))
    ensures Follows(TrackCall(t, Do(op)), n.accounts, held, watched)
    ensures Alike(n.View(), Step(old(n.View()), op))
    ensures forall x :: x in watched ==>
              x.Value() == if Target(t, Do(op)) == Some(x) then WithFields(old(x.Value()), FieldsOf(Do(op)))
                else old(x.Value())
  {
    if op.ModifyAccountFields? {
      ModifyTracked(n, op.address, op.fields, t, held, watched);
      ModifiedAlike(old(n.View()), n.View(), op.address, op.fields);
      return;
    }
    if op.PutAccount? || op.PutContractCode? || op.DeleteAccount? || op.Revert? {
      Replace(n, op, t, held, watched);
    } else {
      Touch(n, op, t, held, watched);
    }
    AlikeItself(n.View());
  }

  method ModifyTracked(n: FuzzStateManager, a: Address, fields: AccountFields, ghost t: Tracked,
                       ghost held: seq<Account>, ghost watched: set<Account>)
    requires n.Valid() && Follows(t, n.accounts, held, watched)
    modifies if a in n.accounts then {n.accounts[a]} else {}
    ensures n.Valid() && Alike(n.View(), old(n.View()))
    ensures forall x :: x in watched ==>
              x.Value() == if a in t.stands && t.stands[a] == x then WithFields(old(x.Value()), fields)
                else old(x.Value())
  {
    ModifyAt(n, a, fields);
  }

  /** An operation that keeps the objects where they stand. */
  method Touch(n: FuzzStateManager, op: Op, ghost t: Tracked, ghost held: seq<Account>, ghost watched: set<Account>)
    requires op.GetAccount? || op.PutContractStorage? || op.ClearContractStorage? || op.Checkpoint? || op.Commit?
    requires n.Valid() && Follows(t, n.accounts, held, watched)
    modifies n, if op.PutContractStorage? || op.ClearContractStorage? then n.storage.Values else {}
    ensures n.Valid() && fresh(n.Repr - old(n.Repr)) && n.View() == Step(old(n.View()), op)
    ensures Follows(t, n.accounts, held, watched)
  {
    match op {
      case GetAccount(a) =>
        var x := n.GetAccount(a);
        FollowsTouched(t, old(n.accounts), held, watched, a, x);
      case PutContractStorage(a, key, value) =>
        n.PutContractStorage(a, key, value);
        FollowsTouched(t, old(n.accounts), held, watched, a, n.accounts[a]);
      case ClearContractStorage(a) => n.ClearContractStorage(a);
      case Checkpoint => n.Checkpoint();
      case Commit =>
    }
  }

  lemma TracksRemoval(t: Tracked, op: Op)
    requires op.PutAccount? || op.PutContractCode? || op.DeleteAccount?
    ensures TrackCall(t, Do(op)) == t.(stands := t.stands - {op.address})
  {
  }

  /** An operation that replaces or removes entries. */
  method Replace(n: FuzzStateManager, op: Op, ghost t: Tracked, ghost held: seq<Account>, ghost watched: set<Account>)
    requires op.PutAccount? || op.PutContractCode? || op.DeleteAccount? || op.Revert?
    requires n.Valid() && Follows(t, n.accounts, held, watched)
    modifies n
    ensures n.Valid() && fresh(n.Repr - old(n.Repr)) && n.View() == Step(old(n.View()), op)
    ensures Follows(TrackCall(t, Do(op)), n.accounts, held, watched)
  {
    if !op.Revert? { TracksRemoval(t, op); }
    match op {
      case PutAccount(a, value) => PutMade(n, a, value, t, held, watched);
      case PutContractCode(a, code) =>
        n.PutContractCode(a, code);
        FollowsReplaced(t, old(n.accounts), held, watched, a, n.accounts[a]);
      case DeleteAccount(a) =>
        n.DeleteAccount(a);
        FollowsRemoved(t, old(n.accounts), held, watched, a);
      case Revert => Restore(n, t, held, watched);
    }
  }

  /** Puts a new object at an address. */
  method PutMade(n: FuzzStateManager, a: Address, value: AccountValue, ghost t: Tracked, ghost held: seq<Account>,
                 ghost watched: set<Account>)
    requires n.Valid() && Follows(t, n.accounts, held, watched)
    modifies n
    ensures n.Valid() && fresh(n.Repr - old(n.Repr)) && n.View() == Step(old(n.View()), Op.PutAccount(a, value))
    ensures Follows(t.(stands := t.stands - {a}), n.accounts, held, watched)
  {
    var account := new Account(value);
    assert n.View() == old(n.View());
    n.PutAccount(a, account);
    FollowsReplaced(t, old(n.accounts), held, watched, a, account);
  }

  /** Rebuilds all entries out of new objects. */
  method Restore(n: FuzzStateManager, ghost t: Tracked, ghost held: seq<Account>, ghost watched: set<Account>)
    requires n.Valid() && Follows(t, n.accounts, held, watched)
    modifies n
    ensures n.Valid() && fresh(n.Repr - old(n.Repr)) && n.View() == Step(old(n.View()), Revert)
    ensures Follows(t.(stands := map[]), n.accounts, held, watched)
  {
    var _ := n.Revert();
    forall a | a in n.accounts ensures n.accounts[a] !in watched {
      assert n.accounts[a] in n.Repr - {n};
    }
  }

  lemma NextWrite(given: seq<Account>, calls: seq<Call>, i: nat, x: Account, v: AccountValue)
    requires i < |calls|
    ensures var now := ChangedBy(v, Writes(given, calls[..i], x));
            ChangedBy(v, Writes(given, calls[..i + 1], x)) ==
              if Target(Track(given, calls[..i]), calls[i]) == Some(x) then WithFields(now, FieldsOf(calls[i])) else now
  {
    assert calls[..i + 1][..i] == calls[..i];
    var writes := Writes(given, calls[..i], x);
    if Target(Track(given, calls[..i]), calls[i]) == Some(x) {
      assert (writes + [FieldsOf(calls[i])])[..|writes|] == writes;
    } else {
      assert writes + [] == writes;
    }
  }

  /** Where the first calls leave a manager, and the watched objects, from what they were. */
  ghost predicate Left(n: FuzzStateManager, given: seq<Account>, calls: seq<Call>, i: nat, held: seq<Account>,
                       start: State, were: map<Account, AccountValue>)
    requires n.Valid() && i <= |calls|
    reads n, n.Repr, were.Keys
  {
    && Follows(Track(given, calls[..i]), n.accounts, held, were.Keys)
    && OnCourse(start, given, calls, i, n.View())
    && forall x :: x in were ==> x.Value() == ChangedBy(were[x], Writes(given, calls[..i], x))
  }

  lemma LeftAtStart(n: FuzzStateManager, given: seq<Account>, calls: seq<Call>, were: map<Account, AccountValue>)
    requires n.Valid() && forall a :: a in n.accounts ==> n.accounts[a] !in were
    requires forall x :: x in were ==> x.Value() == were[x]
    ensures Left(n, given, calls, 0, given, n.View(), were)
  {
    assert calls[..0] == [];
    CourseEnds(n.View(), given, calls, n.View());
  }

  lemma LeftAtEnd(n: FuzzStateManager, given: seq<Account>, calls: seq<Call>, held: seq<Account>, start: State,
                  were: map<Account, AccountValue>)
    requires n.Valid() && Left(n, given, calls, |calls|, held, start, were)
    ensures Follows(Track(given, calls), n.accounts, held, were.Keys)
    ensures Alike(n.View(), Run(start, Plainly(given, calls)))
    ensures forall x :: x in were ==> x.Value() == ChangedBy(were[x], Writes(given, calls, x))
  {
    CourseEnds(start, given, calls, n.View());
    assert calls[..|calls|] == calls;
  }

  method PerformNext(n: FuzzStateManager, given: seq<Account>, calls: seq<Call>, i: nat, held0: seq<Account>,
                     ghost start: State, ghost were: map<Account, AccountValue>)
    returns (held: seq<Account>)
    requires i < |calls| && n.Valid() && Left(n, given, calls, i, held0, start, were)
    modifies n.Repr, held0
    ensures n.Valid() && fresh(n.Repr - old(n.Repr) - (set x | x in held0))
    ensures forall x :: x in held ==> x in held0 || x in n.Repr
    ensures Left(n, given, calls, i + 1, held, start, were)
  {
    ghost var now := n.View();
    held := Perform(n, held0, calls[i], Track(given, calls[..i]), were.Keys);
    CourseGoesOn(start, given, calls, i, now, n.View());
    assert calls[..i + 1][..i] == calls[..i];
    forall x | x in were ensures x.Value() == ChangedBy(were[x], Writes(given, calls[..i + 1], x)) {
      NextWrite(given, calls, i, x, were[x]);
    }
  }

  method PerformInTurn(n: FuzzStateManager, given: seq<Account>, calls: seq<Call>, ghost start: State,
                       ghost were: map<Account, AccountValue>)
    returns (held: seq<Account>)
    requires n.Valid() && Left(n, given, calls, 0, given, start, were)
    modifies n.Repr, given
    ensures n.Valid() && fresh(n.Repr - old(n.Repr) - (set x | x in given))
    ensures Left(n, given, calls, |calls|, held, start, were)
  {
    held := given;
    var i := 0;
    while i < |calls|
      invariant i <= |calls|
      invariant n.Valid() && fresh(n.Repr - old(n.Repr) - (set x | x in given))
      invariant forall x :: x in held ==> x in given || x in old(n.Repr) || fresh(x)
      invariant Left(n, given, calls, i, held, start, were)
    {
      held := PerformNext(n, given, calls, i, held, start, were);
      i := i + 1;
    }
  }

  method PerformAll(n: FuzzStateManager, given: seq<Account>, calls: seq<Call>, ghost watched: set<Account>)
    returns (held: seq<Account>)
    requires n.Valid() && forall a :: a in n.accounts ==> n.accounts[a] !in watched
    modifies n.Repr, given
    ensures n.Valid() && fresh(n.Repr - old(n.Repr) - (set x | x in given))
    ensures Follows(Track(given, calls), n.accounts, held, watched)
    ensures Alike(n.View(), Run(old(n.View()), Plainly(given, calls)))
    ensures forall x :: x in watched ==> x.Value() == ChangedBy(old(x.Value()), Writes(given, calls, x))
  {
    ghost var start, were := n.View(), map x | x in watched :: x.Value();
    LeftAtStart(n, given, calls, were);
    held := PerformInTurn(n, given, calls, start, were);
    LeftAtEnd(n, given, calls, held, start, were);
  }

  // ------------------------------------------------------------------ a manager and its copy

  /** What the calls do to the original's own account objects. */
  ghost function Moved(before: map<Address, Entry>, objects: map<Address, Account>, given: seq<Account>,
                       calls: seq<Call>): map<Address, Entry>
    requires objects.Keys == before.Keys
  {
    map a | a in before :: before[a].(account := ChangedBy(before[a].account, Writes(given, calls, objects[a])))
  }

  /** The address holds an account object that the calls leave with another value. */
  ghost predicate Reached(before: map<Address, Entry>, objects: map<Address, Account>, given: seq<Account>,
                          calls: seq<Call>, a: Address)
    requires a in objects && a in before
  {
    ChangedBy(before[a].account, Writes(given, calls, objects[a])) != before[a].account
  }

  lemma MovedChanges(before: map<Address, Entry>, objects: map<Address, Account>, given: seq<Account>, calls: seq<Call>)
    requires objects.Keys == before.Keys
    ensures Moved(before, objects, given, calls) != before <==>
            exists a :: a in objects && Reached(before, objects, given, calls, a)
    ensures (forall a :: a in objects ==> objects[a] !in given) ==> Moved(before, objects, given, calls) == before
  {
    if a :| a in objects && Reached(before, objects, given, calls, a) {
      assert Moved(before, objects, given, calls)[a] != before[a];
    }
    forall a | a in objects && objects[a] !in given ensures !Reached(before, objects, given, calls, a) {
      OnlyGivenAreWritten(given, calls, objects[a]);
    }
  }

  method RunOnCopy(m: FuzzStateManager, given: seq<Account>, calls: seq<Call>, ghost watched: set<Account>)
    returns (copy: FuzzStateManager, held: seq<Account>)
    requires m.Valid()
    modifies given
    ensures copy.Valid() && fresh(copy) && Follows(Track(given, calls), copy.accounts, held, watched)
    ensures Alike(copy.View(), Run(State(old(m.ToJSON()), None), Plainly(given, calls)))
    ensures forall x :: x in watched ==> x.Value() == ChangedBy(old(x.Value()), Writes(given, calls, x))
  {
    copy := m.Copy();
    held := PerformAll(copy, given, calls, watched);
  }

  /** Any calls on a copy, given any account objects.  The given objects stand in the copy where the
      calls put them, and otherwise it goes its own way.  The original moves by exactly the changes
      the calls make to its own objects, and its snapshot never: it changes if and only if one of its
      account objects is given away and ends with another value. */
  method UseCopy(m: FuzzStateManager, given: seq<Account>, calls: seq<Call>)
    returns (copy: FuzzStateManager, held: seq<Account>)
    requires m.Valid()
    modifies given
    ensures m.Valid() && copy.Valid() && fresh(copy)
    ensures Follows(Track(given, calls), copy.accounts, held, m.accounts.Values + set x | x in given)
    ensures Alike(copy.View(), Run(State(old(m.ToJSON()), None), Plainly(given, calls)))
    ensures forall x :: x in given ==> x.Value() == ChangedBy(old(x.Value()), Writes(given, calls, x))
    ensures m.ToJSON().entries == Moved(old(m.ToJSON()).entries, m.accounts, given, calls)
    ensures m.ToJSON() != old(m.ToJSON()) <==>
              exists a :: a in m.accounts && Reached(old(m.ToJSON()).entries, m.accounts, given, calls, a)
    ensures (forall a :: a in m.accounts ==> m.accounts[a] !in given) ==> m.View() == old(m.View())
  {
    ghost var before := m.ToJSON().entries;
    copy, held := RunOnCopy(m, given, calls, m.accounts.Values + set x | x in given);
    assert m.Valid();
    forall a | a in m.storage ensures m.storage[a].Value() == Moved(before, m.accounts, given, calls)[a] {
      var x := m.accounts[a];
      assert x in m.accounts.Values;
      assert x.Value() == ChangedBy(before[a].account, Writes(given, calls, x));
    }
    m.Shows(Moved(before, m.accounts, given, calls));
    MovedChanges(before, m.accounts, given, calls);
  }

  /** Nothing done to the original, with whatever objects, reaches a copy made of it before. */
  method UseOriginal(m: FuzzStateManager, given: seq<Account>, calls: seq<Call>) returns (copy: FuzzStateManager)
    requires m.Valid()
    modifies m.Repr, given
    ensures m.Valid() && Alike(m.View(), Run(old(m.View()), Plainly(given, calls)))
    ensures copy.Valid() && copy.View() == State(old(m.ToJSON()), None)
  {
    copy := m.Copy();
    var _ := PerformAll(m, given, calls, {});
  }

  /** One modification through any other manager: it changes the original exactly when the address
      holds one of the original's account objects and the change is not none. */
  method ModifyThrough(m: FuzzStateManager, copy: FuzzStateManager, a: Address, fields: AccountFields)
    requires m.Valid() && copy.Valid()
    modifies if a in copy.accounts then {copy.accounts[a]} else {}
    ensures m.Valid() && m.ckpt == old(m.ckpt)
    ensures m.ToJSON() != old(m.ToJSON()) <==>
              a in copy.accounts && copy.accounts[a] in m.accounts.Values
              && copy.accounts[a].Value() != old(copy.accounts[a].Value())
  {
    ghost var before := m.ToJSON().entries;
    ModifyAt(copy, a, fields);
    assert m.Valid();
    if a in copy.accounts && copy.accounts[a] in m.accounts.Values
       && copy.accounts[a].Value() != old(copy.accounts[a].Value())
    {
      var b :| b in m.accounts && m.accounts[b] == copy.accounts[a];
      assert m.ToJSON().entries[b].account != before[b].account;
    } else {
      forall b | b in m.storage ensures m.storage[b].Value() == before[b] {
        assert m.accounts[b].Value() == old(m.accounts[b].Value());
      }
      m.Shows(before);
    }
  }
}
