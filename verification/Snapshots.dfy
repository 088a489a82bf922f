/** What checkpoint, revert and copy promise about the state manager, on its data and on its objects. */
module Snapshots {
  import opened Common
  import opened StateManager

  // ------------------------------------------------------------------ data

  predicate Checkpoints(ops: seq<Op>) {
    exists i :: 0 <= i < |ops| && ops[i].Checkpoint?
  }

  lemma {:induction false} SnapshotUntouched(s: State, ops: seq<Op>)
    requires !Checkpoints(ops)
    ensures Run(s, ops).ckpt == s.ckpt
  {
    if ops != [] {
      var last := |ops| - 1;
      assert !Checkpoints(ops[..last]) by {
        assert forall i :: 0 <= i < last ==> ops[..last][i] == ops[i];
      }
      SnapshotUntouched(s, ops[..last]);
      assert !ops[last].Checkpoint?;
    }
  }

  lemma {:induction false} RunAppends(s: State, ops: seq<Op>, more: seq<Op>)
    ensures Run(s, ops + more) == Run(Run(s, ops), more)
  {
    if more == [] {
      assert ops + more == ops;
    } else {
      var last := |more| - 1;
      assert (ops + more)[..|ops| + last] == ops + more[..last];
      RunAppends(s, ops, more[..last]);
    }
  }

  /** Whatever happens between a checkpoint and a revert, short of another checkpoint, is undone;
      reverting again changes nothing. */
  lemma RevertRestores(s: State, ops: seq<Op>)
    requires !Checkpoints(ops)
    ensures Run(s, [Op.Checkpoint] + ops + [Revert]).contents == s.contents
    ensures Run(s, [Op.Checkpoint] + ops + [Revert, Revert]) == Run(s, [Op.Checkpoint] + ops + [Revert])
  {
    var c := Step(s, Op.Checkpoint);
    assert Run(s, [Op.Checkpoint]) == c by { assert [Op.Checkpoint][..0] == []; }
    RunAppends(s, [Op.Checkpoint], ops);
    SnapshotUntouched(c, ops);
    var all := [Op.Checkpoint] + ops;
    RunAppends(s, all, [Revert]);
    RunAppends(s, all, [Revert, Revert]);
    var t := Run(s, all);
    assert Run(t, [Revert]) == Step(t, Revert) by { assert [Revert][..0] == []; }
    assert Run(t, [Revert, Revert]) == Step(Step(t, Revert), Revert) by { assert [Revert, Revert][..1] == [Revert]; }
  }

  // ------------------------------------------------------------------ what a slot holds

  function LastCheckpoint(ops: seq<Op>): (i: Option<nat>)
    ensures i.Some? ==> i.value < |ops|
  {
    if ops == [] then None
    else if ops[|ops| - 1].Checkpoint? then Some(|ops| - 1)
    else LastCheckpoint(ops[..|ops| - 1])
  }

  predicate Erases(op: Op, a: Address) {
    (op.PutAccount? || op.PutContractCode? || op.ClearContractStorage? || op.DeleteAccount?) && op.address == a
  }

  /** What was last written to a slot that held `first`: a revert goes back to what it held at the last
      checkpoint, and replacing, clearing or deleting the entry forgets it. */
  function LastWritten(first: Bytes, ops: seq<Op>, a: Address, key: Bytes): Bytes
    decreases |ops|
  {
    if ops == [] then first
    else
      var prefix, op := ops[..|ops| - 1], ops[|ops| - 1];
      if op.Revert? then
        match LastCheckpoint(prefix)
        case None => first
        case Some(i) => LastWritten(first, ops[..i], a, key)
      else if op.PutContractStorage? && op.address == a && op.key == key then op.value
      else if Erases(op, a) then []
      else LastWritten(first, prefix, a, key)
  }

  lemma {:induction false} SnapshotIsLastCheckpoint(s: State, ops: seq<Op>)
    ensures Run(s, ops).ckpt ==
            match LastCheckpoint(ops)
            case None => s.ckpt
            case Some(i) => Some(Run(s, ops[..i]).contents)
  {
    if ops != [] {
      var prefix := ops[..|ops| - 1];
      SnapshotIsLastCheckpoint(s, prefix);
      if LastCheckpoint(prefix).Some? {
        var i := LastCheckpoint(prefix).value;
        assert prefix[..i] == ops[..i];
      }
    }
  }

  /** After any operations, in any order, a storage read gives what was last written; they start where
      a revert would not change the slot, as a fresh state or one just checkpointed does. */
  lemma {:induction false} SlotsHoldLastWrite(s: State, ops: seq<Op>, a: Address, key: Bytes)
    requires SlotIn(Step(s, Revert).contents, a, key) == SlotIn(s.contents, a, key)
    ensures SlotIn(Run(s, ops).contents, a, key) == LastWritten(SlotIn(s.contents, a, key), ops, a, key)
    decreases |ops|
  {
    if ops != [] {
      var prefix := ops[..|ops| - 1];
      SlotsHoldLastWrite(s, prefix, a, key);
      if ops[|ops| - 1].Revert? {
        SnapshotIsLastCheckpoint(s, prefix);
        if LastCheckpoint(prefix).Some? {
          var i := LastCheckpoint(prefix).value;
          assert prefix[..i] == ops[..i];
          SlotsHoldLastWrite(s, ops[..i], a, key);
        }
      }
    }
  }

  // ------------------------------------------------------------------ what an entry holds besides

  function CodeIn(c: Contents, a: Address): Option<Bytes> {
    if a in c.entries then Some(c.entries[a].code) else None
  }

  function AccountIn(c: Contents, a: Address): Option<AccountValue> {
    if a in c.entries then Some(c.entries[a].account) else None
  }

  function OrElse<T>(current: Option<T>, other: T): Option<T> {
    if current.Some? then current else Some(other)
  }

  /** The code last stored for an address that had `first`; storing an account makes it empty, and the
      first use of an unknown address gives it none. */
  function LastCode(first: Option<Bytes>, ops: seq<Op>, a: Address): Option<Bytes>
    decreases |ops|
  {
    if ops == [] then first
    else
      var prefix, op := ops[..|ops| - 1], ops[|ops| - 1];
      if op.Revert? then
        match LastCheckpoint(prefix)
        case None => first
        case Some(i) => LastCode(first, ops[..i], a)
      else if op.PutContractCode? && op.address == a then Some(op.code)
      else if op.PutAccount? && op.address == a then Some([])
      else if op.DeleteAccount? && op.address == a then None
      else if (op.GetAccount? || op.PutContractStorage?) && op.address == a then OrElse(LastCode(first, prefix, a), [])
      else LastCode(first, prefix, a)
  }

  /** The account last stored for the address, with the fields modified since; storing code empties it. */
  function LastAccount(first: Option<AccountValue>, ops: seq<Op>, a: Address): Option<AccountValue>
    decreases |ops|
  {
    if ops == [] then first
    else
      var prefix, op := ops[..|ops| - 1], ops[|ops| - 1];
      if op.Revert? then
        match LastCheckpoint(prefix)
        case None => first
        case Some(i) => LastAccount(first, ops[..i], a)
      else if op.PutAccount? && op.address == a then Some(op.account)
      else if op.PutContractCode? && op.address == a then Some(EMPTY_ACCOUNT)
      else if op.DeleteAccount? && op.address == a then None
      else if op.ModifyAccountFields? && op.address == a then
        match LastAccount(first, prefix, a)
        case None => None
        case Some(v) => Some(WithFields(v, op.fields))
      else if (op.GetAccount? || op.PutContractStorage?) && op.address == a then
        OrElse(LastAccount(first, prefix, a), EMPTY_ACCOUNT)
      else LastAccount(first, prefix, a)
  }

  /** After any operations, in any order, an address has the code and the account last stored for it. */
  lemma {:induction false} EntriesHoldLastWrite(s: State, ops: seq<Op>, a: Address)
    requires CodeIn(Step(s, Revert).contents, a) == CodeIn(s.contents, a)
    requires AccountIn(Step(s, Revert).contents, a) == AccountIn(s.contents, a)
    ensures CodeIn(Run(s, ops).contents, a) == LastCode(CodeIn(s.contents, a), ops, a)
    ensures AccountIn(Run(s, ops).contents, a) == LastAccount(AccountIn(s.contents, a), ops, a)
    decreases |ops|
  {
    if ops != [] {
      var prefix := ops[..|ops| - 1];
      EntriesHoldLastWrite(s, prefix, a);
      if ops[|ops| - 1].Revert? {
        SnapshotIsLastCheckpoint(s, prefix);
        if LastCheckpoint(prefix).Some? {
          var i := LastCheckpoint(prefix).value;
          assert prefix[..i] == ops[..i];
          EntriesHoldLastWrite(s, ops[..i], a);
        }
      }
    }
  }

  // ------------------------------------------------------------------ against a stack of snapshots

  /** The state manager an EVM expects: checkpoints nest. */
  datatype Stacked = Stacked(contents: Contents, open: seq<Contents>)

  function StackStep(s: Stacked, op: Op): Stacked
    requires (op.Revert? || op.Commit?) ==> s.open != []
  {
    match op
    case Checkpoint => Stacked(s.contents, s.open + [s.contents])
    case Commit => s.(open := s.open[..|s.open| - 1])
    case Revert => Stacked(s.open[|s.open| - 1], s.open[..|s.open| - 1])
    case _ => s.(contents := Update(s.contents, op))
  }

  function DepthAfter(d: nat, op: Op): Option<nat> {
    match op
    case Checkpoint => Some(d + 1)
    case Commit => if d == 0 then None else Some(d - 1)
    case Revert => if d == 0 then None else Some(d - 1)
    case _ => Some(d)
  }

  /** How many checkpoints are open; an unmatched revert or commit leaves none defined. */
  function Depth(ops: seq<Op>): Option<nat> {
    if ops == [] then Some(0)
    else
      match Depth(ops[..|ops| - 1])
      case None => None
      case Some(d) => DepthAfter(d, ops[|ops| - 1])
  }

  /** At most one checkpoint is open at any time. */
  ghost predicate Unnested(ops: seq<Op>) {
    forall i :: 0 <= i <= |ops| ==> Depth(ops[..i]).Some? && Depth(ops[..i]).value <= 1
  }

  function StackRun(c: Contents, ops: seq<Op>): (s: Stacked)
    requires Depth(ops).Some?
    ensures |s.open| == Depth(ops).value
  {
    if ops == [] then Stacked(c, []) else StackStep(StackRun(c, ops[..|ops| - 1]), ops[|ops| - 1])
  }

  /** As long as checkpoints do not nest, the single stored snapshot behaves like the stack. */
  lemma {:induction false} SingleSnapshotSuffices(c: Contents, ops: seq<Op>)
    requires Unnested(ops) && Depth(ops).Some?
    ensures Run(State(c, None), ops).contents == StackRun(c, ops).contents
    ensures StackRun(c, ops).open != [] ==> Run(State(c, None), ops).ckpt == Some(StackRun(c, ops).open[0])
  {
    if ops != [] {
      var prefix := ops[..|ops| - 1];
      assert Unnested(prefix) by {
        assert forall i :: 0 <= i <= |prefix| ==> prefix[..i] == ops[..i];
      }
      assert ops[..|ops|] == ops;
      assert Depth(prefix).Some? && Depth(prefix).value <= 1;
      SingleSnapshotSuffices(c, prefix);
    }
  }

  lemma StackRunsTo(c: Contents, ops: seq<Op>, op: Op)
    requires Depth(ops).Some?
    ensures Depth(ops + [op]) == DepthAfter(Depth(ops).value, op)
    ensures Depth(ops + [op]).Some? ==> StackRun(c, ops + [op]) == StackStep(StackRun(c, ops), op)
  {
    assert (ops + [op])[..|ops|] == ops;
  }

  lemma RunsTo(s: State, ops: seq<Op>, op: Op)
    ensures Run(s, ops + [op]) == Step(Run(s, ops), op)
  {
    assert (ops + [op])[..|ops|] == ops;
  }

  /** What nesting does to any run: the outer revert goes back to the inner checkpoint, so it
      restores the outer snapshot exactly when nothing had changed between the two checkpoints. */
  lemma OuterRevertFindsInnerSnapshot(s: State, a: seq<Op>, b: seq<Op>, c: seq<Op>)
    requires !Checkpoints(a) && !Checkpoints(b) && !Checkpoints(c)
    ensures var between := Run(Step(s, Op.Checkpoint), a).contents;
            var end := Run(s, [Op.Checkpoint] + a + [Op.Checkpoint] + b + [Revert] + c + [Revert]).contents;
            end == between && (end == s.contents <==> between == s.contents)
  {
    var none: seq<Op> := [];
    RunsTo(s, none, Op.Checkpoint);
    assert none + [Op.Checkpoint] == [Op.Checkpoint];
    RunAppends(s, [Op.Checkpoint], a);
    RunsTo(s, [Op.Checkpoint] + a, Op.Checkpoint);
    var inner := [Op.Checkpoint] + a + [Op.Checkpoint];
    RunAppends(s, inner, b);
    SnapshotUntouched(Run(s, inner), b);
    RunsTo(s, inner + b, Revert);
    RunAppends(s, inner + b + [Revert], c);
    SnapshotUntouched(Run(s, inner + b + [Revert]), c);
    RunsTo(s, inner + b + [Revert] + c, Revert);
  }

  /** A checkpoint, an update, another checkpoint, and two reverts. */
  function Nested(update: Op): seq<Op> {
    [Op.Checkpoint] + [update] + [Op.Checkpoint] + [Revert] + [Revert]
  }

  predicate IsUpdate(op: Op) { !op.Checkpoint? && !op.Commit? && !op.Revert? }

  lemma PopsPushed(s: Stacked)
    ensures StackStep(StackStep(s, Op.Checkpoint), Revert) == s
  {
    DropLastOfConcat(s.open, [s.contents]);
  }

  /** On the stack, a checkpoint at any time followed by a revert is as if neither had been. */
  lemma PairOnStack(c: Contents, ops: seq<Op>)
    requires Depth(ops).Some?
    ensures Depth(ops + [Op.Checkpoint] + [Revert]) == Depth(ops)
    ensures StackRun(c, ops + [Op.Checkpoint] + [Revert]) == StackRun(c, ops)
  {
    var s, next := StackRun(c, ops), ops + [Op.Checkpoint];
    StackRunsTo(c, ops, Op.Checkpoint);
    assert Depth(next) == Some(|s.open| + 1) && StackRun(c, next) == StackStep(s, Op.Checkpoint);
    StackRunsTo(c, next, Revert);
    PopsPushed(s);
  }

  lemma OpenOnStack(c: Contents, update: Op)
    requires IsUpdate(update)
    ensures var ops := [Op.Checkpoint] + [update];
            Depth(ops) == Some(1) && StackRun(c, ops) == Stacked(Update(c, update), [c])
  {
    var none: seq<Op> := [];
    assert none + [Op.Checkpoint] == [Op.Checkpoint];
    StackRunsTo(c, none, Op.Checkpoint);
    StackRunsTo(c, [Op.Checkpoint], update);
  }

  lemma NestedOnStack(c: Contents, update: Op)
    requires IsUpdate(update)
    ensures Depth(Nested(update)).Some? && StackRun(c, Nested(update)).contents == c
  {
    var open := [Op.Checkpoint] + [update];
    OpenOnStack(c, update);
    PairOnStack(c, open);
    StackRunsTo(c, open + [Op.Checkpoint] + [Revert], Revert);
  }

  lemma NestedOnOneSnapshot(c: Contents, update: Op)
    requires IsUpdate(update)
    ensures Run(State(c, None), Nested(update)).contents == Update(c, update)
  {
    var s, none: seq<Op> := State(c, None), [];
    var o1, o2, o3 := [Op.Checkpoint], [Op.Checkpoint] + [update], [Op.Checkpoint] + [update] + [Op.Checkpoint];
    assert none + [Op.Checkpoint] == o1;
    RunsTo(s, none, Op.Checkpoint);
    RunsTo(s, o1, update);
    RunsTo(s, o2, Op.Checkpoint);
    RunsTo(s, o3, Revert);
    RunsTo(s, o3 + [Revert], Revert);
  }

  /** Nesting breaks it: the inner checkpoint overwrites the outer snapshot, so the two ways of keeping
      snapshots agree on a nested update exactly when it changes nothing, and writing a slot does. */
  lemma NestingLosesOuterSnapshot(c: Contents, update: Op, a: Address, key: Bytes, value: Bytes)
    requires IsUpdate(update)
    ensures Depth(Nested(update)).Some?
    ensures Run(State(c, None), Nested(update)).contents == StackRun(c, Nested(update)).contents
            <==> Update(c, update) == c
    ensures SlotIn(c, a, key) != value ==> Update(c, PutContractStorage(a, key, value)) != c
  {
    NestedOnStack(c, update);
    NestedOnOneSnapshot(c, update);
    assert SlotIn(Update(c, PutContractStorage(a, key, value)), a, key) == value;
  }

  // ------------------------------------------------------------------ objects

  method RunOps(m: FuzzStateManager, ops: seq<Op>)
    requires m.Valid() && m.Unshared()
    modifies m.Repr
    ensures m.Valid() && m.Unshared() && fresh(m.Repr - old(m.Repr))
    ensures m.View() == Run(old(m.View()), ops)
  {
    var i := 0;
    assert ops[..0] == [];
    while i < |ops|
      invariant i <= |ops|
      invariant m.Valid() && m.Unshared() && fresh(m.Repr - old(m.Repr))
      invariant m.View() == Run(old(m.View()), ops[..i])
    {
      m.Apply(ops[i]);
      assert ops[..i + 1][..i] == ops[..i];
      i := i + 1;
    }
    assert ops[..|ops|] == ops;
  }

  /** A copy goes its own way: it ends where its own operations take it from the contents it was
      made of, and nothing that existed before is modified. */
  method CopiesRunAlone(m: FuzzStateManager, ops: seq<Op>) returns (copy: FuzzStateManager)
    requires m.Valid()
    ensures copy.Valid() && fresh(copy.Repr)
    ensures copy.View() == Run(State(m.View().contents, None), ops)
  {
    copy := m.Copy();
    RunOps(copy, ops);
  }
}
