/** What the lazy cache makes of the remote chain: a three-valued overlay, and when that overlay is
    simply the remote chain plus the fuzzer's own writes. */
module LazyProofs {
  import opened Common
  import opened LazyState
  import StateManager

  // ------------------------------------------------------------------ the overlay

  /** A touched location holds what was last written or fetched, or None once erased. */
  datatype Overlay = Overlay(touched: map<Location, Option<Bytes>>, live: set<Address>)

  datatype Overlaid = Overlaid(now: Overlay, ckpt: Option<Overlay>)

  function Look(remote: Remote, o: Overlay, l: Location): Option<Bytes> {
    if l !in o.touched then Some(remote(l))
    else if o.touched[l].Some? then o.touched[l]
    else if l.Slot? || l.address in o.live then Some([])
    else None
  }

  function Put(o: Overlay, l: Location, value: Bytes): Overlay {
    Overlay(o.touched[l := Some(value)], o.live + {l.address})
  }

  /** Erases the touched slots of an address, and its code if asked to, leaving them touched. */
  function Erase(o: Overlay, a: Address, alsoCode: bool): Overlay {
    o.(touched := map l | l in o.touched :: if l.address == a && (l.Slot? || alsoCode) then None else o.touched[l])
  }

  function OverlayStep(remote: Remote, s: Overlaid, op: LazyOp): Overlaid {
    var o := s.now;
    match op
    case ReadStorage(a, key) =>
      if Slot(a, key) in o.touched then s else s.(now := Put(o, Slot(a, key), remote(Slot(a, key))))
    case ReadCode(a) => if Code(a) in o.touched then s else s.(now := Put(Erase(o, a, false), Code(a), remote(Code(a))))
    case WriteStorage(a, key, value) => s.(now := Put(o, Slot(a, key), value))
    case WriteCode(a, code) => s.(now := Put(Erase(o, a, false), Code(a), code))
    case TouchAccount(a) => s.(now := o.(live := o.live + {a}))
    case WriteAccount(a, _) => s.(now := Erase(o, a, true).(live := o.live + {a}))
    case ModifyAccount(_, _) => s
    case ClearStorage(a) => s.(now := Erase(o, a, false))
    case DropAccount(a) => s.(now := Erase(o, a, true).(live := o.live - {a}))
    case TakeCheckpoint => s.(ckpt := Some(o))
    case RevertToCheckpoint => s.(now := if s.ckpt.Some? then s.ckpt.value else Overlay(map[], {}))
    case ContinueOnCopy => s.(ckpt := None)
  }

  function OverlayRun(remote: Remote, ops: seq<LazyOp>): Overlaid {
    if ops == [] then Overlaid(Overlay(map[], {}), None)
    else OverlayStep(remote, OverlayRun(remote, ops[..|ops| - 1]), ops[|ops| - 1])
  }

  ghost predicate Represents(c: Cache, o: Overlay) {
    && o.touched.Keys == c.dirty
    && o.live == c.entries.Keys
    && (forall a, key :: a in c.entries && key in c.entries[a].storage ==> Slot(a, key) in c.dirty)
    && (forall l :: l in o.touched ==> Holds(c, l, o.touched[l]))
  }

  predicate Holds(c: Cache, l: Location, value: Option<Bytes>) {
    match l
    case Slot(a, key) =>
      value == if a in c.entries && key in c.entries[a].storage then Some(c.entries[a].storage[key]) else None
    case Code(a) =>
      if a in c.entries then c.entries[a].code == (if value.Some? then value.value else []) else value.None?
  }

  ghost predicate RepresentsAll(s: Cached, o: Overlaid) {
    && Represents(s.now, o.now)
    && s.ckpt.Some? == o.ckpt.Some?
    && (s.ckpt.Some? ==> Represents(s.ckpt.value, o.ckpt.value))
  }

  /** Changing one entry preserves the representation when it does so for the locations of that address. */
  lemma EntryRefines(c: Cache, o: Overlay, c': Cache, o': Overlay, a: Address)
    requires Represents(c, o)
    requires c'.entries - {a} == c.entries - {a} && o'.live - {a} == o.live - {a} && (a in o'.live <==> a in c'.entries)
    requires o'.touched.Keys == c'.dirty
    requires forall l :: l in o'.touched && l.address != a ==> l in o.touched && o'.touched[l] == o.touched[l]
    requires forall l :: l in o.touched ==> l in o'.touched
    requires forall l :: l in o'.touched && l.address == a ==> Holds(c', l, o'.touched[l])
    requires a in c'.entries ==> forall key :: key in c'.entries[a].storage ==> Slot(a, key) in c'.dirty
    ensures Represents(c', o')
  {
    assert forall b :: b != a && b in c.entries ==> b in c.entries - {a} && (c.entries - {a})[b] == c.entries[b];
    assert forall b :: b != a && b in c'.entries ==> b in c'.entries - {a} && (c'.entries - {a})[b] == c'.entries[b];
    assert forall b :: b != a ==> (b in c.entries <==> b in c'.entries);
    assert forall b :: b != a ==> (b in o.live <==> b in o.live - {a}) && (b in o'.live <==> b in o'.live - {a});
    assert forall b :: b in o'.live <==> b in c'.entries.Keys;
    forall l | l in o'.touched ensures Holds(c', l, o'.touched[l]) {
      if l.address != a { assert Holds(c, l, o.touched[l]); }
    }
  }

  lemma WrittenRefines(c: Cache, o: Overlay, a: Address, key: Bytes, value: Bytes)
    requires Represents(c, o)
    ensures Represents(Written(c, a, key, value), Put(o, Slot(a, key), value))
  {
    var c', o' := Written(c, a, key, value), Put(o, Slot(a, key), value);
    assert c'.entries - {a} == c.entries - {a};
    forall l | l in o'.touched && l.address == a ensures Holds(c', l, o'.touched[l]) {
      if l in o.touched { assert Holds(c, l, o.touched[l]); }
    }
    EntryRefines(c, o, c', o', a);
  }

  lemma CodedRefines(c: Cache, o: Overlay, a: Address, code: Bytes)
    requires Represents(c, o)
    ensures Represents(Coded(c, a, code), Put(Erase(o, a, false), Code(a), code))
  {
    var c', o' := Coded(c, a, code), Put(Erase(o, a, false), Code(a), code);
    assert c'.entries - {a} == c.entries - {a};
    forall l | l in o'.touched && l.address == a ensures Holds(c', l, o'.touched[l]) {}
    EntryRefines(c, o, c', o', a);
  }

  lemma ReplacedRefines(c: Cache, o: Overlay, a: Address, account: AccountValue)
    requires Represents(c, o)
    ensures Represents(c.(entries := c.entries[a := Entry(account, [], map[])]),
                       Erase(o, a, true).(live := o.live + {a}))
  {
    var c', o' := c.(entries := c.entries[a := Entry(account, [], map[])]), Erase(o, a, true).(live := o.live + {a});
    assert c'.entries - {a} == c.entries - {a};
    forall l | l in o'.touched && l.address == a ensures Holds(c', l, o'.touched[l]) {}
    EntryRefines(c, o, c', o', a);
  }

  lemma DroppedRefines(c: Cache, o: Overlay, a: Address)
    requires Represents(c, o)
    ensures Represents(c.(entries := c.entries - {a}), Erase(o, a, true).(live := o.live - {a}))
  {
    var c', o' := c.(entries := c.entries - {a}), Erase(o, a, true).(live := o.live - {a});
    assert c'.entries - {a} == c.entries - {a};
    forall l | l in o'.touched && l.address == a ensures Holds(c', l, o'.touched[l]) {}
    EntryRefines(c, o, c', o', a);
  }

  /** Replacing an entry's account, or emptying its storage, or creating it blank. */
  lemma AdjustedRefines(c: Cache, o: Overlay, a: Address, entry: Entry, clear: bool)
    requires Represents(c, o)
    requires entry.code == if a in c.entries then c.entries[a].code else []
    requires entry.storage == if a in c.entries && !clear then c.entries[a].storage else map[]
    ensures Represents(c.(entries := c.entries[a := entry]),
                       (if clear then Erase(o, a, false) else o).(live := o.live + {a}))
  {
    var c' := c.(entries := c.entries[a := entry]);
    var o' := (if clear then Erase(o, a, false) else o).(live := o.live + {a});
    assert c'.entries - {a} == c.entries - {a};
    forall l | l in o'.touched && l.address == a ensures Holds(c', l, o'.touched[l]) {
      assert Holds(c, l, o.touched[l]);
    }
    EntryRefines(c, o, c', o', a);
  }

  /** Clearing an address without an entry: its touched slots are erased already. */
  lemma ClearsNothing(c: Cache, o: Overlay, a: Address)
    requires Represents(c, o) && a !in c.entries
    ensures Erase(o, a, false) == o
  {
    forall l | l in o.touched && l.address == a && l.Slot? ensures o.touched[l] == None {
      assert Holds(c, l, o.touched[l]);
    }
    assert Erase(o, a, false).touched == o.touched;
  }

  lemma StepRefines(remote: Remote, s: Cached, o: Overlaid, op: LazyOp)
    requires RepresentsAll(s, o)
    ensures RepresentsAll(Step(remote, s, op), OverlayStep(remote, o, op))
  {
    match op {
      case ReadStorage(a, key) => WrittenRefines(s.now, o.now, a, key, remote(Slot(a, key)));
      case ReadCode(a) => CodedRefines(s.now, o.now, a, remote(Code(a)));
      case WriteStorage(a, key, value) => WrittenRefines(s.now, o.now, a, key, value);
      case WriteCode(a, code) => CodedRefines(s.now, o.now, a, code);
      case TouchAccount(a) =>
        if a !in s.now.entries { AdjustedRefines(s.now, o.now, a, BLANK, false); }
        else { assert o.now.live + {a} == o.now.live; }
      case WriteAccount(a, account) => ReplacedRefines(s.now, o.now, a, account);
      case ModifyAccount(a, fields) =>
        if a in s.now.entries {
          var entry := s.now.entries[a];
          AdjustedRefines(s.now, o.now, a, entry.(account := WithFields(entry.account, fields)), false);
          assert o.now.live + {a} == o.now.live;
        }
      case ClearStorage(a) =>
        if a in s.now.entries {
          AdjustedRefines(s.now, o.now, a, s.now.entries[a].(storage := map[]), true);
          assert o.now.live + {a} == o.now.live;
        } else {
          ClearsNothing(s.now, o.now, a);
        }
      case DropAccount(a) => DroppedRefines(s.now, o.now, a);
      case TakeCheckpoint =>
      case RevertToCheckpoint =>
      case ContinueOnCopy =>
    }
  }

  /** Through reads, writes, erasures, checkpoints and reverts, every read answers as the overlay does. */
  lemma {:induction false} CacheRefinesOverlay(remote: Remote, ops: seq<LazyOp>, l: Location)
    ensures Read(remote, Run(remote, ops).now, l) == Look(remote, OverlayRun(remote, ops).now, l)
    ensures RepresentsAll(Run(remote, ops), OverlayRun(remote, ops))
  {
    if ops != [] {
      var prefix := ops[..|ops| - 1];
      CacheRefinesOverlay(remote, prefix, l);
      StepRefines(remote, Run(remote, prefix), OverlayRun(remote, prefix), ops[|ops| - 1]);
    }
    var c, o := Run(remote, ops).now, OverlayRun(remote, ops).now;
    if l in o.touched { assert Holds(c, l, o.touched[l]); }
  }

  // ------------------------------------------------------------------ remote plus own writes

  datatype Ideal = Ideal(now: map<Location, Bytes>, ckpt: Option<map<Location, Bytes>>)

  function IdealStep(s: Ideal, op: LazyOp): Ideal {
    match op
    case WriteStorage(a, key, value) => s.(now := s.now[Slot(a, key) := value])
    case WriteCode(a, code) => s.(now := s.now[Code(a) := code])
    case TakeCheckpoint => s.(ckpt := Some(s.now))
    case RevertToCheckpoint => s.(now := if s.ckpt.Some? then s.ckpt.value else map[])
    case ContinueOnCopy => s.(ckpt := None)
    case _ => s
  }

  function IdealRun(ops: seq<LazyOp>): Ideal {
    if ops == [] then Ideal(map[], None) else IdealStep(IdealRun(ops[..|ops| - 1]), ops[|ops| - 1])
  }

  function IdealRead(remote: Remote, s: Ideal, l: Location): Bytes {
    if l in s.now then s.now[l] else remote(l)
  }

  predicate Erased(o: Overlay, l: Location) {
    l in o.touched && o.touched[l].None?
  }

  ghost predicate Faithful(remote: Remote, o: Overlay, written: map<Location, Bytes>) {
    && (forall l :: l in written ==> l in o.touched)
    && (forall l :: l in o.touched && o.touched[l].Some? ==>
          o.touched[l].value == if l in written then written[l] else remote(l))
  }

  lemma StepIsFaithful(remote: Remote, s: Overlaid, i: Ideal, op: LazyOp)
    requires Faithful(remote, s.now, i.now) && !op.TakeCheckpoint? && !op.RevertToCheckpoint?
    ensures Faithful(remote, OverlayStep(remote, s, op).now, IdealStep(i, op).now)
  {
  }

  lemma {:induction false} RunIsFaithful(remote: Remote, ops: seq<LazyOp>)
    ensures var o, i := OverlayRun(remote, ops), IdealRun(ops);
            && Faithful(remote, o.now, i.now) && o.ckpt.Some? == i.ckpt.Some?
            && (o.ckpt.Some? ==> Faithful(remote, o.ckpt.value, i.ckpt.value))
  {
    if ops != [] {
      var prefix, op := ops[..|ops| - 1], ops[|ops| - 1];
      RunIsFaithful(remote, prefix);
      if !op.TakeCheckpoint? && !op.RevertToCheckpoint? {
        StepIsFaithful(remote, OverlayRun(remote, prefix), IdealRun(prefix), op);
      }
    }
  }

  /** On every run, a read gives the remote value or the fuzzer's own last write exactly when the
      location has not been erased, or that value happens to be empty on a live account. */
  lemma ReadsRemotePlusOwnWrites(remote: Remote, ops: seq<LazyOp>, l: Location)
    ensures var o := OverlayRun(remote, ops).now; var ideal := IdealRead(remote, IdealRun(ops), l);
            Read(remote, Run(remote, ops).now, l) == Some(ideal)
            <==> (!Erased(o, l) || (ideal == [] && (l.Slot? || l.address in o.live)))
  {
    CacheRefinesOverlay(remote, ops, l);
    RunIsFaithful(remote, ops);
  }

  // ------------------------------------------------------------------ which runs erase

  predicate TouchedSlot(c: Cache, a: Address) {
    exists l :: l in c.dirty && l.Slot? && l.address == a
  }

  /** The caller's check: the operation does not replace an entry some of whose contents are in use. */
  predicate SparesTouched(c: Cache, op: LazyOp) {
    match op
    case ReadCode(a) => Code(a) in c.dirty || !TouchedSlot(c, a)
    case WriteCode(a, _) => !TouchedSlot(c, a)
    case ClearStorage(a) => !TouchedSlot(c, a)
    case WriteAccount(a, _) => !TouchedSlot(c, a) && Code(a) !in c.dirty
    case DropAccount(a) => !TouchedSlot(c, a) && Code(a) !in c.dirty
    case _ => true
  }

  ghost predicate NothingErased(o: Overlay) {
    forall l :: l in o.touched ==> o.touched[l].Some?
  }

  /** Each operation passes the check in the state it meets. */
  predicate AllSpare(remote: Remote, ops: seq<LazyOp>) {
    ops == [] ||
    var prefix := ops[..|ops| - 1];
    AllSpare(remote, prefix) && SparesTouched(Run(remote, prefix).now, ops[|ops| - 1])
  }

  /** Nothing is erased now or after any earlier operation. */
  ghost predicate NeverErases(remote: Remote, ops: seq<LazyOp>) {
    NothingErased(OverlayRun(remote, ops).now) && (ops == [] || NeverErases(remote, ops[..|ops| - 1]))
  }

  /** From a state without erased locations, a step erases one exactly when it fails the check. */
  lemma StepErases(remote: Remote, s: Cached, o: Overlaid, op: LazyOp)
    requires RepresentsAll(s, o) && NothingErased(o.now)
    requires o.ckpt.Some? ==> NothingErased(o.ckpt.value)
    ensures NothingErased(OverlayStep(remote, o, op).now) <==> SparesTouched(s.now, op)
  {
    var o' := OverlayStep(remote, o, op);
    if !SparesTouched(s.now, op) {
      var a := op.address;
      if Code(a) in s.now.dirty && (op.WriteAccount? || op.DropAccount?) {
        assert Erased(o'.now, Code(a));
      } else {
        var l :| l in s.now.dirty && l.Slot? && l.address == a;
        assert Erased(o'.now, l);
      }
    }
  }

  lemma {:induction false} SnapshotsUnerased(remote: Remote, ops: seq<LazyOp>)
    requires NeverErases(remote, ops)
    ensures OverlayRun(remote, ops).ckpt.Some? ==> NothingErased(OverlayRun(remote, ops).ckpt.value)
  {
    if ops != [] {
      SnapshotsUnerased(remote, ops[..|ops| - 1]);
    }
  }

  /** A run never erases anything exactly when each of its operations passes the caller's check. */
  lemma {:induction false} SparingRunsNeverErase(remote: Remote, ops: seq<LazyOp>)
    ensures AllSpare(remote, ops) <==> NeverErases(remote, ops)
  {
    if ops != [] {
      var prefix := ops[..|ops| - 1];
      SparingRunsNeverErase(remote, prefix);
      if NeverErases(remote, prefix) {
        SnapshotsUnerased(remote, prefix);
        CacheRefinesOverlay(remote, prefix, Code([]));
        StepErases(remote, Run(remote, prefix), OverlayRun(remote, prefix), ops[|ops| - 1]);
      }
    }
  }

  /** On runs whose operations pass the check, every read is the remote value or the last own write. */
  lemma SparingRunsReadTruly(remote: Remote, ops: seq<LazyOp>, l: Location)
    requires AllSpare(remote, ops)
    ensures Read(remote, Run(remote, ops).now, l) == Some(IdealRead(remote, IdealRun(ops), l))
  {
    SparingRunsNeverErase(remote, ops);
    ReadsRemotePlusOwnWrites(remote, ops, l);
  }

  // ------------------------------------------------------------------ against the plain state manager

  /** The operation that the plain state manager would be asked to do: a first read stores what it fetched. */
  function Fed(remote: Remote, dirty: set<Location>, op: LazyOp): StateManager.Op {
    match op
    case ReadStorage(a, key) =>
      if Slot(a, key) in dirty then StateManager.Commit
      else StateManager.PutContractStorage(a, key, remote(Slot(a, key)))
    case ReadCode(a) =>
      if Code(a) in dirty then StateManager.Commit else StateManager.PutContractCode(a, remote(Code(a)))
    case WriteStorage(a, key, value) => StateManager.PutContractStorage(a, key, value)
    case WriteCode(a, code) => StateManager.PutContractCode(a, code)
    case TouchAccount(a) => StateManager.GetAccount(a)
    case WriteAccount(a, account) => StateManager.PutAccount(a, account)
    case ModifyAccount(a, fields) => StateManager.ModifyAccountFields(a, fields)
    case ClearStorage(a) => StateManager.ClearContractStorage(a)
    case DropAccount(a) => StateManager.DeleteAccount(a)
    case TakeCheckpoint => StateManager.Checkpoint
    case RevertToCheckpoint => StateManager.Revert
    case ContinueOnCopy => StateManager.Commit
  }

  /** A plain state manager fed with what the lazy one fetches; a copy has no snapshot. */
  function FedRun(remote: Remote, ops: seq<LazyOp>): StateManager.State {
    if ops == [] then StateManager.FRESH_STATE
    else
      var prefix, op := ops[..|ops| - 1], ops[|ops| - 1];
      var s := StateManager.Step(FedRun(remote, prefix), Fed(remote, Run(remote, prefix).now.dirty, op));
      if op.ContinueOnCopy? then s.(ckpt := None) else s
  }

  function Entries(c: Cache): StateManager.Contents {
    StateManager.Contents(c.known, c.entries)
  }

  lemma StepAsFed(remote: Remote, s: Cached, op: LazyOp)
    ensures var plain := StateManager.State(Entries(s.now), if s.ckpt.Some? then Some(Entries(s.ckpt.value)) else None);
            var after := Step(remote, s, op); var fed := StateManager.Step(plain, Fed(remote, s.now.dirty, op));
            && fed.contents == Entries(after.now)
            && (!op.ContinueOnCopy? ==>
                  fed.ckpt == if after.ckpt.Some? then Some(Entries(after.ckpt.value)) else None)
  {
  }

  /** Over every run the cache holds what a plain state manager holds that is fed with the fetches:
      the same accounts, codes and slots, now and in the snapshot. */
  lemma {:induction false} LazyIsFedManager(remote: Remote, ops: seq<LazyOp>)
    ensures var s := Run(remote, ops);
            FedRun(remote, ops) ==
            StateManager.State(Entries(s.now), if s.ckpt.Some? then Some(Entries(s.ckpt.value)) else None)
  {
    if ops != [] {
      LazyIsFedManager(remote, ops[..|ops| - 1]);
      StepAsFed(remote, Run(remote, ops[..|ops| - 1]), ops[|ops| - 1]);
    }
  }
}
