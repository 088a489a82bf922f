/** The blackbox fuzzer's state manager: a cache over a remote chain.  A location is fetched on its
    first use and marked dirty; a dirty location is never fetched again. */
module LazyState {
  import opened Common
  import StateManager

  /** What the cache can mark: a storage slot or an account's code. */
  datatype Location = Slot(address: Address, key: Bytes) | Code(address: Address)

  /** The remote chain, which does not change while fuzzing. */
  type Remote = Location -> Bytes

  datatype Cache = Cache(known: seq<Address>, entries: map<Address, Entry>, dirty: set<Location>)

  datatype LazyOp =
    | ReadStorage(address: Address, key: Bytes)
    | ReadCode(address: Address)
    | WriteStorage(address: Address, key: Bytes, value: Bytes)
    | WriteCode(address: Address, code: Bytes)
    | TouchAccount(address: Address)
    | WriteAccount(address: Address, account: AccountValue)
    | ModifyAccount(address: Address, fields: AccountFields)
    | ClearStorage(address: Address)
    | DropAccount(address: Address)
    | TakeCheckpoint
    | RevertToCheckpoint
    | ContinueOnCopy     // go on with a copy, which starts without a checkpoint

  /** The code repeats the other fuzzer's state manager with dirty marks added, so the entries, their
      account objects and the snapshot are an inner manager's. */
  class LazyStateManager {
    const remote: Remote
    const inner: StateManager.FuzzStateManager
    var dirty: set<Location>
    var savedDirty: set<Location>    // the marks in the snapshot

    constructor (remote: Remote)
      ensures Valid() && inner.Unshared() && fresh(inner.Repr) && this.remote == remote
      ensures View() == Cached(Cache([], map[], {}), None)
    {
      this.remote := remote;
      inner := new StateManager.FuzzStateManager();
      dirty, savedDirty := {}, {};
    }

    constructor Around(remote: Remote, inner: StateManager.FuzzStateManager, dirty: set<Location>)
      requires inner.Valid() && inner.ckpt.None?
      ensures Valid() && this.remote == remote && this.inner == inner
      ensures View() == Cached(Now(inner.ToJSON(), dirty), None)
    {
      this.remote, this.inner, this.dirty, savedDirty := remote, inner, dirty, {};
    }

    ghost predicate Valid()
      reads this, inner, inner.Repr
    {
      inner.Valid() && this !in inner.Repr
    }

    ghost function View(): Cached
      requires Valid()
      reads this, inner, inner.Repr
    {
      Cached(Now(inner.ToJSON(), dirty), if inner.ckpt.Some? then Some(Now(inner.ckpt.value, savedDirty)) else None)
    }

    /** The storing itself, without the mark. */
    method Store(a: Address, key: Bytes, value: Bytes)
      requires Valid()
      modifies inner`storage, inner`accounts, inner`Repr, if a in inner.storage then {inner.storage[a]} else {}
      ensures Valid() && fresh(inner.Repr - old(inner.Repr)) && (old(inner.Unshared()) ==> inner.Unshared())
      ensures inner.ToJSON()
           == StateManager.Update(old(inner.ToJSON()), StateManager.Op.PutContractStorage(a, key, value))
    {
      inner.PutContractStorage(a, key, value);
    }

    method PutContractStorage(a: Address, key: Bytes, value: Bytes)
      requires Valid()
      modifies this`dirty, inner`storage, inner`accounts, inner`Repr
      modifies if a in inner.storage then {inner.storage[a]} else {}
      ensures Valid() && fresh(inner.Repr - old(inner.Repr)) && (old(inner.Unshared()) ==> inner.Unshared())
      ensures View() == old(View()).(now := Written(old(View()).now, a, key, value))
    {
      ghost var before := inner.ToJSON();
      WritingUpdates(before, dirty, a, key, value);
      dirty := dirty + {Slot(a, key)};
      assert inner.Valid() && inner.ToJSON() == before;
      Store(a, key, value);
    }

    method GetContractStorage(a: Address, key: Bytes) returns (value: Bytes)
      requires Valid()
      modifies this`dirty, inner.Repr
      ensures Valid() && fresh(inner.Repr - old(inner.Repr)) && (old(inner.Unshared()) ==> inner.Unshared())
      ensures value == Read(remote, old(View()).now, Slot(a, key)).value
      ensures View() == old(View()).(now := Fetched(remote, old(View()).now, Slot(a, key)))
    {
      if Slot(a, key) !in dirty {
        value := remote(Slot(a, key));
        PutContractStorage(a, key, value);
        return;
      }
      value := inner.GetContractStorage(a, key);
    }

    /** Looks the address object up among text keys, so the entry is always replaced. */
    method PutContractCode(a: Address, code: Bytes)
      requires Valid()
      modifies this`dirty, inner.Repr
      ensures Valid() && fresh(inner.Repr - old(inner.Repr)) && (old(inner.Unshared()) ==> inner.Unshared())
      ensures View() == old(View()).(now := Coded(old(View()).now, a, code))
    {
      ghost var before := inner.ToJSON();
      dirty := dirty + {Code(a)};
      assert inner.Valid() && inner.ToJSON() == before;
      inner.PutContractCode(a, code);
    }

    /** None is a rejected promise. */
    method GetContractCode(a: Address) returns (code: Option<Bytes>)
      requires Valid()
      modifies this`dirty, inner.Repr
      ensures Valid() && fresh(inner.Repr - old(inner.Repr)) && (old(inner.Unshared()) ==> inner.Unshared())
      ensures code == Read(remote, old(View()).now, Code(a))
      ensures View() == old(View()).(now := Fetched(remote, old(View()).now, Code(a)))
    {
      if Code(a) !in dirty {
        var data := remote(Code(a));
        PutContractCode(a, data);
        return Some(data);
      }
      code := inner.GetContractCode(a);
    }

    method Checkpoint()
      requires Valid()
      modifies this`savedDirty, inner`ckpt
      ensures Valid() && View() == Step(remote, old(View()), TakeCheckpoint)
    {
      inner.Checkpoint();
      savedDirty := dirty;
    }

    /** Without a checkpoint the rebuild fails after it has emptied the cache. */
    method Revert() returns (thrown: bool)
      requires Valid()
      modifies this`dirty, inner
      ensures Valid() && inner.Unshared() && fresh(inner.Repr - old(inner.Repr))
      ensures View() == Step(remote, old(View()), RevertToCheckpoint) && thrown == old(inner.ckpt).None?
    {
      dirty := if inner.ckpt.Some? then savedDirty else {};
      thrown := inner.Revert();
    }

    /** A copy shares no object with the original. */
    method Copy() returns (copy: LazyStateManager)
      requires Valid()
      ensures fresh(copy) && copy.Valid() && copy.inner.Unshared() && fresh(copy.inner.Repr) && copy.remote == remote
      ensures copy.View() == Step(remote, View(), ContinueOnCopy)
    {
      var fields := inner.Copy();
      copy := new LazyStateManager.Around(remote, fields, dirty);
    }

    /** An operation that neither fetches nor marks. */
    method Pass(op: StateManager.Op)
      requires Valid() && inner.Unshared() && !op.Checkpoint? && !op.Commit? && !op.Revert?
      modifies inner.Repr
      ensures Valid() && inner.Unshared() && fresh(inner.Repr - old(inner.Repr))
      ensures View() == old(View()).(now := Now(StateManager.Update(old(inner.ToJSON()), op), dirty))
    {
      inner.Apply(op);
    }

    /** Runs one operation against the remote chain; accounts come in as new objects. */
    method Apply(op: LazyOp)
      requires Valid() && inner.Unshared() && !op.ContinueOnCopy?
      modifies this`dirty, this`savedDirty, inner.Repr
      ensures Valid() && inner.Unshared() && fresh(inner.Repr - old(inner.Repr))
      ensures View() == Step(remote, old(View()), op)
    {
      match op {
        case ReadStorage(a, key) => var _ := GetContractStorage(a, key);
        case ReadCode(a) => var _ := GetContractCode(a);
        case WriteStorage(a, key, value) => PutContractStorage(a, key, value);
        case WriteCode(a, code) => PutContractCode(a, code);
        case TouchAccount(a) => Pass(StateManager.Op.GetAccount(a));
        case WriteAccount(a, account) => Pass(StateManager.Op.PutAccount(a, account));
        case ModifyAccount(a, fields) => Pass(StateManager.Op.ModifyAccountFields(a, fields));
        case ClearStorage(a) => Pass(StateManager.Op.ClearContractStorage(a));
        case DropAccount(a) => Pass(StateManager.Op.DeleteAccount(a));
        case TakeCheckpoint => Checkpoint();
        case RevertToCheckpoint => var _ := Revert();
      }
    }
  }

  // ------------------------------------------------------------------ specification

  function Now(c: StateManager.Contents, dirty: set<Location>): Cache {
    Cache(c.known, c.entries, dirty)
  }

  lemma WritingUpdates(c: StateManager.Contents, dirty: set<Location>, a: Address, key: Bytes, value: Bytes)
    ensures Written(Now(c, dirty), a, key, value)
         == Now(StateManager.Update(c, StateManager.Op.PutContractStorage(a, key, value)), dirty + {Slot(a, key)})
  {
  }

  datatype Cached = Cached(now: Cache, ckpt: Option<Cache>)

  function Written(c: Cache, a: Address, key: Bytes, value: Bytes): Cache {
    var entry := if a in c.entries then c.entries[a] else BLANK;
    Cache(c.known, c.entries[a := entry.(storage := entry.storage[key := value])], c.dirty + {Slot(a, key)})
  }

  function Coded(c: Cache, a: Address, code: Bytes): Cache {
    Cache(c.known, c.entries[a := Entry(EMPTY_ACCOUNT, code, map[])], c.dirty + {Code(a)})
  }

  /** The answer a read gives; None is a rejected promise, which only a code read can be. */
  function Read(remote: Remote, c: Cache, l: Location): (answer: Option<Bytes>)
    ensures l.Slot? ==> answer.Some?
  {
    if l !in c.dirty then Some(remote(l))
    else match l
      case Slot(a, key) => Some(if a in c.entries && key in c.entries[a].storage then c.entries[a].storage[key] else [])
      case Code(a) => if a in c.entries then Some(c.entries[a].code) else None
  }

  /** The state a read leaves: the first read of a location stores what it fetched. */
  function Fetched(remote: Remote, c: Cache, l: Location): Cache {
    if l in c.dirty then c
    else match l
      case Slot(a, key) => Written(c, a, key, remote(l))
      case Code(a) => Coded(c, a, remote(l))
  }

  function Step(remote: Remote, s: Cached, op: LazyOp): Cached {
    var c := s.now;
    match op
    case ReadStorage(a, key) => s.(now := Fetched(remote, c, Slot(a, key)))
    case ReadCode(a) => s.(now := Fetched(remote, c, Code(a)))
    case WriteStorage(a, key, value) => s.(now := Written(c, a, key, value))
    case WriteCode(a, code) => s.(now := Coded(c, a, code))
    case TouchAccount(a) => if a in c.entries then s else s.(now := c.(entries := c.entries[a := BLANK]))
    case WriteAccount(a, account) => s.(now := c.(entries := c.entries[a := Entry(account, [], map[])]))
    case ModifyAccount(a, fields) =>
      if a !in c.entries then s
      else
        var entry := c.entries[a];
        s.(now := c.(entries := c.entries[a := entry.(account := WithFields(entry.account, fields))]))
    case ClearStorage(a) =>
      if a in c.entries then s.(now := c.(entries := c.entries[a := c.entries[a].(storage := map[])])) else s
    case DropAccount(a) => s.(now := c.(entries := c.entries - {a}))
    case TakeCheckpoint => s.(ckpt := Some(c))
    case RevertToCheckpoint => s.(now := if s.ckpt.Some? then s.ckpt.value else Cache([], map[], {}))
    case ContinueOnCopy => s.(ckpt := None)
  }

  function Run(remote: Remote, ops: seq<LazyOp>): Cached {
    if ops == [] then Cached(Cache([], map[], {}), None)
    else Step(remote, Run(remote, ops[..|ops| - 1]), ops[|ops| - 1])
  }
}
