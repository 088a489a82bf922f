/** The interface account every program carries: a header followed by bytes that are appended in
    pieces, grown in bounded steps, and replaced wholesale from a buffer account. */
module IdlBuffer {
  import opened Common

  type Pubkey = nat
  const ERASED_AUTHORITY: Pubkey := 0
  const HEADER: nat := 8 + 32 + 4          // discriminator, authority, data_len
  const MAX_STEP: nat := 10_000

  /** An account's header fields and the bytes after the header. */
  datatype Account = Account(authority: Pubkey, dataLen: nat, trailing: Bytes) {
    function Size(): nat { HEADER + |trailing| }
  }

  // ------------------------------------------------------------------ one account

  function Created(authority: Pubkey, dataLen: nat): Option<Account> {
    if HEADER + dataLen >= U64_LIMIT then None  // the sum wraps to less than a header
    else Some(Account(authority, 0, Zeros(Min(HEADER + dataLen, MAX_STEP) - HEADER)))
  }

  /** What a grown part happens to hold: any bytes, taken from `fill` and then zero. */
  function Filler(n: nat, fill: Bytes): (s: Bytes)
    ensures |s| == n && (|fill| == n ==> s == fill)
  {
    seq(n, i => if 0 <= i < |fill| then fill[i] else 0)
  }

  function Resized(a: Account, target: nat, fill: Bytes): Option<Account> {
    if a.dataLen != 0 then None
    else if target < a.Size() then None
    else Some(a.(trailing := a.trailing + Filler(Min(target - a.Size(), MAX_STEP), fill)))
  }

  function WrittenTo(a: Account, data: Bytes): Option<Account> {
    var end := a.dataLen + |data|;
    if end >= U32_LIMIT then None
    else if end > |a.trailing| then None
    else Some(a.(dataLen := end, trailing := a.trailing[..a.dataLen] + data + a.trailing[end..]))
  }

  function Replaced(a: Account, buffer: Account): Option<Account> {
    if buffer.dataLen > |buffer.trailing| then None
    else if |a.trailing| < buffer.dataLen then None
    else
      var copied := buffer.trailing[..buffer.dataLen];
      Some(a.(dataLen := buffer.dataLen, trailing := copied + a.trailing[buffer.dataLen..]))
  }

  /** The account as bytes updated in place.  A method that fails leaves it as it was. */
  class Stored {
    var authority: Pubkey
    var dataLen: nat
    var trailing: array<Byte>

    constructor (authority: Pubkey, size: nat)
      requires size >= HEADER
      ensures View() == Account(authority, 0, Zeros(size - HEADER)) && fresh(trailing)
    {
      this.authority := authority;
      dataLen := 0;
      trailing := new Byte[size - HEADER](_ => 0);
      new;
      assert trailing[..] == Zeros(size - HEADER);
    }

    function View(): Account
      reads this, trailing
    {
      Account(authority, dataLen, trailing[..])
    }

    method Write(data: Bytes) returns (ok: bool)
      modifies this, trailing
      ensures trailing == old(trailing) && ok == WrittenTo(old(View()), data).Some?
      ensures View() == if ok then WrittenTo(old(View()), data).value else old(View())
    {
      var prev := dataLen;
      var end := prev + |data|;
      if end >= U32_LIMIT || end > trailing.Length { return false; }
      dataLen := end;
      var i := 0;
      while i < |data|
        invariant i <= |data| && trailing == old(trailing) && dataLen == end && authority == old(authority)
        invariant forall k :: 0 <= k < trailing.Length ==>
                    trailing[k] == if prev <= k < prev + i then data[k - prev] else old(trailing[k])
      {
        trailing[prev + i] := data[i];
        i := i + 1;
      }
      assert trailing[..] == WrittenTo(old(View()), data).value.trailing;
      ok := true;
    }

    method Resize(target: nat, fill: Bytes) returns (ok: bool)
      modifies this
      ensures ok == Resized(old(View()), target, fill).Some?
      ensures View() == if ok then Resized(old(View()), target, fill).value else old(View())
      ensures trailing == old(trailing) || fresh(trailing)
    {
      var size := HEADER + trailing.Length;
      if dataLen != 0 || target < size { return false; }
      var newSize := size + Min(target - size, MAX_STEP);
      if newSize > size {
        var before := trailing;
        var added := Filler(newSize - size, fill);
        var grown := new Byte[newSize - HEADER](i requires 0 <= i < newSize - HEADER reads before =>
          if i < before.Length then before[i] else added[i - before.Length]);
        trailing := grown;
        assert trailing[..] == old(trailing[..]) + added;
      } else {
        assert trailing[..] == old(trailing[..]) + Filler(0, fill);
      }
      ok := true;
    }

    /** Copies another account's content; the two are different accounts. */
    method SetBuffer(buffer: Stored) returns (ok: bool)
      requires buffer != this && buffer.trailing != trailing
      modifies this, trailing
      ensures trailing == old(trailing) && buffer.View() == old(buffer.View())
      ensures ok == Replaced(old(View()), buffer.View()).Some?
      ensures View() == if ok then Replaced(old(View()), buffer.View()).value else old(View())
    {
      var length := buffer.dataLen;
      if length > buffer.trailing.Length || trailing.Length < length { return false; }
      dataLen := length;
      var i := 0;
      while i < length
        invariant i <= length && trailing == old(trailing) && dataLen == length && authority == old(authority)
        invariant buffer.dataLen == length && buffer.trailing == old(buffer.trailing)
        invariant buffer.authority == old(buffer.authority)
        invariant forall k :: 0 <= k < trailing.Length ==>
                    trailing[k] == if k < i then buffer.trailing[k] else old(trailing[k])
        invariant buffer.trailing[..] == old(buffer.trailing[..])
      {
        trailing[i] := buffer.trailing[i];
        i := i + 1;
      }
      assert trailing[..] == Replaced(old(View()), buffer.View()).value.trailing;
      ok := true;
    }
  }

  // ------------------------------------------------------------------ the program's instructions

  datatype Instruction =
    | Create(to: Pubkey, payer: Pubkey, length: nat)
    | CreateBuffer(buffer: Pubkey, authority: Pubkey, size: nat)   // of a fresh zeroed account
    | Resize(idl: Pubkey, authority: Pubkey, length: nat, fill: Bytes)
    | Write(idl: Pubkey, authority: Pubkey, data: Bytes)
    | SetAuthority(idl: Pubkey, authority: Pubkey, newAuthority: Pubkey)
    | SetBuffer(buffer: Pubkey, idl: Pubkey, authority: Pubkey)
    | CloseAccount(account: Pubkey, authority: Pubkey, destination: Pubkey)

  type Accounts = map<Pubkey, Account>

  /** Each instruction names an authority, which must have signed. */
  predicate Authorized(accounts: Accounts, key: Pubkey, authority: Pubkey, signers: set<Pubkey>) {
    key in accounts && accounts[key].authority == authority && authority in signers && authority != ERASED_AUTHORITY
  }

  /** Puts an operation's outcome back into the ledger; a failed operation fails the instruction. */
  function StoredBack(accounts: Accounts, key: Pubkey, a: Option<Account>): Option<Accounts> {
    match a
    case None => None
    case Some(account) => Some(accounts[key := account])
  }

  function Process(accounts: Accounts, ix: Instruction, signers: set<Pubkey>): Option<Accounts> {
    match ix
    case Create(to, payer, length) =>
      if payer !in signers || to in accounts then None else StoredBack(accounts, to, Created(payer, length))
    case CreateBuffer(buffer, authority, size) =>
      if authority !in signers || authority == ERASED_AUTHORITY || buffer in accounts || size < HEADER then None
      else Some(accounts[buffer := Account(authority, 0, Zeros(size - HEADER))])
    case Resize(idl, authority, length, fill) =>
      if !Authorized(accounts, idl, authority, signers) then None
      else StoredBack(accounts, idl, Resized(accounts[idl], length, fill))
    case Write(idl, authority, data) =>
      if !Authorized(accounts, idl, authority, signers) then None
      else StoredBack(accounts, idl, WrittenTo(accounts[idl], data))
    case SetAuthority(idl, authority, newAuthority) =>
      if !Authorized(accounts, idl, authority, signers) then None
      else Some(accounts[idl := accounts[idl].(authority := newAuthority)])
    case SetBuffer(buffer, idl, authority) =>
      if !Authorized(accounts, idl, authority, signers) || !Authorized(accounts, buffer, authority, signers) then None
      else if buffer == idl then None  // the account cannot be borrowed twice
      else StoredBack(accounts, idl, Replaced(accounts[idl], accounts[buffer]))
    case CloseAccount(account, authority, destination) =>
      if !Authorized(accounts, account, authority, signers) || account == destination then None
      else Some(accounts - {account})
  }

  datatype Step = Step(ix: Instruction, signers: set<Pubkey>)

  function Commit(accounts: Accounts, step: Step): Accounts {
    match Process(accounts, step.ix, step.signers)
    case None => accounts
    case Some(after) => after
  }

  function Run(steps: seq<Step>): Accounts {
    if steps == [] then map[] else Commit(Run(steps[..|steps| - 1]), steps[|steps| - 1])
  }

  // ------------------------------------------------------------------ what an account is meant to hold

  type Contents = map<Pubkey, Bytes>

  /** What a successful instruction makes of the contents. */
  function Noted(before: Contents, ix: Instruction): Contents {
    match ix
    case Create(to, _, _) => before[to := []]
    case CreateBuffer(buffer, _, _) => before[buffer := []]
    case Write(idl, _, data) => before[idl := (if idl in before then before[idl] else []) + data]
    case SetBuffer(buffer, idl, _) => before[idl := if buffer in before then before[buffer] else []]
    case CloseAccount(account, _, _) => before - {account}
    case _ => before
  }

  /** Per account, the concatenation of what was written since its creation, or since the last
      buffer copied into it, that buffer's own writes first. */
  function Content(steps: seq<Step>): Contents {
    if steps == [] then map[]
    else
      var prefix, step := steps[..|steps| - 1], steps[|steps| - 1];
      if Process(Run(prefix), step.ix, step.signers).None? then Content(prefix) else Noted(Content(prefix), step.ix)
  }

  predicate Holds(a: Account, content: Bytes) {
    a.dataLen == |content| <= |a.trailing| && a.trailing[..a.dataLen] == content
  }

  ghost predicate AllHold(accounts: Accounts, contents: Contents) {
    accounts.Keys == contents.Keys && forall k :: k in accounts ==> Holds(accounts[k], contents[k])
  }

  lemma InstructionHolds(accounts: Accounts, contents: Contents, ix: Instruction, signers: set<Pubkey>)
    requires AllHold(accounts, contents) && Process(accounts, ix, signers).Some?
    ensures AllHold(Process(accounts, ix, signers).value, Noted(contents, ix))
  {
    match ix {
      case Write(idl, _, data) => WriteAppends(accounts[idl], contents[idl], data);
      case SetBuffer(buffer, idl, _) => BufferReplaces(accounts[idl], accounts[buffer], contents[buffer]);
      case Resize(idl, _, length, fill) =>
        assert Resized(accounts[idl], length, fill).value.trailing[..0] == accounts[idl].trailing[..0];
      case _ =>
    }
  }

  /** Over every run, each account's data fits it and its first bytes are exactly what was written. */
  lemma {:induction false} AccountsHoldContent(steps: seq<Step>)
    ensures AllHold(Run(steps), Content(steps))
    ensures forall k :: k in Run(steps) ==> HEADER + Run(steps)[k].dataLen <= Run(steps)[k].Size()
  {
    if steps != [] {
      var prefix, step := steps[..|steps| - 1], steps[|steps| - 1];
      AccountsHoldContent(prefix);
      if Process(Run(prefix), step.ix, step.signers).Some? {
        InstructionHolds(Run(prefix), Content(prefix), step.ix, step.signers);
      }
    }
    assert forall k :: k in Run(steps) ==> Holds(Run(steps)[k], Content(steps)[k]);
  }

  lemma WriteAppends(a: Account, content: Bytes, data: Bytes)
    requires Holds(a, content) && WrittenTo(a, data).Some?
    ensures Holds(WrittenTo(a, data).value, content + data)
    ensures WrittenTo(a, data).value.Size() == a.Size()
  {
    var after := WrittenTo(a, data).value;
    assert after.trailing[..after.dataLen] == a.trailing[..a.dataLen] + data;
  }

  lemma BufferReplaces(a: Account, buffer: Account, content: Bytes)
    requires Holds(buffer, content) && Replaced(a, buffer).Some?
    ensures Holds(Replaced(a, buffer).value, content)
    ensures Replaced(a, buffer).value.Size() == a.Size()
  {
    var after := Replaced(a, buffer).value;
    assert after.trailing[..after.dataLen] == buffer.trailing[..buffer.dataLen];
  }

  // ------------------------------------------------------------------ growing in steps

  function ResizedBy(a: Account, target: nat, fills: seq<Bytes>): Option<Account> {
    if fills == [] then Some(a)
    else
      match ResizedBy(a, target, fills[..|fills| - 1])
      case None => None
      case Some(b) => Resized(b, target, fills[|fills| - 1])
  }

  function CeilDiv(n: nat, d: nat): nat
    requires d > 0
  { (n + d - 1) / d }

  /** While nothing is written, each call grows the account by at most ten thousand bytes and never
      past the target: the target is reached by exactly the calls it takes, and no fewer. */
  lemma {:induction false} ResizingReachesTarget(a: Account, target: nat, fills: seq<Bytes>)
    requires a.dataLen == 0 && a.Size() <= target
    ensures ResizedBy(a, target, fills).Some?
    ensures var b := ResizedBy(a, target, fills).value;
            && b.dataLen == 0 && b.authority == a.authority && a.trailing <= b.trailing
            && b.Size() == Min(target, a.Size() + MAX_STEP * |fills|)
            && (b.Size() == target <==> |fills| >= CeilDiv(target - a.Size(), MAX_STEP))
  {
    if fills != [] {
      ResizingReachesTarget(a, target, fills[..|fills| - 1]);
    }
  }

  // ------------------------------------------------------------------ who can change what

  /** An existing account changes or disappears only with its authority's signature, and no
      instruction touches more than the one account it names for that. */
  lemma ChangesNeedAuthority(accounts: Accounts, ix: Instruction, signers: set<Pubkey>, j: Pubkey, k: Pubkey)
    requires Process(accounts, ix, signers).Some?
    ensures var after := Process(accounts, ix, signers).value;
            && (j in accounts && (j !in after || after[j] != accounts[j]) ==>
                  accounts[j].authority in signers && accounts[j].authority != ERASED_AUTHORITY)
            && (j in accounts && k in accounts && j != k ==>
                  (j in after && after[j] == accounts[j]) || (k in after && after[k] == accounts[k]))
  {
  }

  /** A created account has room for what was asked, up to ten thousand bytes in all, and starts empty. */
  lemma CreatedIsEmpty(authority: Pubkey, length: nat)
    requires length < U64_LIMIT
    ensures Created(authority, length).Some? <==> length + HEADER < U64_LIMIT
    ensures Created(authority, length).Some? ==>
              var a := Created(authority, length).value;
              a.authority == authority && Holds(a, []) && a.Size() == Min(HEADER + length, MAX_STEP)
  {
  }

  /** What a run has written into an account. */
  function ContentOf(steps: seq<Step>, k: Pubkey): Bytes {
    if k in Content(steps) then Content(steps)[k] else []
  }

  lemma LengthsInRuns(steps: seq<Step>, k: Pubkey)
    requires k in Run(steps)
    ensures k in Content(steps) && Holds(Run(steps)[k], ContentOf(steps, k))
  {
    AccountsHoldContent(steps);
    assert Holds(Run(steps)[k], Content(steps)[k]);
  }

  /** After any run, a write succeeds exactly when the account's authority has signed it and the
      content and the new data fit the account and a 32-bit length; then it appends the data and leaves
      the bytes beyond alone. */
  lemma WritesInRuns(steps: seq<Step>, idl: Pubkey, authority: Pubkey, data: Bytes, signers: set<Pubkey>)
    ensures var ix := Write(idl, authority, data); var length := |ContentOf(steps, idl)| + |data|;
            && (Process(Run(steps), ix, signers).Some? <==>
                  Authorized(Run(steps), idl, authority, signers)
                  && length < U32_LIMIT && HEADER + length <= Run(steps)[idl].Size())
            && (Process(Run(steps), ix, signers).Some? ==>
                  var more := steps + [Step(ix, signers)];
                  && ContentOf(more, idl) == ContentOf(steps, idl) + data
                  && idl in Run(more) && Run(more)[idl].Size() == Run(steps)[idl].Size()
                  && Run(more)[idl].trailing[length..] == Run(steps)[idl].trailing[length..]
                  && Run(more)[idl].authority == authority && Run(more) - {idl} == Run(steps) - {idl})
  {
    if idl in Run(steps) { LengthsInRuns(steps, idl); }
    assert (steps + [Step(Write(idl, authority, data), signers)])[..|steps|] == steps;
  }

  /** After any run, the authority can be handed on exactly by the one who has it; from then on exactly
      the new one can act on the account, which otherwise stays as it was, as do all others. */
  lemma HandoverInRuns(steps: seq<Step>, idl: Pubkey, authority: Pubkey, next: Pubkey, signers: set<Pubkey>,
                       who: Pubkey, others: set<Pubkey>)
    ensures var ix := SetAuthority(idl, authority, next); var more := steps + [Step(ix, signers)];
            && (Process(Run(steps), ix, signers).Some? <==> Authorized(Run(steps), idl, authority, signers))
            && (Process(Run(steps), ix, signers).Some? ==>
                  && Run(more).Keys == Run(steps).Keys && Run(more) - {idl} == Run(steps) - {idl}
                  && Run(more)[idl].dataLen == Run(steps)[idl].dataLen
                  && Run(more)[idl].trailing == Run(steps)[idl].trailing
                  && (Authorized(Run(more), idl, who, others) <==>
                        who == next && next in others && next != ERASED_AUTHORITY))
  {
    assert (steps + [Step(SetAuthority(idl, authority, next), signers)])[..|steps|] == steps;
  }

  /** After any run, a buffer can be made exactly out of an unused account that holds at least a header,
      by an authority that is not the erased one and has signed; it starts without content. */
  lemma BufferCreationInRuns(steps: seq<Step>, buffer: Pubkey, authority: Pubkey, size: nat, signers: set<Pubkey>)
    ensures var ix := CreateBuffer(buffer, authority, size); var more := steps + [Step(ix, signers)];
            && (Process(Run(steps), ix, signers).Some? <==>
                  buffer !in Content(steps) && size >= 44 && authority in signers && authority != ERASED_AUTHORITY)
            && (Process(Run(steps), ix, signers).Some? ==>
                  && Run(more).Keys == Run(steps).Keys + {buffer} && Run(more) - {buffer} == Run(steps)
                  && ContentOf(more, buffer) == []
                  && Run(more)[buffer].authority == authority && Run(more)[buffer].Size() == size)
  {
    AccountsHoldContent(steps);
    assert (steps + [Step(CreateBuffer(buffer, authority, size), signers)])[..|steps|] == steps;
  }

  /** After any run, an account is closed exactly by its authority and not into itself; it is gone and
      the others stay. */
  lemma ClosingInRuns(steps: seq<Step>, k: Pubkey, authority: Pubkey, destination: Pubkey, signers: set<Pubkey>)
    ensures var ix := CloseAccount(k, authority, destination); var more := steps + [Step(ix, signers)];
            && (Process(Run(steps), ix, signers).Some? <==>
                  Authorized(Run(steps), k, authority, signers) && k != destination)
            && (Process(Run(steps), ix, signers).Some? ==>
                  k !in Run(more) && k !in Content(more) && Run(more) == Run(steps) - {k})
  {
    assert (steps + [Step(CloseAccount(k, authority, destination), signers)])[..|steps|] == steps;
  }

  /** An account whose authority is erased stays as it is for ever. */
  lemma {:induction false} ErasedStays(steps: seq<Step>, later: seq<Step>, k: Pubkey)
    requires k in Run(steps) && Run(steps)[k].authority == ERASED_AUTHORITY
    ensures k in Run(steps + later) && Run(steps + later)[k] == Run(steps)[k]
  {
    if later == [] {
      assert steps + later == steps;
    } else {
      var fewer, last := later[..|later| - 1], later[|later| - 1];
      DropLastOfConcat(steps, later);
      ErasedStays(steps, fewer, k);
      if Process(Run(steps + fewer), last.ix, last.signers).Some? {
        ChangesNeedAuthority(Run(steps + fewer), last.ix, last.signers, k, k);
      }
    }
  }

  /** After any run, an account can be resized exactly by its authority, to no less than its size, and
      only while nothing has been written; it grows toward that by at most ten thousand bytes, what it
      holds stays, and the grown part holds what it happens to. */
  lemma ResizesInRuns(steps: seq<Step>, idl: Pubkey, authority: Pubkey, length: nat, fill: Bytes, signers: set<Pubkey>)
    ensures var ix := Resize(idl, authority, length, fill); var more := steps + [Step(ix, signers)];
            && (Process(Run(steps), ix, signers).Some? <==>
                  Authorized(Run(steps), idl, authority, signers)
                  && ContentOf(steps, idl) == [] && Run(steps)[idl].Size() <= length)
            && (Process(Run(steps), ix, signers).Some? ==>
                  && idl in Run(more) && Run(more) - {idl} == Run(steps) - {idl}
                  && Run(more)[idl].authority == authority && ContentOf(more, idl) == []
                  && Run(more)[idl].Size() == Min(length, Run(steps)[idl].Size() + MAX_STEP)
                  && Run(steps)[idl].trailing <= Run(more)[idl].trailing
                  && (|fill| == Run(more)[idl].Size() - Run(steps)[idl].Size() ==>
                        Run(more)[idl].trailing == Run(steps)[idl].trailing + fill))
  {
    if idl in Run(steps) { LengthsInRuns(steps, idl); }
    assert (steps + [Step(Resize(idl, authority, length, fill), signers)])[..|steps|] == steps;
  }

  /** After any run, another account's content can be copied over exactly when one authority has
      signed for both and the content fits; then it is this account's content, and the bytes beyond
      stay. */
  lemma CopiesInRuns(steps: seq<Step>, buffer: Pubkey, idl: Pubkey, authority: Pubkey, signers: set<Pubkey>)
    ensures var ix := SetBuffer(buffer, idl, authority);
            && (Process(Run(steps), ix, signers).Some? <==>
                  Authorized(Run(steps), idl, authority, signers) && Authorized(Run(steps), buffer, authority, signers)
                  && buffer != idl && HEADER + |ContentOf(steps, buffer)| <= Run(steps)[idl].Size())
            && (Process(Run(steps), ix, signers).Some? ==>
                  var more := steps + [Step(ix, signers)]; var length := |ContentOf(steps, buffer)|;
                  && ContentOf(more, idl) == ContentOf(steps, buffer)
                  && idl in Run(more) && Run(more)[idl].Size() == Run(steps)[idl].Size()
                  && Run(more)[idl].trailing[length..] == Run(steps)[idl].trailing[length..]
                  && Run(more)[idl].authority == authority && Run(more) - {idl} == Run(steps) - {idl})
  {
    if idl in Run(steps) { LengthsInRuns(steps, idl); }
    if buffer in Run(steps) { LengthsInRuns(steps, buffer); }
    assert (steps + [Step(SetBuffer(buffer, idl, authority), signers)])[..|steps|] == steps;
  }

  /** After any run, an account can be created where there is none, with its payer's signature, and
      starts without content in the size asked for, up to ten thousand bytes. */
  lemma CreationInRuns(steps: seq<Step>, to: Pubkey, payer: Pubkey, length: nat, signers: set<Pubkey>)
    requires length < U64_LIMIT
    ensures var ix := Create(to, payer, length); var more := steps + [Step(ix, signers)];
            && (Process(Run(steps), ix, signers).Some? <==>
                  payer in signers && to !in Content(steps) && HEADER + length < U64_LIMIT)
            && (Process(Run(steps), ix, signers).Some? ==>
                  && to in Run(more) && Content(more) == Content(steps)[to := []]
                  && Run(more)[to].authority == payer && Run(more)[to].Size() == Min(HEADER + length, MAX_STEP)
                  && Run(more) - {to} == Run(steps))
  {
    AccountsHoldContent(steps);
    var more := steps + [Step(Create(to, payer, length), signers)];
    assert more[..|steps|] == steps;
    CreatedIsEmpty(payer, length);
  }
}
