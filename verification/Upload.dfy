/** Uploading program data in chunks whose writes may complete in any order. */
module Upload {
  import opened Common

  const CHUNK: nat := 900

  /** A loader write; its offset has 32 bits. */
  datatype Write = Write(offset: nat, bytes: Bytes)

  /** The chunk that starts at a position. */
  function ChunkAt(data: Bytes, offset: nat): Bytes
    requires offset <= |data|
  { data[offset..Min(offset + CHUNK, |data|)] }

  function PlanFrom(data: Bytes, offset: nat): seq<Write>
    decreases |data| - offset
  {
    if offset >= |data| then []
    else [Write(offset % U32_LIMIT, ChunkAt(data, offset))] + PlanFrom(data, offset + |ChunkAt(data, offset)|)
  }

  /** The loop that turns the data into writes. */
  method Plan(data: Bytes) returns (writes: seq<Write>)
    ensures writes == PlanFrom(data, 0)
  {
    writes := [];
    var offset := 0;
    while offset < |data|
      invariant offset <= |data| && writes + PlanFrom(data, offset) == PlanFrom(data, 0)
    {
      var chunk := data[offset..Min(offset + CHUNK, |data|)];
      writes := writes + [Write(offset % U32_LIMIT, chunk)];
      offset := offset + |chunk|;
    }
  }

  // ------------------------------------------------------------------ the account

  /** A write past the end of the account fails. */
  function Apply(account: Bytes, w: Write): Option<Bytes> {
    var end := w.offset + |w.bytes|;
    if end > |account| then None else Some(account[..w.offset] + w.bytes + account[end..])
  }

  function ApplyAll(account: Bytes, writes: seq<Write>): Option<Bytes> {
    if writes == [] then Some(account)
    else
      match ApplyAll(account, writes[..|writes| - 1])
      case None => None
      case Some(before) => Apply(before, writes[|writes| - 1])
  }

  method WriteInto(account: array<Byte>, w: Write) returns (ok: bool)
    modifies account
    ensures ok == Apply(old(account[..]), w).Some?
    ensures account[..] == if ok then Apply(old(account[..]), w).value else old(account[..])
  {
    if w.offset + |w.bytes| > account.Length { return false; }
    var i := 0;
    while i < |w.bytes|
      invariant i <= |w.bytes|
      invariant account[..] == old(account[..w.offset]) + w.bytes[..i] + old(account[w.offset + i..])
    {
      account[w.offset + i] := w.bytes[i];
      i := i + 1;
    }
    assert w.bytes[..|w.bytes|] == w.bytes;
    ok := true;
  }

  /** Creates the account and performs the writes in the given order. */
  method Upload(size: nat, order: seq<Write>) returns (account: array<Byte>, ok: bool)
    ensures account.Length == size && ok == ApplyAll(Zeros(size), order).Some?
    ensures ok ==> account[..] == ApplyAll(Zeros(size), order).value
  {
    account := new Byte[size](_ => 0);
    assert account[..] == Zeros(size);
    var i := 0;
    while i < |order|
      invariant i <= |order| && fresh(account) && account.Length == size
      invariant ApplyAll(Zeros(size), order[..i]) == Some(account[..])
    {
      assert order[..i + 1][..i] == order[..i];
      ok := WriteInto(account, order[i]);
      if !ok {
        FailureStays(Zeros(size), order, i);
        return;
      }
      i := i + 1;
    }
    assert order[..|order|] == order;
    ok := true;
  }

  lemma {:induction false} FailureStays(account: Bytes, writes: seq<Write>, i: nat)
    requires i < |writes| && ApplyAll(account, writes[..i + 1]).None?
    ensures ApplyAll(account, writes).None?
  {
    if i + 1 < |writes| {
      assert writes[..|writes| - 1][..i + 1] == writes[..i + 1];
      FailureStays(account, writes[..|writes| - 1], i);
    } else {
      assert writes[..i + 1] == writes;
    }
  }

  // ------------------------------------------------------------------ tiling

  /** The longest data whose chunk offsets all fit in 32 bits. */
  const LONGEST: nat := 4_294_967_400

  function PlanLength(n: nat): nat { (n + CHUNK - 1) / CHUNK }

  /** The writes are the consecutive pieces of at most 900 bytes. */
  lemma PlanTiles(data: Bytes)
    ensures var plan := PlanFrom(data, 0);
            && |plan| == PlanLength(|data|)
            && forall k :: 0 <= k < |plan| ==>
                 && CHUNK * k < |data| && plan[k].offset == CHUNK * k % U32_LIMIT
                 && plan[k].bytes == ChunkAt(data, CHUNK * k) && 0 < |plan[k].bytes| <= CHUNK
  {
    PlanPieces(data, 0);
  }

  /** Their offsets are true, and so tile the data, exactly when the data is no longer than LONGEST. */
  lemma OffsetsTrue(data: Bytes)
    ensures (forall k :: 0 <= k < |PlanFrom(data, 0)| ==> PlanFrom(data, 0)[k].offset == CHUNK * k) <==>
              |data| <= LONGEST
  {
    PlanTiles(data);
    var plan := PlanFrom(data, 0);
    if |data| > LONGEST {
      var k := LONGEST / CHUNK;
      assert k < |plan|;
      assert plan[k].offset == CHUNK * k % U32_LIMIT != CHUNK * k;
    } else {
      forall k | 0 <= k < |plan| ensures plan[k].offset == CHUNK * k {
        assert CHUNK * k < U32_LIMIT;
      }
    }
  }

  lemma {:induction false} PlanPieces(data: Bytes, start: nat)
    requires CHUNK * start < |data| + CHUNK
    ensures var offset := Min(CHUNK * start, |data|); var plan := PlanFrom(data, offset);
            && |plan| + start == PlanLength(|data|)
            && forall k :: 0 <= k < |plan| ==>
                 && CHUNK * (start + k) < |data|
                 && plan[k] == Write(CHUNK * (start + k) % U32_LIMIT, ChunkAt(data, CHUNK * (start + k)))
    decreases |data| + CHUNK - CHUNK * start
  {
    if CHUNK * start < |data| {
      PlanPieces(data, start + 1);
      var plan, rest := PlanFrom(data, CHUNK * start), PlanFrom(data, Min(CHUNK * (start + 1), |data|));
      assert plan == [Write(CHUNK * start % U32_LIMIT, ChunkAt(data, CHUNK * start))] + rest;
      forall k | 0 <= k < |plan|
        ensures CHUNK * (start + k) < |data|
             && plan[k] == Write(CHUNK * (start + k) % U32_LIMIT, ChunkAt(data, CHUNK * (start + k)))
      {
        if k > 0 { assert plan[k] == rest[k - 1] && start + k == start + 1 + (k - 1); }
      }
    }
  }

  // ------------------------------------------------------------------ any order

  /** The write carries the data's own bytes at its offset. */
  predicate Tile(data: Bytes, w: Write) {
    w.offset + |w.bytes| <= |data| && w.bytes == data[w.offset..w.offset + |w.bytes|]
  }

  predicate Reaches(w: Write, i: nat) { w.offset <= i < w.offset + |w.bytes| }

  ghost predicate Reached(writes: seq<Write>, i: nat) {
    exists k :: 0 <= k < |writes| && Reaches(writes[k], i)
  }

  /** After some true writes, in any order and however often, the account shows the data wherever one reached. */
  lemma {:induction false} TilesShowData(data: Bytes, writes: seq<Write>)
    requires forall k :: 0 <= k < |writes| ==> Tile(data, writes[k])
    ensures ApplyAll(Zeros(|data|), writes).Some?
    ensures var account := ApplyAll(Zeros(|data|), writes).value;
            && |account| == |data|
            && forall i :: 0 <= i < |data| ==> account[i] == if Reached(writes, i) then data[i] else 0
  {
    if writes != [] {
      var n := |writes| - 1;
      var before := writes[..n];
      TilesShowData(data, before);
      var account := ApplyAll(Zeros(|data|), writes).value;
      forall i | 0 <= i < |data| ensures account[i] == if Reached(writes, i) then data[i] else 0 {
        assert Reached(writes, i) <==> Reached(before, i) || Reaches(writes[n], i) by {
          if k :| 0 <= k < |before| && Reaches(before[k], i) { assert writes[k] == before[k]; }
          if k :| 0 <= k < |writes| && Reaches(writes[k], i) { if k < n { assert before[k] == writes[k]; } }
        }
      }
    }
  }

  /** Whatever order the planned writes complete in, and even if some are repeated, the account ends
      up holding the data; so the sequential upload and the unordered one agree. */
  lemma AnyOrderUploads(data: Bytes, order: seq<Write>)
    requires |data| <= LONGEST
    requires forall w :: w in order <==> w in PlanFrom(data, 0)
    ensures ApplyAll(Zeros(|data|), order) == Some(data)
    ensures ApplyAll(Zeros(|data|), PlanFrom(data, 0)) == Some(data)
  {
    OrderUploads(data, order);
    OrderUploads(data, PlanFrom(data, 0));
  }

  lemma OrderUploads(data: Bytes, order: seq<Write>)
    requires |data| <= LONGEST
    requires forall w :: w in order <==> w in PlanFrom(data, 0)
    ensures ApplyAll(Zeros(|data|), order) == Some(data)
  {
    var plan := PlanFrom(data, 0);
    PlanTiles(data);
    OffsetsTrue(data);
    forall k | 0 <= k < |order| ensures Tile(data, order[k]) {
      assert order[k] in plan;
      var j :| 0 <= j < |plan| && plan[j] == order[k];
      assert plan[j].offset == CHUNK * j;
    }
    TilesShowData(data, order);
    forall i | 0 <= i < |data| ensures Reached(order, i) {
      var j := i / CHUNK;
      assert j < |plan|;
      assert plan[j].offset == CHUNK * j && Reaches(plan[j], i);
      assert plan[j] in order;
      var k :| 0 <= k < |order| && order[k] == plan[j];
    }
    assert ApplyAll(Zeros(|data|), order).value == data;
  }
}
