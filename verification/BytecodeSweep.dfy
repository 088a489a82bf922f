/** Finding a contract's callable functions by sweeping its bytecode, one instruction at a time. */
module BytecodeSweep {
  import opened Common

  const PUSH1: Byte := 0x60
  const PUSH2: Byte := 0x61
  const PUSH4: Byte := 0x63
  const PUSH32: Byte := 0x7f
  const EQ: Byte := 0x14
  const JUMPI: Byte := 0x57

  /** How many bytes an opcode takes from the code after it. */
  function Immediate(op: Byte): nat {
    if PUSH1 <= op <= PUSH32 then op - PUSH1 + 1 else 0
  }

  /** Section 9.4.3 of the Yellow Paper: the first byte is an instruction, and so is the byte after
      each instruction's immediate. */
  predicate Boundary(raw: Bytes, i: nat)
    decreases i
  {
    i == 0 || exists j :: 0 <= j < i && j < |raw| && Boundary(raw, j) && j + 1 + Immediate(raw[j]) == i
  }

  /** Whether the opcode occurs in the next few bytes; false too near the end. */
  predicate PeekFuture(raw: Bytes, op: Byte, count: nat, offset: nat) {
    offset + count < |raw| && op in raw[offset..offset + count]
  }

  method Peek(raw: Bytes, op: Byte, count: nat, offset: nat) returns (found: bool)
    ensures found == PeekFuture(raw, op, count, offset)
  {
    if offset + count >= |raw| { return false; }
    var i := 0;
    while i < count
      invariant i <= count && op !in raw[offset..offset + i]
    {
      if raw[offset + i] == op { return true; }
      i := i + 1;
    }
    found := false;
  }

  /** A PUSH4 that something soon compares and jumps on. */
  predicate Dispatches(raw: Bytes, i: nat)
    ensures Dispatches(raw, i) ==> i + 10 < |raw|
  {
    && i < |raw| && raw[i] == PUSH4
    && PeekFuture(raw, EQ, 2, i + 4) && PeekFuture(raw, PUSH2, 3, i + 4) && PeekFuture(raw, JUMPI, 6, i + 4)
  }

  function Selector(raw: Bytes, i: nat): Bytes
    requires i + 5 <= |raw|
  { raw[i + 1..i + 5] }

  function Next(raw: Bytes, i: nat): nat
    requires i < |raw|
  { i + 1 + Immediate(raw[i]) }

  /** What the sweep reports from a position on. */
  function SelectorsFrom(raw: Bytes, i: nat): seq<Bytes>
    decreases |raw| - i
  {
    if i >= |raw| then []
    else (if Dispatches(raw, i) then [Selector(raw, i)] else []) + SelectorsFrom(raw, Next(raw, i))
  }

  method LooksLikeDispatch(raw: Bytes, i: nat) returns (yes: bool)
    requires i < |raw| && raw[i] == PUSH4
    ensures yes == Dispatches(raw, i)
  {
    yes := Peek(raw, EQ, 2, i + 4);
    if yes { yes := Peek(raw, PUSH2, 3, i + 4); }
    if yes { yes := Peek(raw, JUMPI, 6, i + 4); }
  }

  lemma SweepStep(raw: Bytes, i: nat, before: seq<Bytes>)
    requires i < |raw|
    ensures before + SelectorsFrom(raw, i) ==
            (if Dispatches(raw, i) then before + [Selector(raw, i)] else before) + SelectorsFrom(raw, Next(raw, i))
  {
  }

  /** The sweep: a loop that jumps over each immediate. */
  method ExtractCallableFuncs(raw: Bytes) returns (hashes: seq<Bytes>)
    ensures hashes == SelectorsFrom(raw, 0)
  {
    hashes := [];
    var i := 0;
    while i < |raw|
      invariant hashes + SelectorsFrom(raw, i) == SelectorsFrom(raw, 0)
      decreases |raw| - i
    {
      SweepStep(raw, i, hashes);
      var op := raw[i];
      if PUSH1 <= op <= PUSH32 {
        var want := op - PUSH1 + 1;
        if want == 4 {
          var found := LooksLikeDispatch(raw, i);
          if found {
            hashes := hashes + [Selector(raw, i)];
          }
        }
        i := i + want;
      }
      i := i + 1;
    }
  }

  /** Where the reported selectors stand. */
  function PositionsFrom(raw: Bytes, i: nat): (at: seq<nat>)
    ensures forall k :: 0 <= k < |at| ==> i <= at[k] && Dispatches(raw, at[k])
    ensures forall j, k :: 0 <= j < k < |at| ==> at[j] < at[k]
    decreases |raw| - i
  {
    if i >= |raw| then []
    else (if Dispatches(raw, i) then [i] else []) + PositionsFrom(raw, Next(raw, i))
  }

  lemma {:induction false} SelectorsStandAt(raw: Bytes, i: nat)
    ensures var at := PositionsFrom(raw, i);
            && |SelectorsFrom(raw, i)| == |at|
            && forall k :: 0 <= k < |at| ==> SelectorsFrom(raw, i)[k] == Selector(raw, at[k])
    decreases |raw| - i
  {
    if i < |raw| { SelectorsStandAt(raw, Next(raw, i)); }
  }

  // ------------------------------------------------------------------ what the sweep finds

  lemma PositionsStep(raw: Bytes, i: nat, p: nat)
    requires i < |raw|
    ensures p in PositionsFrom(raw, i) <==> (p == i && Dispatches(raw, i)) || p in PositionsFrom(raw, Next(raw, i))
  {
  }

  /** Past a boundary the next one is the following instruction. */
  lemma BoundaryStep(raw: Bytes, i: nat, p: nat)
    requires i < |raw| && Boundary(raw, i)
    ensures p >= i && Boundary(raw, p) <==> p == i || (p >= Next(raw, i) && Boundary(raw, p))
  {
    if i < p && Boundary(raw, p) { BoundariesOrdered(raw, i, p); }
  }

  /** Whatever is reported past a boundary stands at a boundary, and all dispatching boundaries are. */
  lemma {:induction false} PositionsAreBoundaries(raw: Bytes, i: nat, p: nat)
    requires Boundary(raw, i)
    ensures p in PositionsFrom(raw, i) <==> p >= i && Boundary(raw, p) && Dispatches(raw, p)
    decreases |raw| - i
  {
    if i < |raw| {
      BoundaryNext(raw, i);
      PositionsAreBoundaries(raw, Next(raw, i), p);
      PositionsStep(raw, i, p);
      BoundaryStep(raw, i, p);
    }
  }

  lemma BoundaryNext(raw: Bytes, i: nat)
    requires Boundary(raw, i) && i < |raw|
    ensures Boundary(raw, Next(raw, i))
  {
  }

  /** Of two instructions, the earlier ends before the later begins. */
  lemma {:induction false} BoundariesOrdered(raw: Bytes, j: nat, i: nat)
    requires j < i && j < |raw| && Boundary(raw, j) && Boundary(raw, i)
    ensures j + 1 + Immediate(raw[j]) <= i
    decreases i
  {
    var h :| 0 <= h < i && h < |raw| && Boundary(raw, h) && h + 1 + Immediate(raw[h]) == i;
    if h < j {
      BoundariesOrdered(raw, h, j);
    } else if j < h {
      BoundariesOrdered(raw, j, h);
    }
  }

  /** Where the next instruction stands: after PUSH1 to PUSH32 come as many bytes as the name says, and
      after any other opcode the next instruction. */
  lemma NextInstruction(raw: Bytes, i: nat, p: nat)
    requires Boundary(raw, i) && i < |raw|
    ensures var width := if 0x60 <= raw[i] <= 0x7f then raw[i] - 0x5f else 0;
            Boundary(raw, i + 1 + width) && (i < p < i + 1 + width ==> !Boundary(raw, p))
  {
    BoundaryNext(raw, i);
    if i < p && Boundary(raw, p) { BoundariesOrdered(raw, i, p); }
  }

  /** The code is at least ten bytes longer, the bytes after the immediate are looked through for EQ
      (two of them), PUSH2 (three) and JUMPI (six), starting at the immediate's last byte. */
  lemma DispatchBytes(raw: Bytes, i: nat)
    ensures Dispatches(raw, i) <==>
            && i + 10 < |raw| && raw[i] == 0x63
            && (raw[i + 4] == 0x14 || raw[i + 5] == 0x14)
            && (raw[i + 4] == 0x61 || raw[i + 5] == 0x61 || raw[i + 6] == 0x61)
            && exists p :: i + 4 <= p < i + 10 && raw[p] == 0x57
  {
    if i + 10 < |raw| {
      WithinTwo(raw, 0x14, i + 4);
      WithinThree(raw, 0x61, i + 4);
      if p :| i + 4 <= p < i + 10 && raw[p] == 0x57 { assert raw[i + 4..i + 10][p - (i + 4)] == 0x57; }
      if 0x57 in raw[i + 4..i + 10] {
        var k :| 0 <= k < 6 && raw[i + 4..i + 10][k] == 0x57;
        assert raw[i + 4 + k] == 0x57;
      }
    }
  }

  lemma WithinTwo(raw: Bytes, op: Byte, i: nat)
    requires i + 2 <= |raw|
    ensures op in raw[i..i + 2] <==> raw[i] == op || raw[i + 1] == op
  {
    assert raw[i..i + 2] == [raw[i], raw[i + 1]];
  }

  lemma WithinThree(raw: Bytes, op: Byte, i: nat)
    requires i + 3 <= |raw|
    ensures op in raw[i..i + 3] <==> raw[i] == op || raw[i + 1] == op || raw[i + 2] == op
  {
    assert raw[i..i + 3] == [raw[i], raw[i + 1], raw[i + 2]];
  }

  /** The reported selectors are, in code order, the four-byte immediates of exactly the PUSH4
      instructions that are followed soon by EQ, PUSH2 and JUMPI. */
  lemma SweepReportsDispatchers(raw: Bytes)
    ensures var at := PositionsFrom(raw, 0); var found := SelectorsFrom(raw, 0);
            && (forall p: nat :: p in at <==> Boundary(raw, p) && Dispatches(raw, p))
            && (forall j, k :: 0 <= j < k < |at| ==> at[j] < at[k])
            && |found| == |at| && (forall k :: 0 <= k < |at| ==> found[k] == raw[at[k] + 1..at[k] + 5])
  {
    SelectorsStandAt(raw, 0);
    forall p: nat ensures p in PositionsFrom(raw, 0) <==> Boundary(raw, p) && Dispatches(raw, p) {
      PositionsAreBoundaries(raw, 0, p);
    }
  }

  /** A dispatcher entry as compilers emit it: PUSH4 s EQ PUSH2 d JUMPI. */
  predicate StandardEntry(raw: Bytes, i: nat) {
    i + 10 <= |raw| && raw[i] == PUSH4 && raw[i + 5] == EQ && raw[i + 6] == PUSH2 && raw[i + 9] == JUMPI
  }

  /** A standard entry at an instruction boundary is found exactly when some byte follows it: one
      that ends the code is missed. */
  lemma StandardEntriesFound(raw: Bytes, i: nat)
    requires Boundary(raw, i) && StandardEntry(raw, i)
    ensures i in PositionsFrom(raw, 0) <==> i + 10 < |raw|
  {
    PositionsAreBoundaries(raw, 0, i);
    if i + 10 < |raw| {
      assert raw[i + 4..i + 6][1] == EQ && raw[i + 4..i + 7][2] == PUSH2 && raw[i + 4..i + 10][5] == JUMPI;
    }
  }
}
