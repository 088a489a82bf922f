/** The collector's histogram: each heartbeat record adds one, and its cores, to every time bucket it
    covers, counting back from its timestamp. */
module Heartbeats {
  import opened MapSum

  const TIME_SKIP: int := 100

  datatype Record = Record(timestamp: int, lasting: int, cores: int)

  /** The bucket of a time; the quotient is cut off toward zero. */
  function CapTime(t: int): int {
    if t >= 0 then t / TIME_SKIP * TIME_SKIP else -(-t / TIME_SKIP * TIME_SKIP)
  }

  /** A bucket starts at a multiple of the step, less than one step from the time, toward zero. */
  lemma CapTimeStartsBucket(t: int)
    ensures CapTime(t) % TIME_SKIP == 0
    ensures t >= 0 ==> CapTime(t) <= t < CapTime(t) + TIME_SKIP
    ensures t < 0 ==> CapTime(t) - TIME_SKIP < t <= CapTime(t)
  {
    assert t < 0 ==> -(-t / TIME_SKIP * TIME_SKIP) == (-(-t / TIME_SKIP)) * TIME_SKIP;
  }

  function CeilDiv(n: int): nat { if n <= 0 then 0 else (n + TIME_SKIP - 1) / TIME_SKIP }

  /** The bucket lies within the record's duration before its timestamp's bucket. */
  predicate Covers(r: Record, bucket: int) {
    0 <= CapTime(r.timestamp) - bucket < r.lasting && (CapTime(r.timestamp) - bucket) % TIME_SKIP == 0
  }

  function Covering(records: seq<Record>, bucket: int): nat {
    if records == [] then 0
    else Covering(records[..|records| - 1], bucket) + if Covers(records[|records| - 1], bucket) then 1 else 0
  }

  function CoresCovering(records: seq<Record>, bucket: int): int {
    if records == [] then 0
    else CoresCovering(records[..|records| - 1], bucket)
         + if Covers(records[|records| - 1], bucket) then records[|records| - 1].cores else 0
  }

  /** The count is of the records that cover the bucket. */
  function CoveredBy(records: seq<Record>, bucket: int): set<nat> {
    set i: nat | i < |records| && Covers(records[i], bucket)
  }

  lemma CoveredByLast(records: seq<Record>, bucket: int)
    requires records != []
    ensures var last := |records| - 1;
            && last !in CoveredBy(records[..last], bucket)
            && CoveredBy(records, bucket)
               == CoveredBy(records[..last], bucket) + if Covers(records[last], bucket) then {last} else {}
  {
  }

  lemma {:induction false} CoveringCounts(records: seq<Record>, bucket: int)
    ensures Covering(records, bucket) == |CoveredBy(records, bucket)|
  {
    if records != [] {
      CoveringCounts(records[..|records| - 1], bucket);
      CoveredByLast(records, bucket);
    }
  }

  /** The cores add up record by record. */
  lemma {:induction false} CoresAddUp(records: seq<Record>, more: seq<Record>, bucket: int)
    ensures CoresCovering(records + more, bucket) == CoresCovering(records, bucket) + CoresCovering(more, bucket)
    ensures forall r :: more == [r] ==> CoresCovering(more, bucket) == if Covers(r, bucket) then r.cores else 0
  {
    if more == [] {
      assert records + more == records;
    } else {
      assert (records + more)[..|records| + |more| - 1] == records + more[..|more| - 1];
      CoresAddUp(records, more[..|more| - 1], bucket);
      if |more| == 1 { assert more[..0] == []; }
    }
  }

  function BucketCount(records: seq<Record>): nat {
    if records == [] then 0 else BucketCount(records[..|records| - 1]) + CeilDiv(records[|records| - 1].lasting)
  }

  function CoreCount(records: seq<Record>): int {
    if records == [] then 0
    else CoreCount(records[..|records| - 1]) + records[|records| - 1].cores * CeilDiv(records[|records| - 1].lasting)
  }

  type Histogram = map<int, int>

  function At(h: Histogram, bucket: int): int { if bucket in h then h[bucket] else 0 }

  /** The buckets covered by a record's first steps. */
  predicate CoversBefore(r: Record, j: int, bucket: int) {
    0 <= CapTime(r.timestamp) - bucket < j && (CapTime(r.timestamp) - bucket) % TIME_SKIP == 0
  }

  lemma NextBucket(r: Record, j: int, bucket: int)
    requires j % TIME_SKIP == 0 && j >= 0
    ensures CoversBefore(r, j + TIME_SKIP, bucket) <==> CoversBefore(r, j, bucket) || bucket == CapTime(r.timestamp) - j
  {
  }

  /** A step past the duration covers no bucket that the duration does not. */
  lemma LastBucket(r: Record, j: int, bucket: int)
    requires j % TIME_SKIP == 0 && r.lasting <= j && (j == 0 || j < r.lasting + TIME_SKIP)
    ensures CoversBefore(r, j, bucket) <==> Covers(r, bucket)
  {
  }

  /** The table has gained the weight in each bucket that the record's first steps cover. */
  ghost predicate Gained(r: Record, j: int, before: Histogram, after: Histogram, weight: int) {
    CellsGained(r, j, before, after, weight) && Sum(after) == Sum(before) + weight * (j / TIME_SKIP)
  }

  ghost predicate CellsGained(r: Record, j: int, before: Histogram, after: Histogram, weight: int) {
    && (forall b :: At(after, b) == At(before, b) + if CoversBefore(r, j, b) then weight else 0)
    && (forall b :: b in after <==> b in before || CoversBefore(r, j, b))
  }

  lemma NextCell(r: Record, j: int, before: Histogram, after: Histogram, weight: int)
    requires Along(r, j) && CellsGained(r, j, before, after, weight)
    ensures var bucket := CapTime(r.timestamp) - j;
            CellsGained(r, j + TIME_SKIP, before, after[bucket := At(after, bucket) + weight], weight)
  {
    var bucket := CapTime(r.timestamp) - j;
    forall b ensures CoversBefore(r, j + TIME_SKIP, b) <==> CoversBefore(r, j, b) || b == bucket {
      NextBucket(r, j, b);
    }
    assert !CoversBefore(r, j, bucket);
  }

  /** The table has gained the weight in each bucket that the record covers. */
  ghost predicate Added(r: Record, before: Histogram, after: Histogram, weight: int) {
    && (forall b :: At(after, b) == At(before, b) + if Covers(r, b) then weight else 0)
    && (forall b :: b in after <==> b in before || Covers(r, b))
    && Sum(after) == Sum(before) + weight * CeilDiv(r.lasting)
  }

  /** How far the loop over a record gets. */
  predicate Along(r: Record, j: int) {
    j >= 0 && j % TIME_SKIP == 0 && (j == 0 || j < r.lasting + TIME_SKIP)
  }

  lemma NothingGained(r: Record, before: Histogram, weight: int)
    ensures Along(r, 0) && Gained(r, 0, before, before, weight)
  {
  }

  lemma NextGains(r: Record, j: int, before: Histogram, after: Histogram, weight: int)
    requires Along(r, j) && j < r.lasting && Gained(r, j, before, after, weight)
    ensures var bucket := CapTime(r.timestamp) - j;
            Gained(r, j + TIME_SKIP, before, after[bucket := At(after, bucket) + weight], weight)
    ensures Along(r, j + TIME_SKIP)
  {
    var bucket := CapTime(r.timestamp) - j;
    SumUpdate(after, bucket, At(after, bucket) + weight);
    NextCell(r, j, before, after, weight);
    MoreWeight(weight, j);
  }

  lemma MoreWeight(weight: int, j: int)
    ensures weight * ((j + TIME_SKIP) / TIME_SKIP) == weight * (j / TIME_SKIP) + weight
  {
    assert (j + TIME_SKIP) / TIME_SKIP == j / TIME_SKIP + 1;
  }

  lemma AllGained(r: Record, j: int, before: Histogram, after: Histogram, weight: int)
    requires Along(r, j) && r.lasting <= j && Gained(r, j, before, after, weight)
    ensures Added(r, before, after, weight)
  {
    forall b ensures CoversBefore(r, j, b) <==> Covers(r, b) { LastBucket(r, j, b); }
    assert CeilDiv(r.lasting) == j / TIME_SKIP;
  }

  /** Both tables after the loop's first steps. */
  ghost predicate BothGained(r: Record, j: int, h0: Histogram, h: Histogram, c0: Histogram, c: Histogram) {
    Gained(r, j, h0, h, 1) && Gained(r, j, c0, c, r.cores)
  }

  lemma BothNext(r: Record, j: int, h0: Histogram, h: Histogram, c0: Histogram, c: Histogram)
    requires Along(r, j) && j < r.lasting && BothGained(r, j, h0, h, c0, c)
    ensures var bucket := CapTime(r.timestamp) - j;
            BothGained(r, j + TIME_SKIP, h0, h[bucket := At(h, bucket) + 1], c0, c[bucket := At(c, bucket) + r.cores])
    ensures Along(r, j + TIME_SKIP)
  {
    NextGains(r, j, h0, h, 1);
    NextGains(r, j, c0, c, r.cores);
  }

  /** The nested loops that fill the two tables. */
  method Collect(records: seq<Record>) returns (heartbeats: Histogram, comp: Histogram)
    ensures forall b :: At(heartbeats, b) == Covering(records, b) && At(comp, b) == CoresCovering(records, b)
    ensures forall b :: (b in heartbeats <==> Covering(records, b) > 0) && (b in comp <==> b in heartbeats)
    ensures Sum(heartbeats) == BucketCount(records) && Sum(comp) == CoreCount(records)
  {
    heartbeats, comp := map[], map[];
    var i := 0;
    while i < |records|
      invariant i <= |records|
      invariant forall b :: At(heartbeats, b) == Covering(records[..i], b)
      invariant forall b :: At(comp, b) == CoresCovering(records[..i], b)
      invariant forall b :: (b in heartbeats <==> Covering(records[..i], b) > 0) && (b in comp <==> b in heartbeats)
      invariant Sum(heartbeats) == BucketCount(records[..i]) && Sum(comp) == CoreCount(records[..i])
    {
      heartbeats, comp := AddRecord(records[i], heartbeats, comp);
      assert records[..i + 1][..i] == records[..i];
      i := i + 1;
    }
    assert records[..|records|] == records;
  }

  method AddRecord(r: Record, h0: Histogram, c0: Histogram) returns (h: Histogram, c: Histogram)
    ensures Added(r, h0, h, 1) && Added(r, c0, c, r.cores)
  {
    h, c := h0, c0;
    var j := 0;
    NothingGained(r, h0, 1);
    NothingGained(r, c0, r.cores);
    assert BothGained(r, j, h0, h, c0, c);
    while j < r.lasting
      invariant Along(r, j) && BothGained(r, j, h0, h, c0, c)
    {
      var bucket := CapTime(r.timestamp) - j;
      BothNext(r, j, h0, h, c0, c);
      h := h[bucket := At(h, bucket) + 1];
      c := c[bucket := At(c, bucket) + r.cores];
      j := j + TIME_SKIP;
    }
    AllGained(r, j, h0, h, 1);
    AllGained(r, j, c0, c, r.cores);
  }
}
