/**
 * sampleRecordProcessor of cmd/consumer/main.go: it tracks the largest
 * sequence pair seen in the records it processes and checkpoints it at most
 * once per call, when more than its checkpoint interval has passed.
 */
module Consumer {
  import opened Options
  import opened Kcl
  import Decimal

  /** Durations and times are integer nanoseconds, as Go's time.Duration. */
  const Second: int := 1_000_000_000
  const DefaultCheckpointFreq: int := 60 * Second

  /** The reason the processor is told to terminate (rather than fail over). */
  const Terminate: string := "TERMINATE"

  /** A kcl.Record as far as progress tracking uses it. */
  datatype Record = Record(sequenceNumber: string, subSequenceNumber: int)

  /** Whether `pair` should replace `largest` as the largest pair seen. */
  function ShouldUpdateSequence(largest: SequencePair, pair: SequencePair): (r: bool)
    ensures largest.IsNil() ==> r
    ensures !largest.IsNil() && !pair.IsNil() ==> (r <==> !LessEq(pair, largest))
    ensures !largest.IsNil() && pair.IsNil() ==> !r
  {
    largest.IsLessThan(pair) || largest.IsNil()
  }

  /** The pair carried by a record, if its sequence number parses. */
  function Parsed(rec: Record): (r: Option<SequencePair>)
    ensures r.Some? ==> !r.value.IsNil() && r.value.subSequence == rec.subSequenceNumber
    ensures r.Some? ==> r.value.sequence == Decimal.Parse(rec.sequenceNumber)
    ensures r.Some? <==> Decimal.Parse(rec.sequenceNumber).Some?
  {
    match Decimal.Parse(rec.sequenceNumber)
    case None => None
    case Some(n) => Some(SequencePair(Some(n), rec.subSequenceNumber))
  }

  /**
   * One iteration of the record loop: the larger of the largest pair so far
   * and the record's pair, if the record's sequence number parses.
   */
  function Track(largest: SequencePair, rec: Record): (r: SequencePair)
    ensures r == largest || Parsed(rec) == Some(r)
    ensures Parsed(rec).None? ==> r == largest
    ensures Parsed(rec).Some? ==> LessEq(Parsed(rec).value, r)
    ensures !largest.IsNil() ==> LessEq(largest, r)
  {
    match Parsed(rec)
    case None => largest
    case Some(pair) => if ShouldUpdateSequence(largest, pair) then pair else largest
  }

  /** The largest pair after running the record loop over `records`. */
  function Largest(largest: SequencePair, records: seq<Record>): (r: SequencePair)
    ensures !largest.IsNil() ==> LessEq(largest, r)
    decreases |records|
  {
    if records == [] then largest else Largest(Track(largest, records[0]), records[1..])
  }

  /** The pair of one record as a sequence of zero or one pairs. */
  function ParsedOf(rec: Record): seq<SequencePair> {
    if Parsed(rec).Some? then [Parsed(rec).value] else []
  }

  /** The pairs of the records whose sequence numbers parse, in order. */
  function ParsedPairs(records: seq<Record>): seq<SequencePair>
    decreases |records|
  {
    if records == [] then [] else ParsedOf(records[0]) + ParsedPairs(records[1..])
  }

  /** Every pair of `ps` is at most `r`. */
  predicate Bounds(ps: seq<SequencePair>, r: SequencePair) {
    forall k | 0 <= k < |ps| :: LessEq(ps[k], r)
  }

  lemma BoundsConcat(xs: seq<SequencePair>, ys: seq<SequencePair>, r: SequencePair)
    requires Bounds(xs, r) && Bounds(ys, r)
    ensures Bounds(xs + ys, r)
  {
    forall k | 0 <= k < |xs + ys| ensures LessEq((xs + ys)[k], r) {
      if k >= |xs| {
        assert (xs + ys)[k] == ys[k - |xs|];
      }
    }
  }

  /** A record whose sequence number does not parse leaves the largest pair unchanged. */
  lemma UnparseableRecordSkipped(largest: SequencePair, rec: Record)
    requires Decimal.Parse(rec.sequenceNumber).None?
    ensures Track(largest, rec) == largest
  {
  }

  /**
   * The record loop computes a maximum: the result is at least the previous
   * largest pair (when set) and every parsed pair of the batch, and it is one
   * of them.
   */
  lemma {:induction false} LargestIsMaximum(largest: SequencePair, records: seq<Record>)
    ensures var r := Largest(largest, records);
      (!largest.IsNil() ==> LessEq(largest, r)) &&
      Bounds(ParsedPairs(records), r) &&
      (r == largest || r in ParsedPairs(records))
    decreases |records|
  {
    if records != [] {
      var t := Track(largest, records[0]);
      var head := ParsedOf(records[0]);
      var rest := records[1..];
      LargestIsMaximum(t, rest);
      var r := Largest(t, rest);
      assert ParsedPairs(records) == head + ParsedPairs(rest);
      if head != [] {
        // t is the larger of the previous pair and this record's pair
        LessEqTransitive(head[0], t, r);
      }
      assert Bounds(head, r);
      BoundsConcat(head, ParsedPairs(rest), r);
      if !largest.IsNil() {
        LessEqTransitive(largest, t, r);
      }
    }
  }

  /** A set largest pair is never replaced by an unset one, and a set pair is never lost. */
  lemma {:induction false} LargestSetOnceSeen(largest: SequencePair, records: seq<Record>)
    ensures (!largest.IsNil() || ParsedPairs(records) != []) ==> !Largest(largest, records).IsNil()
    ensures largest.IsNil() && ParsedPairs(records) == [] ==> Largest(largest, records) == largest
    decreases |records|
  {
    if records != [] {
      LargestSetOnceSeen(Track(largest, records[0]), records[1..]);
    }
  }

  /**
   * Starting unset, the first record that parses becomes the largest pair.
   */
  lemma {:induction false} FirstParsedBecomesLargest(largest: SequencePair, records: seq<Record>, k: int)
    requires largest.IsNil()
    requires 0 <= k < |records| && Parsed(records[k]).Some?
    requires forall i | 0 <= i < k :: Parsed(records[i]).None?
    ensures Largest(largest, records[..k + 1]) == Parsed(records[k]).value
    decreases k
  {
    var s := records[..k + 1];
    if k == 0 {
      assert s[1..] == [];
    } else {
      assert s[0] == records[0];
      assert Track(largest, s[0]) == largest;
      assert s[1..] == records[1..][..k];
      FirstParsedBecomesLargest(largest, records[1..], k - 1);
    }
  }

  class SampleRecordProcessor {
    /** Whether Initialize has stored a checkpointer. */
    var hasCheckpointer: bool
    /** The calls made on the stored checkpointer, in order. */
    var calls: seq<Call>
    const checkpointFreq: int
    var largestPair: SequencePair
    var lastCheckpoint: int

    /** newSampleRecordProcessor: a 60 s interval, no pair seen, no checkpointer yet. */
    constructor ()
      ensures checkpointFreq == DefaultCheckpointFreq
      ensures largestPair == Unset && !hasCheckpointer && calls == [] && lastCheckpoint == 0
    {
      checkpointFreq := DefaultCheckpointFreq;
      largestPair := Unset;
      hasCheckpointer := false;
      calls := [];
      lastCheckpoint := 0;
    }

    /** Start the interval at `now` and store the checkpointer. */
    method Initialize(now: int)
      modifies this
      ensures hasCheckpointer && lastCheckpoint == now
      ensures largestPair == old(largestPair) && calls == old(calls)
    {
      lastCheckpoint := now;
      hasCheckpointer := true;
    }

    /**
     * Track the largest parseable pair of the batch; then, if strictly more
     * than the interval has passed, checkpoint it (set or not) and restart
     * the interval.
     */
    method ProcessRecords(records: seq<Record>, now: int)
      requires hasCheckpointer
      modifies this
      ensures hasCheckpointer
      ensures largestPair == Largest(old(largestPair), records)
      ensures if now - old(lastCheckpoint) > checkpointFreq
              then calls == old(calls) + [Call.Checkpoint(largestPair)] && lastCheckpoint == now
              else calls == old(calls) && lastCheckpoint == old(lastCheckpoint)
    {
      var i := 0;
      while i < |records|
        invariant 0 <= i <= |records|
        invariant Largest(largestPair, records[i..]) == Largest(old(largestPair), records)
        invariant hasCheckpointer && calls == old(calls) && lastCheckpoint == old(lastCheckpoint)
      {
        var record := records[i];
        assert records[i..][1..] == records[i + 1..];
        var seqNumber := Decimal.Parse(record.sequenceNumber);
        if seqNumber.Some? {
          var pair := SequencePair(seqNumber, record.subSequenceNumber);
          if ShouldUpdateSequence(largestPair, pair) {
            largestPair := pair;
          }
        }
        i := i + 1;
      }
      if now - lastCheckpoint > checkpointFreq {
        calls := calls + [Call.Checkpoint(largestPair)];
        lastCheckpoint := now;
      }
    }

    /** Shut the checkpointer down only when told to terminate. */
    method Shutdown(reason: string)
      requires reason == Terminate ==> hasCheckpointer
      modifies this
      ensures calls == if reason == Terminate then old(calls) + [Call.Shutdown] else old(calls)
      ensures hasCheckpointer == old(hasCheckpointer) && largestPair == old(largestPair)
      ensures lastCheckpoint == old(lastCheckpoint)
    {
      if reason == Terminate {
        calls := calls + [Call.Shutdown];
      }
    }
  }
}
