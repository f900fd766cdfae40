/**
 * The two pieces of the client library the core depends on: the stream
 * position `kcl.SequencePair` and the calls made to a `kcl.Checkpointer`.
 * Their Go definitions are not part of this model; both are defined here
 * from the way the core uses them.
 */
module Kcl {
  import opened Options

  /**
   * A position in a shard. `sequence` is an arbitrary-precision integer
   * (a `big.Int` in the source); `None` is the unset pair, which is not the
   * same as sequence number 0.
   */
  datatype SequencePair = SequencePair(sequence: Option<int>, subSequence: int)
  {
    /** True exactly when the sequence number is unset; not the same as sequence number 0. */
    predicate IsNil()
      ensures IsNil() ==> sequence != Some(0)
    {
      sequence.None?
    }

    /**
     * Lexicographic order on (sequence, subSequence). An unset pair is
     * incomparable: it is neither less nor greater than anything.
     */
    predicate IsLessThan(other: SequencePair)
      ensures IsLessThan(other) ==> !IsNil() && !other.IsNil()
      ensures IsLessThan(other) ==> sequence.value <= other.sequence.value
      ensures !IsNil() && !other.IsNil() && sequence.value < other.sequence.value ==> IsLessThan(other)
      ensures !IsNil() && !other.IsNil() && sequence == other.sequence ==>
                (IsLessThan(other) <==> subSequence < other.subSequence)
    {
      !IsNil() && !other.IsNil() &&
      (sequence.value < other.sequence.value ||
       (sequence.value == other.sequence.value && subSequence < other.subSequence))
    }
  }

  /** The zero value `kcl.SequencePair{}`. */
  const Unset := SequencePair(None, 0)

  /** Non-strict order: equal, or strictly less. */
  predicate LessEq(a: SequencePair, b: SequencePair) {
    a == b || a.IsLessThan(b)
  }

  /** A call made on a checkpointer, as recorded in a call log. */
  datatype Call = Checkpoint(pair: SequencePair) | Shutdown

  /** On set pairs, IsLessThan is a strict total order. */
  lemma OrderIsStrictTotal(a: SequencePair, b: SequencePair, c: SequencePair)
    requires !a.IsNil() && !b.IsNil() && !c.IsNil()
    ensures !a.IsLessThan(a)
    ensures a.IsLessThan(b) ==> !b.IsLessThan(a)
    ensures a.IsLessThan(b) && b.IsLessThan(c) ==> a.IsLessThan(c)
    ensures a == b || a.IsLessThan(b) || b.IsLessThan(a)
  {
  }

  /**
   * The unset pair is below nothing and above nothing. This records the
   * modelling choice made in IsLessThan, whose Go definition is not part of
   * this model; callers guard the unset case with IsNil.
   */
  lemma UnsetIsIncomparable(a: SequencePair, b: SequencePair)
    requires a.IsNil()
    ensures !a.IsLessThan(b) && !b.IsLessThan(a)
  {
  }

  /** LessEq is transitive. */
  lemma LessEqTransitive(a: SequencePair, b: SequencePair, c: SequencePair)
    requires LessEq(a, b) && LessEq(b, c)
    ensures LessEq(a, c)
  {
  }
}
