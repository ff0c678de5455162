/**
 * The useScrollAnimation hook: a flag that starts false and is set true by the
 * first intersection callback whose entry is intersecting. Nothing resets it.
 */
module ScrollAnimation {

  /** The part of an IntersectionObserverEntry the callback reads. */
  datatype IntersectionEntry = IntersectionEntry(isIntersecting: bool)

  /**
   * One callback invocation. The callback destructures `[entry]`, so only the
   * first entry of the batch is consulted.
   */
  function Observe(isVisible: bool, entries: seq<IntersectionEntry>): (v: bool)
    requires |entries| > 0
    ensures isVisible ==> v
    ensures entries[0].isIntersecting ==> v
    ensures v ==> isVisible || entries[0].isIntersecting
  {
    if entries[0].isIntersecting then true else isVisible
  }

  /** Every callback receives at least one entry. */
  predicate NonEmptyBatches(batches: seq<seq<IntersectionEntry>>) {
    forall k :: 0 <= k < |batches| ==> |batches[k]| > 0
  }

  /** The flag after a sequence of callbacks, in order. */
  function Replay(isVisible: bool, batches: seq<seq<IntersectionEntry>>): (v: bool)
    requires NonEmptyBatches(batches)
    decreases |batches|
  {
    if batches == [] then isVisible else Replay(Observe(isVisible, batches[0]), batches[1..])
  }

  /** Some callback's first entry was intersecting. */
  predicate SomeIntersecting(batches: seq<seq<IntersectionEntry>>)
    requires NonEmptyBatches(batches)
  {
    exists k :: 0 <= k < |batches| && batches[k][0].isIntersecting
  }

  /** The flag never goes from true back to false. */
  lemma {:induction false} ReplayMonotone(batches: seq<seq<IntersectionEntry>>)
    requires NonEmptyBatches(batches)
    ensures Replay(true, batches)
    decreases |batches|
  {
    if batches != [] {
      ReplayMonotone(batches[1..]);
    }
  }

  /** Starting hidden, the flag ends true exactly when some callback's entry was intersecting. */
  lemma {:induction false} ReplayFromHidden(batches: seq<seq<IntersectionEntry>>)
    requires NonEmptyBatches(batches)
    ensures Replay(false, batches) <==> SomeIntersecting(batches)
    decreases |batches|
  {
    if batches != [] {
      var rest := batches[1..];
      assert forall k :: 0 <= k < |rest| ==> rest[k] == batches[k + 1];
      if batches[0][0].isIntersecting {
        ReplayMonotone(rest);
      } else {
        ReplayFromHidden(rest);
        if SomeIntersecting(batches) {
          var k :| 0 <= k < |batches| && batches[k][0].isIntersecting;
          assert rest[k - 1] == batches[k];
        }
      }
    }
  }

  /** The flag is false before the first intersecting callback and true from it on. */
  lemma FirstIntersectionLatches(batches: seq<seq<IntersectionEntry>>, first: nat)
    requires NonEmptyBatches(batches)
    requires first < |batches| && batches[first][0].isIntersecting
    requires forall j :: 0 <= j < first ==> !batches[j][0].isIntersecting
    ensures !Replay(false, batches[..first])
    ensures forall m :: first < m <= |batches| ==> Replay(false, batches[..m])
  {
    ReplayFromHidden(batches[..first]);
    forall m | first < m <= |batches|
      ensures Replay(false, batches[..m])
    {
      assert batches[..m][first] == batches[first];
      ReplayFromHidden(batches[..m]);
    }
  }

  /** The mounted hook. */
  class VisibilityLatch {
    var isVisible: bool

    constructor ()
      ensures !isVisible
    {
      isVisible := false;
    }

    /** The IntersectionObserver callback. */
    method OnIntersection(entries: seq<IntersectionEntry>)
      requires |entries| > 0
      modifies this
      ensures isVisible == Observe(old(isVisible), entries)
    {
      var entry := entries[0];
      if entry.isIntersecting {
        isVisible := true;
      }
    }
  }
}
