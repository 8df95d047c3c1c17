/** The smallest list-model update of the sidebar: spliceRange in apps/desktop/window.go. */
module Splice {

  /** Replacing `removals` entries of current at `position` by `inserted` gives want. */
  ghost predicate Produces<T>(current: seq<T>, position: nat, removals: nat, inserted: seq<T>, want: seq<T>) {
    && position + removals <= |current|
    && current[..position] + inserted + current[position + removals..] == want
  }

  /**
   No single splice that reaches want removes fewer than m or inserts fewer than k entries.
   What a splice inserts is forced to be a run of want (KeptEnds), so runs are enough.
   */
  ghost predicate Minimal<T>(current: seq<T>, m: int, k: int, want: seq<T>) {
    forall p: nat, r: nat, n: nat :: ProducesRun(current, p, r, n, want) ==> m <= r && k <= n
  }

  /** A splice whose inserted entries are n entries of want, taken at the same position. */
  ghost predicate ProducesRun<T>(current: seq<T>, p: nat, r: nat, n: nat, want: seq<T>) {
    p + n <= |want| && Produces(current, p, r, want[p..p + n], want)
  }

  ghost predicate CommonPrefix<T>(a: seq<T>, b: seq<T>, n: nat) {
    n <= |a| && n <= |b| && forall i :: 0 <= i < n ==> a[i] == b[i]
  }

  ghost predicate CommonSuffix<T>(a: seq<T>, b: seq<T>, n: nat) {
    n <= |a| && n <= |b| && forall i :: |a| - n <= i < |a| ==> a[i] == b[i - |a| + |b|]
  }

  /**
   Where to splice and how many entries to drop there. The end of the inserted run is the
   slice bound applyChatModel computes from the result.
   */
  method SpliceRange<T(==)>(current: seq<T>, want: seq<T>) returns (position: nat, removals: nat, changed: bool)
    ensures changed <==> current != want
    ensures !changed ==> position == removals == 0
    ensures changed ==>
              && position + removals <= |current|
              && var end := |want| - (|current| - position - removals);
                 position <= end <= |want|
                 && Produces(current, position, removals, want[position..end], want)
                 && Minimal(current, removals, end - position, want)
  {
    var head := 0;
    while head < |current| && head < |want| && current[head] == want[head]
      invariant 0 <= head <= |current| && head <= |want|
      invariant CommonPrefix(current, want, head)
    {
      head := head + 1;
    }
    if head == |current| && head == |want| {
      return 0, 0, false;
    }
    var tail := 0;
    while tail < |current| - head && tail < |want| - head && current[|current| - 1 - tail] == want[|want| - 1 - tail]
      invariant 0 <= tail <= |current| - head && tail <= |want| - head
      invariant CommonSuffix(current, want, tail)
    {
      tail := tail + 1;
    }
    KeepingBothEnds(current, want, head, tail);
    NoSpliceKeepsMore(current, want, head, tail);
    return head, |current| - head - tail, true;
  }

  lemma KeepingBothEnds<T>(current: seq<T>, want: seq<T>, head: nat, tail: nat)
    requires CommonPrefix(current, want, head) && CommonSuffix(current, want, tail)
    requires head + tail <= |current| && head + tail <= |want|
    ensures Produces(current, head, |current| - head - tail, want[head..|want| - tail], want)
  {
    var result := current[..head] + want[head..|want| - tail] + current[|current| - tail..];
    forall i | 0 <= i < |want| ensures result[i] == want[i] {
      if i >= |want| - tail {
        assert current[i - |want| + |current|] == want[i];
      }
    }
  }

  /** Whatever a splice keeps before and after its position is common to both sequences. */
  lemma KeptEnds<T>(current: seq<T>, p: nat, r: nat, ins: seq<T>, want: seq<T>)
    requires Produces(current, p, r, ins, want)
    ensures CommonPrefix(current, want, p)
    ensures CommonSuffix(current, want, |current| - p - r)
    ensures |want| == |current| - r + |ins|
    ensures ins == want[p..p + |ins|]
  {
  }

  lemma NoSpliceKeepsMore<T>(current: seq<T>, want: seq<T>, head: nat, tail: nat)
    requires head + tail <= |current| && head + tail <= |want|
    requires head < |current| && head < |want| ==> current[head] != want[head]
    requires head + tail < |current| && head + tail < |want| ==>
            current[|current| - 1 - tail] != want[|want| - 1 - tail]
    ensures Minimal(current, |current| - head - tail, |want| - tail - head, want)
  {
    forall p: nat, r: nat, n: nat | ProducesRun(current, p, r, n, want)
      ensures |current| - head - tail <= r && |want| - tail - head <= n
    {
      KeptEnds(current, p, r, want[p..p + n], want);
    }
  }

  /** Minimality over arbitrary splices, not only over runs of want. */
  lemma MinimalAmongAllSplices<T>(current: seq<T>, m: int, k: int, want: seq<T>, p: nat, r: nat, ins: seq<T>)
    requires Minimal(current, m, k, want) && Produces(current, p, r, ins, want)
    ensures m <= r && k <= |ins|
  {
    KeptEnds(current, p, r, ins, want);
    assert ProducesRun(current, p, r, |ins|, want);
  }
}
