/**
 The decoded-image cache of the desktop client (apps/desktop/image.go).

 The window logs every use of an image and only looks at the log when it reaches
 2 * ANIM_CACHE_LIMIT entries. The first half of this file is about the history of uses
 alone: what the lazy log keeps, compared with a textbook LRU cache driven by the same
 uses, and what compaction costs. The second half is the window's state itself.
 */
module AnimCache {
  import opened Sequences
  import opened Wrappers

  datatype Path = Path(text: string)
  type Callback = nat
  datatype Animation = Animation(frames: nat, delays: seq<nat>)

  const ANIM_CACHE_LIMIT: nat := 48

  // ---------------------------------------------------------------- histories of uses

  function Without(s: seq<Path>, p: Path): (r: seq<Path>) {
    if s == [] then []
    else if s[0] == p then Without(s[1..], p)
    else [s[0]] + Without(s[1..], p)
  }

  /** The distinct paths of a history, most recently used first. */
  function Recency(uses: seq<Path>): (r: seq<Path>) {
    if uses == [] then []
    else
      var p := uses[|uses| - 1];
      [p] + Without(Recency(uses[..|uses| - 1]), p)
  }

  /** The textbook cache: move to the front, then drop what falls off the end. */
  function Lru(uses: seq<Path>): (r: seq<Path>) {
    if uses == [] then []
    else
      var p := uses[|uses| - 1];
      Take([p] + Without(Lru(uses[..|uses| - 1]), p), ANIM_CACHE_LIMIT)
  }

  /** What one touch makes of the log, given that the cache holds exactly the logged paths. */
  function Touched(order: seq<Path>, p: Path): (r: seq<Path>) {
    var grown := order + [p];
    if |grown| < ANIM_CACHE_LIMIT * 2 then grown
    else Reversed(Take(Recency(grown), ANIM_CACHE_LIMIT))
  }

  /** The log after a whole history of touches. */
  function Order(uses: seq<Path>): (r: seq<Path>) {
    if uses == [] then [] else Touched(Order(uses[..|uses| - 1]), uses[|uses| - 1])
  }

  /** Log entries read by all compactions of a history. */
  function Scans(uses: seq<Path>): (r: nat) {
    if uses == [] then 0
    else
      Scans(uses[..|uses| - 1]) + CompactionCost(Order(uses[..|uses| - 1]))
  }

  function CompactionCost(order: seq<Path>): (r: nat) {
    if |order| + 1 < ANIM_CACHE_LIMIT * 2 then 0 else |order| + 1
  }

  /** Some use of r comes after every use of q. */
  ghost predicate UsedAfter(uses: seq<Path>, r: Path, q: Path) {
    exists i :: 0 <= i < |uses| && uses[i] == r && forall j :: i <= j < |uses| ==> uses[j] != q
  }

  lemma {:induction false} WithoutFacts(s: seq<Path>, p: Path)
    requires NoDuplicates(s)
    ensures NoDuplicates(Without(s, p))
    ensures Elements(Without(s, p)) == Elements(s) - {p}
    ensures |Without(s, p)| == if p in s then |s| - 1 else |s|
  {
    if s != [] {
      WithoutFacts(s[1..], p);
      var rest := Without(s[1..], p);
      assert Elements(s) == {s[0]} + Elements(s[1..]);
      assert forall x :: x in rest ==> x in Elements(rest);
      if s[0] == p {
        assert p !in s[1..];
      } else {
        var all := [s[0]] + rest;
        assert Elements(all) == {s[0]} + Elements(rest);
        assert s[0] !in s[1..];
        assert s[0] !in Elements(rest);
      }
    }
  }

  lemma {:induction false} WithoutConcat(a: seq<Path>, b: seq<Path>, p: Path)
    ensures Without(a + b, p) == Without(a, p) + Without(b, p)
  {
    if a == [] {
      assert a + b == b;
    } else {
      assert (a + b)[1..] == a[1..] + b;
      WithoutConcat(a[1..], b, p);
    }
  }

  lemma WithoutPrefix(a: seq<Path>, b: seq<Path>, p: Path)
    requires a <= b
    ensures Without(a, p) <= Without(b, p)
  {
    assert b == a + b[|a|..];
    WithoutConcat(a, b[|a|..], p);
  }

  lemma {:induction false} RecencyFacts(uses: seq<Path>)
    ensures NoDuplicates(Recency(uses))
    ensures Elements(Recency(uses)) == Elements(uses)
    ensures |Recency(uses)| <= |uses|
  {
    if uses != [] {
      var before, p := uses[..|uses| - 1], uses[|uses| - 1];
      RecencyFacts(before);
      WithoutFacts(Recency(before), p);
      var rest := Without(Recency(before), p);
      assert p !in Elements(rest);
      assert Elements(Recency(uses)) == {p} + Elements(rest);
      assert Elements(uses) == Elements(before) + {p};
    }
  }

  /** Scanning backwards: an older entry adds its path at the far end unless it is known. */
  lemma {:induction false} RecencyOlder(q: Path, uses: seq<Path>)
    ensures Recency([q] + uses) == Recency(uses) + if q in uses then [] else [q]
  {
    var whole := [q] + uses;
    if uses == [] {
      assert whole[..0] == [];
      assert Recency([]) == [];
    } else {
      var before, p := uses[..|uses| - 1], uses[|uses| - 1];
      assert whole[..|whole| - 1] == [q] + before;
      RecencyOlder(q, before);
      var tail := if q in before then [] else [q];
      WithoutConcat(Recency(before), tail, p);
      assert q in uses <==> q in before || q == p;
      assert Without([q], p) == if q == p then [] else [q];
      assert Recency(whole) == [p] + Without(Recency([q] + before), p);
    }
  }

  /** Reading a duplicate-free log newest to oldest gives its reversal back. */
  lemma {:induction false} RecencyOfDistinct(s: seq<Path>)
    requires NoDuplicates(s)
    ensures Recency(s) == Reversed(s)
  {
    if s != [] {
      assert s == [s[0]] + s[1..];
      assert s[0] !in s[1..];
      RecencyOlder(s[0], s[1..]);
      RecencyOfDistinct(s[1..]);
    }
  }

  lemma RecencyReversed(s: seq<Path>)
    requires NoDuplicates(s)
    ensures Recency(Reversed(s)) == s
  {
    RecencyOfDistinct(Reversed(s));
    assert Reversed(Reversed(s)) == s;
  }

  /** The textbook cache holds the ANIM_CACHE_LIMIT most recently used distinct paths. */
  lemma {:induction false} LruIsRecent(uses: seq<Path>)
    ensures Lru(uses) == Take(Recency(uses), ANIM_CACHE_LIMIT)
  {
    if uses != [] {
      var before, p := uses[..|uses| - 1], uses[|uses| - 1];
      LruIsRecent(before);
      RecencyFacts(before);
      var all := Recency(before);
      var kept := Take(all, ANIM_CACHE_LIMIT);
      WithoutFacts(kept, p);
      WithoutPrefix(kept, all, p);
    }
  }

  /**
   One more use on both sides: a log that lists a long enough prefix of the recency order
   `all` still does after the use is appended, and the first 48 entries agree.
   */
  lemma GrownTracksRecency(order: seq<Path>, all: seq<Path>, p: Path)
    requires NoDuplicates(all) && Recency(order) <= all
    requires |Recency(order)| >= Min(ANIM_CACHE_LIMIT, |all|)
    ensures Recency(order + [p]) <= [p] + Without(all, p)
    ensures |Recency(order + [p])| >= Min(ANIM_CACHE_LIMIT, |[p] + Without(all, p)|)
    ensures Take(Recency(order + [p]), ANIM_CACHE_LIMIT) == Take([p] + Without(all, p), ANIM_CACHE_LIMIT)
  {
    var grown := order + [p];
    assert grown[..|grown| - 1] == order;
    var kept := Recency(order);
    assert Recency(grown) == [p] + Without(kept, p);
    WithoutPrefix(kept, all, p);
    WithoutFacts(kept, p);
    WithoutFacts(all, p);
    assert |kept| >= |all| ==> kept == all;
  }

  /** A touch only appends while the log is short: that is what makes it lazy. */
  lemma TouchIsLazy(order: seq<Path>, p: Path)
    ensures |order| < 95 ==> Touched(order, p) == order + [p] && CompactionCost(order) == 0
    ensures |order| >= 95 ==> CompactionCost(order) == |order| + 1
  {
  }

  /** Compacting keeps the recency order of what survives, and nothing else. */
  lemma TouchedRecency(order: seq<Path>, p: Path)
    ensures Recency(Touched(order, p)) == Recency(order + [p])
         || Recency(Touched(order, p)) == Take(Recency(order + [p]), ANIM_CACHE_LIMIT)
    ensures |Touched(order, p)| < ANIM_CACHE_LIMIT * 2
    ensures |order| + 1 >= ANIM_CACHE_LIMIT * 2 ==> |Touched(order, p)| <= ANIM_CACHE_LIMIT
  {
    var grown := order + [p];
    if |grown| >= ANIM_CACHE_LIMIT * 2 {
      RecencyFacts(grown);
      RecencyReversed(Take(Recency(grown), ANIM_CACHE_LIMIT));
    }
  }

  /** One more use, compaction included, keeps the log in step with the recency order. */
  lemma TouchTracksRecency(order: seq<Path>, all: seq<Path>, p: Path)
    requires NoDuplicates(all) && Recency(order) <= all
    requires |Recency(order)| >= Min(ANIM_CACHE_LIMIT, |all|)
    ensures Recency(Touched(order, p)) <= [p] + Without(all, p)
    ensures |Recency(Touched(order, p))| >= Min(ANIM_CACHE_LIMIT, |[p] + Without(all, p)|)
  {
    GrownTracksRecency(order, all, p);
    TouchedRecency(order, p);
  }

  /** The potential 2 * |log| pays for the compaction that a touch may run. */
  lemma TouchPays(order: seq<Path>, p: Path)
    requires |order| < ANIM_CACHE_LIMIT * 2
    ensures |Touched(order, p)| < ANIM_CACHE_LIMIT * 2
    ensures CompactionCost(order) + 2 * |Touched(order, p)| <= 2 * |order| + 2
  {
    TouchedRecency(order, p);
  }

  /**
   The lazy log against the full history. It always lists a prefix of the recency order, at
   least as long as the textbook cache; it never exceeds 95 entries; and the potential
   2 * |log| pays for every compaction.
   */
  lemma {:induction false} OrderTracksRecency(uses: seq<Path>)
    ensures Recency(Order(uses)) <= Recency(uses)
    ensures |Recency(Order(uses))| >= Min(ANIM_CACHE_LIMIT, |Recency(uses)|)
    ensures |Order(uses)| < ANIM_CACHE_LIMIT * 2
    ensures Scans(uses) + 2 * |Order(uses)| <= 2 * |uses|
  {
    if uses != [] {
      var before, p := uses[..|uses| - 1], uses[|uses| - 1];
      OrderTracksRecency(before);
      RecencyFacts(before);
      TouchTracksRecency(Order(before), Recency(before), p);
      TouchPays(Order(before), p);
    }
  }

  /** For every history: what a textbook 48-entry LRU would hold, the lazy cache holds. */
  lemma NeverMissesWhereLruHits(uses: seq<Path>, p: Path)
    requires p in Lru(uses)
    ensures p in Order(uses)
  {
    LruIsRecent(uses);
    OrderTracksRecency(uses);
    RecencyFacts(Order(uses));
    var kept := Recency(Order(uses));
    var i :| 0 <= i < |Lru(uses)| && Lru(uses)[i] == p;
    assert kept[i] == p;
    assert p in Elements(kept);
  }

  /** The path used last comes after every other. */
  lemma LastUseIsAfter(before: seq<Path>, p: Path, q: Path)
    requires p != q
    ensures UsedAfter(before + [p], p, q)
  {
    assert (before + [p])[|before|] == p;
  }

  lemma UsedAfterGrows(uses: seq<Path>, r: Path, q: Path, p: Path)
    requires UsedAfter(uses, r, q) && p != q
    ensures UsedAfter(uses + [p], r, q)
  {
    var k :| 0 <= k < |uses| && uses[k] == r && forall l :: k <= l < |uses| ==> uses[l] != q;
    assert (uses + [p])[k] == r;
  }

  /** Behind the path used last, the recency order is the earlier one without it. */
  lemma OlderEntry(uses: seq<Path>, j: nat)
    requires 0 < j < |Recency(uses)|
    ensures var before, p := uses[..|uses| - 1], uses[|uses| - 1];
            && uses == before + [p] && Recency(uses)[0] == p
            && j - 1 < |Without(Recency(before), p)|
            && Recency(uses)[j] == Without(Recency(before), p)[j - 1] != p
  {
    var before, p := uses[..|uses| - 1], uses[|uses| - 1];
    RecencyFacts(before);
    WithoutFacts(Recency(before), p);
    assert Without(Recency(before), p)[j - 1] in Elements(Without(Recency(before), p));
  }

  /** Paths earlier in the recency order were used after the later ones. */
  lemma {:induction false} RecencyMeansUsedAfter(uses: seq<Path>, i: nat, j: nat)
    requires i < j < |Recency(uses)|
    ensures UsedAfter(uses, Recency(uses)[i], Recency(uses)[j])
  {
    var before, p, q := uses[..|uses| - 1], uses[|uses| - 1], Recency(uses)[j];
    OlderEntry(uses, j);
    if i == 0 {
      LastUseIsAfter(before, p, q);
    } else {
      OlderEntry(uses, i);
      var a, b := WithoutKeepsOrder(Recency(before), p, i - 1, j - 1);
      RecencyMeansUsedAfter(before, a, b);
      UsedAfterGrows(before, Recency(before)[a], Recency(before)[b], p);
    }
  }

  lemma {:induction false} WithoutKeepsOrder(s: seq<Path>, p: Path, i: nat, j: nat) returns (a: nat, b: nat)
    requires i < j < |Without(s, p)|
    ensures a < b < |s| && s[a] == Without(s, p)[i] && s[b] == Without(s, p)[j]
  {
    if s[0] == p {
      a, b := WithoutKeepsOrder(s[1..], p, i, j);
      a, b := a + 1, b + 1;
    } else if i == 0 {
      b := WithoutIndex(s[1..], p, j - 1);
      a, b := 0, b + 1;
    } else {
      a, b := WithoutKeepsOrder(s[1..], p, i - 1, j - 1);
      a, b := a + 1, b + 1;
    }
  }

  lemma {:induction false} WithoutIndex(s: seq<Path>, p: Path, j: nat) returns (b: nat)
    requires j < |Without(s, p)|
    ensures b < |s| && s[b] == Without(s, p)[j]
  {
    if s[0] == p {
      b := WithoutIndex(s[1..], p, j);
      b := b + 1;
    } else if j == 0 {
      b := 0;
    } else {
      b := WithoutIndex(s[1..], p, j - 1);
      b := b + 1;
    }
  }

  /**
   A path dropped by a touch leaves 48 distinct paths behind in the cache, each used after
   its own last use; the path just touched is one of them.
   */
  lemma EvictedPathIsOld(uses: seq<Path>, p: Path, q: Path) returns (newer: seq<Path>)
    requires q in Order(uses) && q !in Order(uses + [p])
    ensures |newer| == ANIM_CACHE_LIMIT && NoDuplicates(newer) && p in newer
    ensures forall r :: r in newer ==> r in Order(uses + [p]) && UsedAfter(uses + [p], r, q)
  {
    var after := uses + [p];
    var grown := Order(uses) + [p];
    var seen := Recency(grown);
    newer := Take(seen, ANIM_CACHE_LIMIT);
    OrderAfter(uses, p);
    assert Order(after) == Reversed(newer) by { assert q in grown; }
    RecencyFacts(grown);
    assert q in Elements(grown);
    assert q in Elements(seen);
    var j :| 0 <= j < |seen| && seen[j] == q;
    ReversedElements(newer);
    assert q !in newer;
    assert newer[0] == p by { assert grown[..|grown| - 1] == Order(uses); }
    OrderTracksRecency(uses);
    RecencyFacts(uses);
    GrownTracksRecency(Order(uses), Recency(uses), p);
    assert seen <= Recency(after);
    forall r | r in newer ensures UsedAfter(after, r, q) {
      var i :| 0 <= i < |newer| && newer[i] == r;
      RecencyMeansUsedAfter(after, i, j);
    }
  }

  lemma OrderAfter(uses: seq<Path>, p: Path)
    ensures Order(uses + [p]) == Touched(Order(uses), p)
    ensures Scans(uses + [p]) == Scans(uses) + CompactionCost(Order(uses))
    ensures Recency(uses + [p]) == [p] + Without(Recency(uses), p)
  {
    assert (uses + [p])[..|uses|] == uses;
  }

  /** Reversing first and dropping the oldest is taking the newest and reversing. */
  lemma ReversedTake(s: seq<Path>, n: nat)
    requires NoDuplicates(s)
    ensures NoDuplicates(Reversed(s)) && Elements(Reversed(s)) == Elements(s)
    ensures Reversed(Take(s, n)) == if |s| <= n then Reversed(s) else Reversed(s)[|s| - n..]
  {
    ReversedElements(s);
  }

  lemma DropOldest(full: seq<Path>, k: nat)
    requires NoDuplicates(full) && k < |full|
    ensures Elements(full[k + 1..]) == Elements(full[k..]) - {full[k]}
    ensures full[k..][1..] == full[k + 1..]
  {
    assert full[k..] == [full[k]] + full[k + 1..];
    assert full[k] !in full[k + 1..];
  }

  ghost predicate SubMap(m: map<Path, Animation>, n: map<Path, Animation>) {
    forall p :: p in m ==> p in n && m[p] == n[p]
  }

  lemma TouchedKeepsNewest(order: seq<Path>, p: Path)
    ensures p in Touched(order, p)
  {
    var grown := order + [p];
    assert grown[|grown| - 1] == p;
    if |grown| >= ANIM_CACHE_LIMIT * 2 {
      assert Recency(grown)[0] == p;
      ReversedElements(Take(Recency(grown), ANIM_CACHE_LIMIT));
      assert Take(Recency(grown), ANIM_CACHE_LIMIT)[0] == p;
    }
  }

  lemma ReversedElements(s: seq<Path>)
    ensures forall r :: r in s <==> r in Reversed(s)
  {
    forall r | r in s ensures r in Reversed(s) {
      var i :| 0 <= i < |s| && s[i] == r;
      assert Reversed(s)[|s| - 1 - i] == r;
    }
  }

  /** A compaction makes the log exactly the textbook cache, oldest first. */
  lemma CompactionResult(uses: seq<Path>, p: Path)
    requires |Order(uses)| + 1 == ANIM_CACHE_LIMIT * 2
    ensures Order(uses + [p]) == Reversed(Lru(uses + [p]))
    ensures NoDuplicates(Order(uses + [p]))
    ensures 0 < |Order(uses + [p])| <= ANIM_CACHE_LIMIT
    ensures Order(uses + [p])[|Order(uses + [p])| - 1] == p
  {
    OrderAfter(uses, p);
    OrderTracksRecency(uses);
    RecencyFacts(uses);
    RecencyFacts(uses + [p]);
    LruIsRecent(uses + [p]);
    GrownTracksRecency(Order(uses), Recency(uses), p);
  }

  // ---------------------------------------------------------------- the window's state

  datatype Request = Request(path: Path, done: Callback)
  datatype Invocation = Invocation(path: Path, done: Callback, result: Option<Animation>)

  /** The callbacks that asked for p, in request order. */
  ghost function RequestsFor(requests: seq<Request>, p: Path): (r: seq<Callback>) {
    if requests == [] then []
    else
      var last := requests[|requests| - 1];
      RequestsFor(requests[..|requests| - 1], p) + if last.path == p then [last.done] else []
  }

  /** The callbacks that were run for p, in the order they ran. */
  ghost function InvokedFor(invoked: seq<Invocation>, p: Path): (r: seq<Callback>) {
    if invoked == [] then []
    else
      var last := invoked[|invoked| - 1];
      InvokedFor(invoked[..|invoked| - 1], p) + if last.path == p then [last.done] else []
  }

  lemma InvokedForAppend(invoked: seq<Invocation>, last: Invocation, p: Path)
    ensures InvokedFor(invoked + [last], p) == InvokedFor(invoked, p) + if last.path == p then [last.done] else []
  {
    assert (invoked + [last])[..|invoked|] == invoked;
  }

  lemma RequestsForAppend(requests: seq<Request>, last: Request, p: Path)
    ensures RequestsFor(requests + [last], p) == RequestsFor(requests, p) + if last.path == p then [last.done] else []
  {
    assert (requests + [last])[..|requests|] == requests;
  }

  ghost function Waiting(pending: map<Path, seq<Callback>>, p: Path): (r: seq<Callback>) {
    if p in pending then pending[p] else []
  }

  /** Each request so far was answered exactly once, in order, or is still waiting in order. */
  ghost predicate AnsweredInOrder(requests: seq<Request>, invoked: seq<Invocation>, pending: map<Path, seq<Callback>>) {
    forall p :: AnsweredFor(requests, invoked, pending, p)
  }

  ghost predicate AnsweredFor(requests: seq<Request>, invoked: seq<Invocation>, pending: map<Path, seq<Callback>>,
      p: Path) {
    RequestsFor(requests, p) == InvokedFor(invoked, p) + Waiting(pending, p)
  }

  /**
   Once no decode is running, the number of times a callback ran for a path is the number of
   times it asked for that path.
   */
  lemma {:induction false} ExactlyOnce(requests: seq<Request>, invoked: seq<Invocation>, p: Path, done: Callback)
    requires AnsweredInOrder(requests, invoked, map[])
    ensures (multiset(RequestsFor(requests, p)))[done] == (multiset(InvokedFor(invoked, p)))[done]
    ensures Request(p, done) in requests <==> exists result :: Invocation(p, done, result) in invoked
  {
    assert AnsweredFor(requests, invoked, map[], p);
    RequestedMember(requests, p, done);
    InvokedMember(invoked, p, done);
  }

  lemma {:induction false} RequestedMember(requests: seq<Request>, p: Path, done: Callback)
    ensures done in RequestsFor(requests, p) <==> Request(p, done) in requests
  {
    if requests != [] {
      RequestedMember(requests[..|requests| - 1], p, done);
      assert requests == requests[..|requests| - 1] + [requests[|requests| - 1]];
    }
  }

  lemma {:induction false} InvokedMember(invoked: seq<Invocation>, p: Path, done: Callback)
    ensures done in InvokedFor(invoked, p) <==> exists result :: Invocation(p, done, result) in invoked
  {
    if invoked != [] {
      var before, last := invoked[..|invoked| - 1], invoked[|invoked| - 1];
      InvokedMember(before, p, done);
      assert invoked == before + [last];
      if last.path == p && last.done == done {
        assert Invocation(p, done, last.result) in invoked;
      }
      forall result | Invocation(p, done, result) in invoked
        ensures Invocation(p, done, result) in before || (last.path == p && last.done == done)
      {}
    }
  }

  /** A landing decode runs its waiters in order, all with the same result. */
  function Answers(path: Path, waiters: seq<Callback>, decoded: Option<Animation>): (r: seq<Invocation>) {
    if waiters == [] then []
    else
      var n := |waiters| - 1;
      Answers(path, waiters[..n], decoded) + [Invocation(path, waiters[n], decoded)]
  }

  lemma AnswersGrow(path: Path, waiters: seq<Callback>, n: nat, decoded: Option<Animation>)
    requires n < |waiters|
    ensures Answers(path, waiters[..n + 1], decoded)
         == Answers(path, waiters[..n], decoded) + [Invocation(path, waiters[n], decoded)]
  {
    assert waiters[..n + 1][..n] == waiters[..n];
  }

  lemma {:induction false} InvokedForAnswers(invoked: seq<Invocation>, path: Path, waiters: seq<Callback>,
      decoded: Option<Animation>, p: Path)
    ensures InvokedFor(invoked + Answers(path, waiters, decoded), p)
         == InvokedFor(invoked, p) + if p == path then waiters else []
  {
    if waiters == [] {
      assert invoked + Answers(path, waiters, decoded) == invoked;
    } else {
      var n := |waiters| - 1;
      InvokedForAnswers(invoked, path, waiters[..n], decoded, p);
      var shorter := invoked + Answers(path, waiters[..n], decoded);
      AnswersGrow(path, waiters, n, decoded);
      assert waiters[..n + 1] == waiters;
      assert invoked + Answers(path, waiters, decoded) == shorter + [Invocation(path, waiters[n], decoded)];
      InvokedForAppend(shorter, Invocation(path, waiters[n], decoded), p);
      assert waiters == waiters[..n] + [waiters[n]];
    }
  }

  lemma LandKeepsOrder(requests: seq<Request>, invoked: seq<Invocation>, pending: map<Path, seq<Callback>>,
      path: Path, decoded: Option<Animation>)
    requires path in pending && AnsweredInOrder(requests, invoked, pending)
    ensures AnsweredInOrder(requests, invoked + Answers(path, pending[path], decoded), pending - {path})
  {
    forall p ensures AnsweredFor(requests, invoked + Answers(path, pending[path], decoded), pending - {path}, p) {
      assert AnsweredFor(requests, invoked, pending, p);
      InvokedForAnswers(invoked, path, pending[path], decoded, p);
    }
  }

  lemma RequestJoins(requests: seq<Request>, invoked: seq<Invocation>, pending: map<Path, seq<Callback>>,
      path: Path, done: Callback)
    requires AnsweredInOrder(requests, invoked, pending)
    ensures AnsweredInOrder(requests + [Request(path, done)], invoked, pending[path := Waiting(pending, path) + [done]])
  {
    var joined := pending[path := Waiting(pending, path) + [done]];
    forall p ensures AnsweredFor(requests + [Request(path, done)], invoked, joined, p) {
      assert AnsweredFor(requests, invoked, pending, p);
      RequestsForAppend(requests, Request(path, done), p);
    }
  }

  lemma HitIsAnswered(requests: seq<Request>, invoked: seq<Invocation>, pending: map<Path, seq<Callback>>,
      path: Path, done: Callback, result: Option<Animation>)
    requires AnsweredInOrder(requests, invoked, pending) && path !in pending
    ensures AnsweredInOrder(requests + [Request(path, done)], invoked + [Invocation(path, done, result)], pending)
  {
    forall p
      ensures AnsweredFor(requests + [Request(path, done)], invoked + [Invocation(path, done, result)], pending, p)
    {
      assert AnsweredFor(requests, invoked, pending, p);
      RequestsForAppend(requests, Request(path, done), p);
      InvokedForAppend(invoked, Invocation(path, done, result), p);
    }
  }

  /** Every cached image is still the one that last landed. */
  lemma LandedStays(
      before: map<Path, Animation>, after: map<Path, Animation>, landed: map<Path, Animation>, path: Path,
      decoded: Option<Animation>)
    requires SubMap(before, landed) && SubMap(after - {path}, before)
    requires decoded.None? ==> after == before
    requires decoded.Some? && path in after ==> after[path] == decoded.value
    ensures SubMap(after, if decoded.Some? then landed[path := decoded.value] else landed)
  {
    forall p | p in after && p != path ensures p in landed && after[p] == landed[p] {
      assert p in after - {path};
    }
  }

  class ImageCache {
    var animCache: map<Path, Animation>
    var animOrder: seq<Path>
    var animPending: map<Path, seq<Callback>>
    /** The callbacks run so far, with what they were handed. */
    var invoked: seq<Invocation>

    /** Every use recorded, every log entry read by a compaction. */
    ghost var uses: seq<Path>
    ghost var scanned: nat
    /** Every request made, and the decode goroutines that have not landed yet. */
    ghost var requests: seq<Request>
    ghost var decoding: multiset<Path>
    /** The image that the last successful landing of each path brought. */
    ghost var landed: map<Path, Animation>

    /** The log is the one the history of uses leaves behind, and the cache holds its paths. */
    ghost predicate LogValid()
      reads `animCache, `animOrder, `uses, `scanned
    {
      && animOrder == Order(uses)
      && scanned == Scans(uses)
      && animCache.Keys == Elements(animOrder)
    }

    /** However long the history, at most 95 images are held. */
    lemma CacheBounded()
      requires LogValid()
      ensures |animCache| <= 95
    {
      OrderTracksRecency(uses);
      CountDistinct(animOrder);
      assert |animCache| == |animCache.Keys|;
    }

    /** One goroutine per pending path, and every request answered or waiting in order. */
    ghost predicate FlightValid()
      reads `animPending, `invoked, `requests, `decoding
    {
      && decoding == multiset(animPending.Keys)
      && AnsweredInOrder(requests, invoked, animPending)
    }

    ghost predicate Valid()
      reads this
    {
      LogValid() && FlightValid() && animCache.Keys !! animPending.Keys && SubMap(animCache, landed)
    }

    constructor ()
      ensures Valid()
      ensures requests == [] && invoked == [] && decoding == multiset{} && animCache == map[]
    {
      animCache, animOrder, animPending, invoked := map[], [], map[], [];
      uses, scanned, requests, decoding, landed := [], 0, [], multiset{}, map[];
    }

    /** Logs one use, and compacts a log that this has filled. */
    method TouchAnimCache(path: Path)
      requires animCache.Keys == Elements(animOrder) + {path}
      modifies `animCache, `animOrder, `uses, `scanned
      ensures uses == old(uses) + [path]
      ensures animOrder == Touched(old(animOrder), path)
      ensures scanned == old(scanned) + CompactionCost(old(animOrder))
      ensures animCache.Keys == Elements(animOrder) && path in animCache
      ensures SubMap(animCache, old(animCache))
    {
      uses := uses + [path];
      animOrder := animOrder + [path];
      assert Elements(animOrder) == animCache.Keys;
      if |animOrder| < ANIM_CACHE_LIMIT * 2 {
        assert path in animOrder;
        return;
      }
      scanned := scanned + |animOrder|;
      RecencyFacts(animOrder);
      TouchedKeepsNewest(old(animOrder), path);
      var compacted := NewestUses();
      compacted := ReverseInPlace(compacted);
      ReversedTake(Recency(animOrder), ANIM_CACHE_LIMIT);
      animOrder := Evict(compacted);
    }

    /** Drops the oldest entries of a compacted log until the limit holds. */
    method Evict(full: seq<Path>) returns (compacted: seq<Path>)
      requires NoDuplicates(full) && animCache.Keys == Elements(full)
      modifies `animCache
      ensures compacted == if |full| <= ANIM_CACHE_LIMIT then full else full[|full| - ANIM_CACHE_LIMIT..]
      ensures animCache.Keys == Elements(compacted)
      ensures SubMap(animCache, old(animCache))
    {
      compacted := full;
      ghost var k := 0;
      while |compacted| > ANIM_CACHE_LIMIT
        invariant 0 <= k <= |full| && compacted == full[k..]
        invariant k > 0 ==> |compacted| >= ANIM_CACHE_LIMIT
        invariant animCache.Keys == Elements(full[k..])
        invariant SubMap(animCache, old(animCache))
      {
        DropOldest(full, k);
        animCache := animCache - {compacted[0]};
        compacted := compacted[1..];
        k := k + 1;
      }
    }

    /** The backward scan of a compaction: the newest use of each cached path, newest first. */
    method NewestUses() returns (compacted: seq<Path>)
      requires forall p :: p in animOrder ==> p in animCache
      ensures compacted == Recency(animOrder)
    {
      ghost var log := animOrder;
      var seen: set<Path> := {};
      compacted := [];
      var i := |animOrder|;
      assert log[i..] == [];
      while i > 0
        invariant 0 <= i <= |log| && animOrder == log
        invariant seen == Elements(log[i..])
        invariant compacted == Recency(log[i..])
      {
        i := i - 1;
        var p := animOrder[i];
        ghost var newer := log[i + 1..];
        assert log[i..] == [p] + newer;
        RecencyOlder(p, newer);
        if p in seen || p !in animCache {
          continue;
        }
        seen := seen + {p};
        compacted := compacted + [p];
      }
      assert log[0..] == log;
    }

    /** A touch as its callers make it: the path is cached, and may or may not be logged. */
    method Use(path: Path)
      requires animCache.Keys == Elements(animOrder) + {path}
      requires animOrder == Order(uses) && scanned == Scans(uses)
      modifies `animCache, `animOrder, `uses, `scanned
      ensures LogValid() && uses == old(uses) + [path] && path in animCache
      ensures SubMap(animCache, old(animCache))
    {
      OrderAfter(uses, path);
      TouchAnimCache(path);
    }

    /** Only an image that could be read is cached, under its own path. */
    method Remember(path: Path, decoded: Option<Animation>)
      requires LogValid() && SubMap(animCache, landed)
      modifies `animCache, `animOrder, `uses, `scanned, `landed
      ensures LogValid() && SubMap(animCache, landed) && SubMap(animCache - {path}, old(animCache))
      ensures landed == if decoded.Some? then old(landed)[path := decoded.value] else old(landed)
      ensures decoded.None? ==> animCache == old(animCache) && uses == old(uses)
      ensures decoded.Some? ==> uses == old(uses) + [path] && path in animCache && animCache[path] == decoded.value
    {
      if decoded.Some? {
        CacheImage(path, decoded.value);
        landed := landed[path := decoded.value];
      }
      LandedStays(old(animCache), animCache, old(landed), path, decoded);
    }

    method CacheImage(path: Path, image: Animation)
      requires LogValid()
      modifies `animCache, `animOrder, `uses, `scanned
      ensures LogValid() && uses == old(uses) + [path] && path in animCache && animCache[path] == image
      ensures SubMap(animCache - {path}, old(animCache))
    {
      animCache := animCache[path := image];
      assert animCache.Keys == Elements(animOrder) + {path};
      Use(path);
    }

    /**
     Resolves an image: at once from the cache, with what the last successful landing of its path
     brought, otherwise through a shared decode.
     */
    method LoadAnimation(path: Path, done: Callback)
      requires Valid()
      modifies `animCache, `animOrder, `uses, `scanned, `animPending, `decoding, `invoked, `requests
      ensures Valid()
      ensures requests == old(requests) + [Request(path, done)]
      ensures path in old(animCache) ==>
                && path in landed && invoked == old(invoked) + [Invocation(path, done, Some(landed[path]))]
                && uses == old(uses) + [path] && SubMap(animCache, old(animCache))
                && decoding == old(decoding) && animPending == old(animPending)
      ensures path !in old(animCache) ==>
                && invoked == old(invoked) && uses == old(uses) && animCache == old(animCache)
                && animPending == old(animPending)[path := Waiting(old(animPending), path) + [done]]
                && decoding == old(decoding) + if path in old(animPending) then multiset{} else multiset{path}
    {
      if path in animCache {
        AnswerFromCache(path, done);
      } else {
        JoinDecode(path, done);
      }
    }

    method AnswerFromCache(path: Path, done: Callback)
      requires Valid() && path in animCache
      modifies `animCache, `animOrder, `uses, `scanned, `invoked, `requests
      ensures Valid()
      ensures requests == old(requests) + [Request(path, done)]
      ensures invoked == old(invoked) + [Invocation(path, done, Some(old(animCache)[path]))]
      ensures uses == old(uses) + [path]
      ensures SubMap(animCache, old(animCache))
    {
      var cached := animCache[path];
      UseCached(path);
      Answer(path, done, cached);
    }

    method UseCached(path: Path)
      requires LogValid() && path in animCache
      modifies `animCache, `animOrder, `uses, `scanned
      ensures LogValid() && uses == old(uses) + [path]
      ensures SubMap(animCache, old(animCache))
    {
      assert animCache.Keys == Elements(animOrder) + {path};
      Use(path);
    }

    method Answer(path: Path, done: Callback, cached: Animation)
      requires FlightValid() && path !in animPending
      modifies `invoked, `requests
      ensures FlightValid()
      ensures requests == old(requests) + [Request(path, done)]
      ensures invoked == old(invoked) + [Invocation(path, done, Some(cached))]
    {
      HitIsAnswered(requests, invoked, animPending, path, done, Some(cached));
      requests := requests + [Request(path, done)];
      invoked := invoked + [Invocation(path, done, Some(cached))];
    }

    method JoinDecode(path: Path, done: Callback)
      requires Valid() && path !in animCache
      modifies `animPending, `decoding, `requests
      ensures Valid()
      ensures requests == old(requests) + [Request(path, done)]
      ensures animPending == old(animPending)[path := Waiting(old(animPending), path) + [done]]
      ensures decoding == old(decoding) + if path in old(animPending) then multiset{} else multiset{path}
    {
      requests := requests + [Request(path, done)];
      RequestJoins(old(requests), invoked, animPending, path, done);
      if path in animPending {
        animPending := animPending[path := animPending[path] + [done]];
        return;
      }
      animPending := animPending[path := [done]];
      assert animPending.Keys == old(animPending).Keys + {path};
      assert [] + [done] == [done];
      decoding := decoding + multiset{path};
    }

    /** A decode lands on the main loop; decoded is None when the file could not be read. */
    method Land(path: Path, decoded: Option<Animation>)
      requires Valid()
      requires path in decoding
      modifies `animCache, `animOrder, `uses, `scanned, `animPending, `decoding, `invoked, `landed
      ensures Valid()
      ensures landed == if decoded.Some? then old(landed)[path := decoded.value] else old(landed)
      ensures SubMap(animCache - {path}, old(animCache))
      ensures decoding == old(decoding) - multiset{path}
      ensures animPending == old(animPending) - {path}
      ensures path in old(animPending) && invoked == old(invoked) + Answers(path, old(animPending)[path], decoded)
      ensures decoded.None? ==> animCache == old(animCache) && uses == old(uses)
      ensures decoded.Some? ==> uses == old(uses) + [path] && path in animCache && animCache[path] == decoded.value
    {
      var waiters := TakeWaiters(path);
      Remember(path, decoded);
      assert animCache.Keys !! animPending.Keys by {
        assert forall p :: p in animCache && p != path ==> p in animCache - {path};
      }
      RunWaiters(path, waiters, decoded);
      assert LogValid() && FlightValid();
    }

    method TakeWaiters(path: Path) returns (waiters: seq<Callback>)
      requires path in decoding && FlightValid()
      modifies `animPending, `decoding
      ensures path in old(animPending) && waiters == old(animPending)[path]
      ensures animPending == old(animPending) - {path}
      ensures decoding == old(decoding) - multiset{path} == multiset(animPending.Keys)
      ensures AnsweredInOrder(requests, invoked, animPending[path := waiters])
    {
      waiters := animPending[path];
      animPending := animPending - {path};
      assert animPending.Keys == old(animPending).Keys - {path};
      assert animPending[path := waiters] == old(animPending);
      decoding := decoding - multiset{path};
    }

    method RunWaiters(path: Path, waiters: seq<Callback>, decoded: Option<Animation>)
      requires path !in animPending && AnsweredInOrder(requests, invoked, animPending[path := waiters])
      modifies `invoked
      ensures AnsweredInOrder(requests, invoked, animPending)
      ensures invoked == old(invoked) + Answers(path, waiters, decoded)
    {
      var i := 0;
      while i < |waiters|
        invariant 0 <= i <= |waiters|
        invariant invoked == old(invoked) + Answers(path, waiters[..i], decoded)
      {
        AnswersGrow(path, waiters, i, decoded);
        invoked := invoked + [Invocation(path, waiters[i], decoded)];
        i := i + 1;
      }
      assert waiters[..i] == waiters;
      ghost var pending := animPending[path := waiters];
      LandKeepsOrder(requests, old(invoked), pending, path, decoded);
      assert pending - {path} == animPending;
    }
  }

  /** The two-index swap loop that turns newest-first into oldest-first. */
  method ReverseInPlace(s: seq<Path>) returns (r: seq<Path>)
    ensures r == Reversed(s)
  {
    r := s;
    var i, j := 0, |s| - 1;
    while i < j
      invariant 0 <= i && j == |s| - 1 - i && i <= j + 1 && |r| == |s|
      invariant forall k :: 0 <= k < i || j < k < |s| ==> r[k] == s[|s| - 1 - k]
      invariant forall k :: i <= k <= j ==> r[k] == s[k]
    {
      r := r[i := r[j]][j := r[i]];
      i, j := i + 1, j - 1;
    }
  }
}
