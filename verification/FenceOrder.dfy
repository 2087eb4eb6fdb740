/** The order in which a repo's held fences are inspected (internal/inspection/repo_recovery.go:65-74). */
module FenceOrder {
  import opened Common
  import opened Fences

  /** The comparator given to `sort.SliceStable`. */
  predicate Before(f: Fence, g: Fence) {
    if f.repoId != g.repoId then Less(f.repoId, g.repoId)
    else if f.createdAt != g.createdAt then f.createdAt < g.createdAt
    else Less(f.id, g.id)
  }

  predicate SameKey(f: Fence, g: Fence) {
    f.repoId == g.repoId && f.createdAt == g.createdAt && f.id == g.id
  }

  lemma BeforeIsTransitive(f: Fence, g: Fence, h: Fence)
    requires Before(f, g) && Before(g, h)
    ensures Before(f, h)
  {
    if f.repoId == g.repoId == h.repoId {
      if f.createdAt == g.createdAt == h.createdAt {
        LessIsTransitive(f.id, g.id, h.id);
      }
    } else if f.repoId != g.repoId && g.repoId != h.repoId {
      LessIsTransitive(f.repoId, g.repoId, h.repoId);
      LessIsAsymmetric(f.repoId, g.repoId);
    }
  }

  /** A strict order, total up to equal keys. */
  lemma BeforeIsTotal(f: Fence, g: Fence)
    ensures !(Before(f, g) && Before(g, f))
    ensures SameKey(f, g) || Before(f, g) || Before(g, f)
  {
    LessIsConnected(f.repoId, g.repoId);
    LessIsConnected(f.id, g.id);
    LessIsAsymmetric(f.repoId, g.repoId);
    LessIsAsymmetric(f.id, g.id);
  }

  /** The result of a stable sort: equal keys keep their order. */
  function Sort(fences: seq<Fence>): seq<Fence> {
    if fences == [] then [] else Insert(fences[0], Sort(fences[1..]))
  }

  function Insert(fence: Fence, sorted: seq<Fence>): seq<Fence> {
    if sorted != [] && Before(sorted[0], fence) then [sorted[0]] + Insert(fence, sorted[1..])
    else [fence] + sorted
  }

  predicate Sorted(fences: seq<Fence>) {
    forall i, j | 0 <= i < j < |fences| :: !Before(fences[j], fences[i])
  }

  lemma {:induction false} InsertPermutes(fence: Fence, sorted: seq<Fence>)
    ensures multiset(Insert(fence, sorted)) == multiset{fence} + multiset(sorted)
  {
    if sorted != [] && Before(sorted[0], fence) {
      InsertPermutes(fence, sorted[1..]);
      assert sorted == [sorted[0]] + sorted[1..];
    }
  }

  lemma {:induction false} SortKeepsCounts(fences: seq<Fence>)
    ensures multiset(Sort(fences)) == multiset(fences)
  {
    if fences != [] {
      SortKeepsCounts(fences[1..]);
      InsertPermutes(fences[0], Sort(fences[1..]));
      assert fences == [fences[0]] + fences[1..];
    }
  }

  lemma SortPermutes(fences: seq<Fence>)
    ensures multiset(Sort(fences)) == multiset(fences)
    ensures |Sort(fences)| == |fences|
    ensures forall fence :: fence in Sort(fences) <==> fence in fences
  {
    SortKeepsCounts(fences);
    SameCounts(Sort(fences), fences);
  }

  lemma SameCounts(a: seq<Fence>, b: seq<Fence>)
    requires multiset(a) == multiset(b)
    ensures |a| == |b| && forall fence :: fence in a <==> fence in b
  {
    assert |a| == |multiset(a)| && |b| == |multiset(b)|;
    forall fence ensures fence in a <==> fence in b {
      assert fence in a <==> fence in multiset(a);
      assert fence in b <==> fence in multiset(b);
    }
  }

  lemma NotAfterIsTransitive(f: Fence, g: Fence, h: Fence)
    requires !Before(g, f) && !Before(h, g)
    ensures !Before(h, f)
  {
    BeforeIsTotal(f, g);
    BeforeIsTotal(g, h);
    if Before(h, f) {
      if Before(f, g) {
        BeforeIsTransitive(h, f, g);
      }
    }
  }

  lemma {:induction false} InsertSorts(fence: Fence, sorted: seq<Fence>)
    requires Sorted(sorted)
    ensures Sorted(Insert(fence, sorted))
  {
    if sorted != [] && Before(sorted[0], fence) {
      InsertSorts(fence, sorted[1..]);
      InsertPermutes(fence, sorted[1..]);
      var rest := Insert(fence, sorted[1..]);
      forall j | 0 <= j < |rest| ensures !Before(rest[j], sorted[0]) {
        BeforeIsTotal(sorted[0], fence);
        assert rest[j] in multiset(rest);
        assert rest[j] == fence || rest[j] in sorted[1..];
      }
    } else if sorted != [] {
      forall j | 0 <= j < |sorted| ensures !Before(sorted[j], fence) {
        if j > 0 {
          NotAfterIsTransitive(fence, sorted[0], sorted[j]);
        }
      }
    }
  }

  lemma {:induction false} SortSorts(fences: seq<Fence>)
    ensures Sorted(Sort(fences))
  {
    if fences != [] {
      SortSorts(fences[1..]);
      InsertSorts(fences[0], Sort(fences[1..]));
    }
  }

  /** No two different fences tie on the comparator's key; distinct fence ids are enough. */
  /** The order in terms of the fences: by repo, then by creation time, then by id. */
  lemma SortOrders(fences: seq<Fence>, i: nat, j: nat)
    requires i < j < |Sort(fences)|
    ensures var f, g := Sort(fences)[i], Sort(fences)[j];
            && !Less(g.repoId, f.repoId)
            && (f.repoId == g.repoId ==> f.createdAt <= g.createdAt)
            && (f.repoId == g.repoId && f.createdAt == g.createdAt ==> !Less(g.id, f.id))
  {
    SortSorts(fences);
    var f, g := Sort(fences)[i], Sort(fences)[j];
    LessIsAsymmetric(f.repoId, g.repoId);
    LessIsAsymmetric(f.repoId, f.repoId);
  }

  predicate TieFree(fences: seq<Fence>) {
    forall f <- fences, g <- fences :: SameKey(f, g) ==> f == g
  }

  lemma SmallestIsFirst(a: seq<Fence>, b: seq<Fence>)
    requires a != [] && Sorted(a) && Sorted(b) && multiset(a) == multiset(b) && TieFree(a)
    ensures b != [] && a[0] == b[0]
  {
    assert a[0] in multiset(b);
    assert b[0] in multiset(b);
    var i :| 0 <= i < |a| && a[i] == b[0];
    var j :| 0 <= j < |b| && b[j] == a[0];
    BeforeIsTotal(a[0], b[0]);
  }

  lemma TailCounts(a: seq<Fence>)
    requires a != []
    ensures multiset(a[1..]) == multiset(a) - multiset{a[0]}
    ensures forall fence <- a[1..] :: fence in a
  {
    assert a == [a[0]] + a[1..];
  }

  lemma {:induction false} SortedIsUnique(a: seq<Fence>, b: seq<Fence>)
    requires Sorted(a) && Sorted(b) && multiset(a) == multiset(b) && TieFree(a)
    ensures a == b
  {
    if a == [] {
      assert |multiset(b)| == 0;
    } else {
      SmallestIsFirst(a, b);
      TailCounts(a);
      TailCounts(b);
      SortedIsUnique(a[1..], b[1..]);
      assert a == [a[0]] + a[1..] && b == [b[0]] + b[1..];
    }
  }

  /** Any two orderings of a tie-free list sort to the same list. */
  lemma SortIgnoresOrder(a: seq<Fence>, b: seq<Fence>)
    requires multiset(a) == multiset(b) && TieFree(a)
    ensures Sort(a) == Sort(b)
  {
    SortPermutes(a);
    SortPermutes(b);
    SortSorts(a);
    SortSorts(b);
    SortedIsUnique(Sort(a), Sort(b));
  }
}
