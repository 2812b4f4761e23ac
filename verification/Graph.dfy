/** Directed multigraphs given as a list of arcs: open-arc counting, cycles and ranks. */
module Graph {

  datatype Arc<T> = Arc(src: T, dst: T)

  ghost predicate Distinct<T>(s: seq<T>) {
    forall i, j :: 0 <= i < j < |s| ==> s[i] != s[j]
  }

  /** How many arcs from position `k` on enter `n` and are not closed yet. */
  ghost function Open<T>(arcs: seq<Arc<T>>, k: nat, n: T, closed: set<nat>): nat
    requires k <= |arcs|
    decreases |arcs| - k
  {
    if k == |arcs| then 0
    else (if arcs[k].dst == n && k !in closed then 1 else 0) + Open(arcs, k + 1, n, closed)
  }

  /** Positions, in order, of the arcs from `k` on that leave `s`. */
  ghost function Leaving<T>(arcs: seq<Arc<T>>, k: nat, s: T): seq<nat>
    requires k <= |arcs|
    decreases |arcs| - k
  {
    if k == |arcs| then []
    else (if arcs[k].src == s then [k] else []) + Leaving(arcs, k + 1, s)
  }

  lemma {:induction false} LeavingExact<T>(arcs: seq<Arc<T>>, k: nat, s: T)
    requires k <= |arcs|
    ensures var out := Leaving(arcs, k, s);
            && (forall i :: i in out <==> k <= i < |arcs| && arcs[i].src == s)
            && (forall x, y :: 0 <= x < y < |out| ==> out[x] < out[y])
    decreases |arcs| - k
  {
    if k < |arcs| {
      LeavingExact(arcs, k + 1, s);
      var rest := Leaving(arcs, k + 1, s);
      forall x | 0 <= x < |rest| ensures rest[x] > k {
        assert rest[x] in rest;
      }
      if arcs[k].src == s {
        assert Leaving(arcs, k, s) == [k] + rest;
        ConsMembers(k, rest);
      } else {
        assert Leaving(arcs, k, s) == rest;
      }
    }
  }

  lemma ConsMembers(k: nat, rest: seq<nat>)
    ensures forall i :: i in [k] + rest <==> i == k || i in rest
  {
  }

  lemma {:induction false} OpenZero<T>(arcs: seq<Arc<T>>, k: nat, n: T, closed: set<nat>)
    requires k <= |arcs|
    ensures Open(arcs, k, n, closed) == 0 <==>
            forall i :: k <= i < |arcs| && arcs[i].dst == n ==> i in closed
    decreases |arcs| - k
  {
    if k < |arcs| {
      OpenZero(arcs, k + 1, n, closed);
    }
  }

  ghost function OpenArcs<T>(arcs: seq<Arc<T>>, k: nat, n: T, closed: set<nat>): set<nat> {
    set i: nat | k <= i < |arcs| && arcs[i].dst == n && i !in closed
  }

  /** The open arcs into `n` are counted one by one. */
  lemma {:induction false} OpenCounts<T>(arcs: seq<Arc<T>>, k: nat, n: T, closed: set<nat>)
    requires k <= |arcs|
    ensures Open(arcs, k, n, closed) == |OpenArcs(arcs, k, n, closed)|
    decreases |arcs| - k
  {
    if k < |arcs| {
      OpenCounts(arcs, k + 1, n, closed);
      var rest := OpenArcs(arcs, k + 1, n, closed);
      assert OpenArcs(arcs, k, n, closed) == if arcs[k].dst == n && k !in closed then rest + {k} else rest;
    }
  }

  /** Closing an open arc lowers the count of its target by one and no other count. */
  lemma {:induction false} OpenClose<T>(arcs: seq<Arc<T>>, k: nat, n: T, closed: set<nat>, i: nat)
    requires k <= |arcs| && i < |arcs| && i !in closed
    ensures Open(arcs, k, n, closed) ==
            Open(arcs, k, n, closed + {i}) + (if k <= i && arcs[i].dst == n then 1 else 0)
    decreases |arcs| - k
  {
    if k < |arcs| {
      OpenClose(arcs, k + 1, n, closed, i);
    }
  }

  /** A closed walk: the head of every arc is the tail of the next one, cyclically. */
  ghost predicate IsCycle<T>(arcs: seq<Arc<T>>, walk: seq<nat>) {
    && walk != []
    && (forall k :: 0 <= k < |walk| ==> walk[k] < |arcs|)
    && (forall k :: 0 <= k < |walk| - 1 ==> arcs[walk[k]].dst == arcs[walk[k + 1]].src)
    && arcs[walk[|walk| - 1]].dst == arcs[walk[0]].src
  }

  ghost predicate Acyclic<T>(arcs: seq<Arc<T>>) {
    forall walk: seq<nat> :: !IsCycle(arcs, walk)
  }

  /** `rank` is a topological numbering: every arc goes from a lower to a higher rank. */
  ghost predicate Ranks<T>(arcs: seq<Arc<T>>, rank: map<T, nat>) {
    forall k :: 0 <= k < |arcs| ==>
                  arcs[k].src in rank && arcs[k].dst in rank && rank[arcs[k].src] < rank[arcs[k].dst]
  }

  lemma {:induction false} RankGrows<T>(arcs: seq<Arc<T>>, rank: map<T, nat>, walk: seq<nat>, k: nat)
    requires Ranks(arcs, rank) && IsCycle(arcs, walk) && k < |walk|
    ensures rank[arcs[walk[k]].src] >= rank[arcs[walk[0]].src] + k
  {
    if k > 0 {
      RankGrows(arcs, rank, walk, k - 1);
    }
  }

  /** A topological numbering rules out every cycle. */
  lemma RankedIsAcyclic<T>(arcs: seq<Arc<T>>, rank: map<T, nat>)
    requires Ranks(arcs, rank)
    ensures Acyclic(arcs)
  {
    forall walk: seq<nat> | IsCycle(arcs, walk) ensures false {
      RankGrows(arcs, rank, walk, |walk| - 1);
    }
  }

  ghost predicate EnteredFrom<T>(arcs: seq<Arc<T>>, stuck: set<T>, n: T) {
    exists i :: 0 <= i < |arcs| && arcs[i].dst == n && arcs[i].src in stuck
  }

  /** Every node of `stuck` is entered from a node of `stuck`. */
  ghost predicate Stuck<T>(arcs: seq<Arc<T>>, stuck: set<T>) {
    forall n {:trigger EnteredFrom(arcs, stuck, n)} :: n in stuck ==> EnteredFrom(arcs, stuck, n)
  }

  /** `path` follows arcs backwards: each arc ends where the one before it starts. */
  ghost predicate Backwards<T>(arcs: seq<Arc<T>>, path: seq<nat>) {
    && (forall k :: 0 <= k < |path| ==> path[k] < |arcs|)
    && (forall k :: 0 < k < |path| ==> arcs[path[k]].dst == arcs[path[k - 1]].src)
  }

  ghost predicate Visits<T>(arcs: seq<Arc<T>>, path: seq<nat>, n: T)
    requires Backwards(arcs, path)
  {
    exists j :: 0 <= j < |path| && arcs[path[j]].src == n
  }

  /** A backward path whose next arc starts at a node already visited closes a cycle. */
  lemma CloseCycle<T>(arcs: seq<Arc<T>>, path: seq<nat>, i: nat, j: nat)
    requires Backwards(arcs, path + [i])
    requires j < |path| && path[j] < |arcs| && i < |arcs| && arcs[path[j]].src == arcs[i].src
    ensures !Acyclic(arcs)
  {
    var p, m := path + [i], |path|;
    var walk := seq(m - j, k requires 0 <= k < m - j => p[m - k]);
    forall k | 0 <= k < |walk| - 1 ensures arcs[walk[k]].dst == arcs[walk[k + 1]].src {
      assert arcs[p[m - k]].dst == arcs[p[m - k - 1]].src;
    }
    assert walk[|walk| - 1] == p[j + 1] && arcs[p[j + 1]].dst == arcs[p[j]].src;
    assert IsCycle(arcs, walk);
  }

  /** Walks backwards inside `stuck`; `left` holds the nodes not visited yet. */
  lemma {:induction false} BackwardWalk<T>(arcs: seq<Arc<T>>, stuck: set<T>, path: seq<nat>, left: set<T>)
    requires Stuck(arcs, stuck) && Backwards(arcs, path) && path != []
    requires arcs[path[|path| - 1]].src in stuck
    requires forall n :: n in stuck && n !in left ==> Visits(arcs, path, n)
    ensures !Acyclic(arcs)
    decreases left
  {
    var last := arcs[path[|path| - 1]].src;
    assert EnteredFrom(arcs, stuck, last);
    var i :| 0 <= i < |arcs| && arcs[i].dst == last && arcs[i].src in stuck;
    var path' := path + [i];
    if arcs[i].src in left {
      forall n | n in stuck && n !in left - {arcs[i].src} ensures Visits(arcs, path', n) {
        if n == arcs[i].src {
          assert arcs[path'[|path|]].src == n;
        } else {
          var j :| 0 <= j < |path| && arcs[path[j]].src == n;
          assert arcs[path'[j]].src == n;
        }
      }
      BackwardWalk(arcs, stuck, path', left - {arcs[i].src});
    } else {
      var j :| 0 <= j < |path| && arcs[path[j]].src == arcs[i].src;
      CloseCycle(arcs, path, i, j);
    }
  }

  /** A non-empty set of nodes that wait for each other contains a cycle. */
  lemma StuckHasCycle<T>(arcs: seq<Arc<T>>, stuck: set<T>)
    requires Stuck(arcs, stuck) && stuck != {}
    ensures !Acyclic(arcs)
  {
    var n :| n in stuck;
    assert EnteredFrom(arcs, stuck, n);
    var i :| 0 <= i < |arcs| && arcs[i].dst == n && arcs[i].src in stuck;
    assert [i][0] == i;
    BackwardWalk(arcs, stuck, [i], stuck - {arcs[i].src});
  }
}
