/** Who points to whom: the reference counting discipline of pbuf.c on a pure graph.

    A graph records, for the allocated nodes, the link of each node, the owners outside the chains
    (with multiplicity), the predecessors of each node, and the counts the nodes carry. */
module PbufGraph {
  import opened Common

  datatype Graph<N(==)> = Graph(
    live: set<N>, next: map<N, Option<N>>, ref: map<N, nat>,
    owners: multiset<N>, preds: map<N, set<N>>, rank: map<N, nat>)

  ghost predicate Shaped<N>(g: Graph<N>) {
    && g.next.Keys == g.live && g.ref.Keys == g.live && g.preds.Keys == g.live && g.rank.Keys == g.live
    && forall q :: q in g.owners ==> q in g.live
  }

  /** The successor is allocated, nearer to the end of the chain, and knows its predecessor. */
  ghost predicate LinkOk<N>(g: Graph<N>, q: N)
    requires Shaped(g) && q in g.live
  {
    && (g.next[q].Some? ==>
          var n := g.next[q].value; n in g.live && g.rank[n] < g.rank[q] && q in g.preds[n])
    && forall r :: r in g.preds[q] ==> r in g.live && g.next[r] == Some(q)
  }

  /** The count is exactly the number of pointers, and there is at least one. */
  ghost predicate CountOk<N>(g: Graph<N>, q: N)
    requires Shaped(g) && q in g.live
  {
    g.ref[q] == g.owners[q] + |g.preds[q]| && g.ref[q] > 0
  }

  ghost predicate Exact<N>(g: Graph<N>) {
    && Shaped(g)
    && forall q {:trigger LinkOk(g, q)} {:trigger CountOk(g, q)} ::
         q in g.live ==> LinkOk(g, q) && CountOk(g, q)
  }

  // ---- the steps -------------------------------------------------------------------------

  ghost function Added<N>(g: Graph<N>, p: N): Graph<N> {
    Graph(g.live + {p}, g.next[p := None], g.ref[p := 1], g.owners + multiset{p}, g.preds[p := {}], g.rank[p := 0])
  }

  lemma AddedLink<N>(g: Graph<N>, p: N, q: N)
    requires Exact(g) && p !in g.live && q in g.live && Shaped(Added(g, p))
    ensures LinkOk(Added(g, p), q)
  {
    assert LinkOk(g, q);
    assert q != p;
    if g.next[q].Some? {
      assert g.next[q].value != p;
    }
  }

  lemma AddedCount<N>(g: Graph<N>, p: N, q: N)
    requires Exact(g) && p !in g.live && q in g.live && Shaped(Added(g, p))
    ensures CountOk(Added(g, p), q)
  {
    assert CountOk(g, q);
    assert Added(g, p).owners[q] == g.owners[q];
  }

  lemma AddedExact<N>(g: Graph<N>, p: N)
    requires Exact(g) && p !in g.live
    ensures Exact(Added(g, p))
  {
    var h := Added(g, p);
    assert Shaped(h);
    forall q | q in h.live ensures LinkOk(h, q) && CountOk(h, q) {
      if q == p {
        assert g.owners[p] == 0;
      } else {
        AddedLink(g, p, q);
        AddedCount(g, p, q);
      }
    }
  }

  ghost function Referenced<N>(g: Graph<N>, p: N): Graph<N>
    requires p in g.ref
  {
    g.(owners := g.owners + multiset{p}, ref := g.ref[p := g.ref[p] + 1])
  }

  lemma ReferencedNode<N>(g: Graph<N>, p: N, q: N)
    requires Exact(g) && p in g.live && q in g.live && Shaped(Referenced(g, p))
    ensures LinkOk(Referenced(g, p), q) && CountOk(Referenced(g, p), q)
  {
    assert LinkOk(g, q) && CountOk(g, q);
    assert Referenced(g, p).owners[q] == g.owners[q] + if q == p then 1 else 0;
  }

  lemma ReferencedExact<N>(g: Graph<N>, p: N)
    requires Exact(g) && p in g.live
    ensures Exact(Referenced(g, p))
  {
    assert Shaped(Referenced(g, p));
    forall q | q in g.live ensures LinkOk(Referenced(g, p), q) && CountOk(Referenced(g, p), q) {
      ReferencedNode(g, p, q);
    }
  }

  /** An owner gives up a pointer that is not the last one. */
  ghost function Dropped<N>(g: Graph<N>, p: N): Graph<N>
    requires p in g.ref && g.ref[p] > 1
  {
    g.(owners := g.owners - multiset{p}, ref := g.ref[p := g.ref[p] - 1])
  }

  lemma DroppedNode<N>(g: Graph<N>, p: N, q: N)
    requires Exact(g) && p in g.owners && p in g.live && g.ref[p] > 1 && q in g.live
    requires Shaped(Dropped(g, p))
    ensures LinkOk(Dropped(g, p), q) && CountOk(Dropped(g, p), q)
  {
    assert LinkOk(g, q) && CountOk(g, q);
    assert Dropped(g, p).owners[q] == g.owners[q] - if q == p then 1 else 0;
  }

  lemma DroppedExact<N>(g: Graph<N>, p: N)
    requires Exact(g) && p in g.owners && p in g.live && g.ref[p] > 1
    ensures Exact(Dropped(g, p))
  {
    assert Shaped(Dropped(g, p));
    forall q | q in g.live ensures LinkOk(Dropped(g, p), q) && CountOk(Dropped(g, p), q) {
      DroppedNode(g, p, q);
    }
  }

  /** An owner gives up the last pointer: the node goes, and its pointer to its successor passes to
      whoever goes on with the chain. */
  ghost function Removed<N>(g: Graph<N>, p: N): Graph<N>
    requires p in g.next && g.preds.Keys == g.live && g.next.Keys == g.live
    requires g.ref.Keys == g.live && g.rank.Keys == g.live
  {
    var rest := g.live - {p};
    Graph(rest,
          map q | q in rest :: g.next[q],
          map q | q in rest :: g.ref[q],
          g.owners - multiset{p} + (if g.next[p].Some? then multiset{g.next[p].value} else multiset{}),
          map q | q in rest :: g.preds[q] - {p},
          map q | q in rest :: g.rank[q])
  }

  /** Nobody else points to a node whose last pointer an owner holds. */
  lemma SolelyOwned<N>(g: Graph<N>, p: N)
    requires Exact(g) && p in g.owners && p in g.live && g.ref[p] <= 1
    ensures g.owners[p] == 1 && g.preds[p] == {}
  {
    assert CountOk(g, p);
  }

  lemma RemovedLink<N>(g: Graph<N>, p: N, q: N)
    requires Exact(g) && p in g.live && g.preds[p] == {} && q in g.live && q != p && Shaped(Removed(g, p))
    ensures LinkOk(Removed(g, p), q)
  {
    assert LinkOk(g, q);
    assert q !in g.preds[p];
  }

  lemma RemovedCount<N>(g: Graph<N>, p: N, q: N)
    requires Exact(g) && p in g.owners && p in g.live && q in g.live && q != p && Shaped(Removed(g, p))
    ensures CountOk(Removed(g, p), q)
  {
    assert CountOk(g, q);
    RemovedPreds(g, p, q);
    RemovedOwners(g, p, q);
  }

  lemma RemovedPreds<N>(g: Graph<N>, p: N, q: N)
    requires Exact(g) && p in g.live && q in g.live
    ensures |g.preds[q] - {p}| == |g.preds[q]| - if g.next[p] == Some(q) then 1 else 0
  {
    assert LinkOk(g, q) && LinkOk(g, p);
    if p in g.preds[q] {
    } else {
      assert g.preds[q] - {p} == g.preds[q];
    }
  }

  lemma RemovedOwners<N>(g: Graph<N>, p: N, q: N)
    requires Exact(g) && p in g.live && q != p
    ensures Removed(g, p).owners[q] == g.owners[q] + if g.next[p] == Some(q) then 1 else 0
  {
  }

  lemma RemovedShape<N>(g: Graph<N>, p: N)
    requires Exact(g) && p in g.live && g.owners[p] == 1
    ensures Shaped(Removed(g, p))
  {
    assert LinkOk(g, p);
    var h := Removed(g, p);
    forall q | q in h.owners ensures q in h.live {
      assert q in g.owners || g.next[p] == Some(q);
    }
  }

  lemma RemovedExact<N>(g: Graph<N>, p: N)
    requires Exact(g) && p in g.owners && p in g.live && g.ref[p] <= 1
    ensures Exact(Removed(g, p))
  {
    SolelyOwned(g, p);
    RemovedShape(g, p);
    forall q | q in g.live && q != p ensures LinkOk(Removed(g, p), q) && CountOk(Removed(g, p), q) {
      RemovedLink(g, p, q);
      RemovedCount(g, p, q);
    }
  }

  // ---- joining and cutting chains --------------------------------------------------------

  /** The nodes from `p` to the end of its chain. */
  ghost predicate IsChain<N>(g: Graph<N>, p: Option<N>, c: seq<N>) {
    && (p == None <==> c == [])
    && (c != [] ==> p == Some(c[0]))
    && forall i :: 0 <= i < |c| ==> c[i] in g.next && g.next[c[i]] == Follower(c, i)
  }

  ghost function Follower<N>(c: seq<N>, i: int): Option<N>
    requires 0 <= i < |c|
  {
    if i + 1 < |c| then Some(c[i + 1]) else None
  }

  /** The last node of one chain takes over an owner's pointer to the head of another. */
  ghost function Joined<N>(g: Graph<N>, last: N, t: N, tail: set<N>): Graph<N>
    requires Shaped(g) && last in g.live && t in g.live
  {
    g.(next := g.next[last := Some(t)],
       owners := g.owners - multiset{t},
       preds := g.preds[t := g.preds[t] + {last}],
       rank := map q | q in g.live :: if q in tail then g.rank[q] else g.rank[q] + g.rank[t] + 1)
  }

  /** Nothing leads out of a chain. */
  ghost predicate Closed<N>(g: Graph<N>, tail: set<N>) {
    forall q :: q in tail && q in g.next && g.next[q].Some? ==> g.next[q].value in tail
  }

  lemma JoinedLink<N>(g: Graph<N>, last: N, t: N, tail: set<N>, q: N)
    requires Exact(g) && last in g.live && t in g.live && g.next[last] == None
    requires t in tail && last !in tail && Closed(g, tail) && q in g.live && Shaped(Joined(g, last, t, tail))
    ensures LinkOk(Joined(g, last, t, tail), q)
  {
    assert LinkOk(g, q);
    var h := Joined(g, last, t, tail);
    if h.next[q].Some? && q != last {
      assert g.next[q].Some? && g.next[q].value in g.live;
    }
    assert LinkOk(g, last);
  }

  lemma JoinedCount<N>(g: Graph<N>, last: N, t: N, tail: set<N>, q: N)
    requires Exact(g) && last in g.live && t in g.live && g.next[last] == None && t in g.owners
    requires q in g.live && Shaped(Joined(g, last, t, tail))
    ensures CountOk(Joined(g, last, t, tail), q)
  {
    assert CountOk(g, q);
    if q == t {
      assert LinkOk(g, t);
      assert last !in g.preds[t];
      assert |g.preds[t] + {last}| == |g.preds[t]| + 1;
    }
  }

  lemma JoinedExact<N>(g: Graph<N>, last: N, t: N, tail: set<N>)
    requires Exact(g) && last in g.live && t in g.live && g.next[last] == None && t in g.owners
    requires t in tail && last !in tail && Closed(g, tail)
    ensures Exact(Joined(g, last, t, tail))
  {
    JoinedShape(g, last, t, tail);
    forall q | q in g.live ensures LinkOk(Joined(g, last, t, tail), q) && CountOk(Joined(g, last, t, tail), q) {
      JoinedLink(g, last, t, tail, q);
      JoinedCount(g, last, t, tail, q);
    }
  }

  lemma JoinedShape<N>(g: Graph<N>, last: N, t: N, tail: set<N>)
    requires Shaped(g) && last in g.live && t in g.live
    ensures Shaped(Joined(g, last, t, tail)) && Joined(g, last, t, tail).live == g.live
  {
    var h := Joined(g, last, t, tail);
    assert h.next.Keys == g.live && h.preds.Keys == g.live && h.rank.Keys == g.live;
    forall q | q in h.owners ensures q in h.live {
      assert q in g.owners;
    }
  }

  ghost predicate HasNext<N>(g: Graph<N>, p: N) {
    p in g.next && g.next[p].Some? && g.next[p].value in g.preds
  }

  /** A node gives up its link; the pointer passes to whoever cut it. */
  ghost function Cut<N>(g: Graph<N>, p: N): Graph<N>
    requires HasNext(g, p)
  {
    var n := g.next[p].value;
    g.(next := g.next[p := None], owners := g.owners + multiset{n}, preds := g.preds[n := g.preds[n] - {p}])
  }

  lemma CutExact<N>(g: Graph<N>, p: N)
    requires Exact(g) && p in g.live && g.next[p].Some?
    ensures HasNext(g, p) && Exact(Cut(g, p))
  {
    assert LinkOk(g, p);
    var n := g.next[p].value;
    var h := Cut(g, p);
    assert Shaped(h);
    forall q | q in h.live ensures LinkOk(h, q) && CountOk(h, q) {
      CutNode(g, p, q);
    }
  }

  lemma CutNode<N>(g: Graph<N>, p: N, q: N)
    requires Exact(g) && HasNext(g, p) && q in g.live && Shaped(Cut(g, p))
    ensures LinkOk(Cut(g, p), q) && CountOk(Cut(g, p), q)
  {
    assert LinkOk(g, q) && CountOk(g, q) && LinkOk(g, p);
    RemovedPreds(g, p, q);
  }

  // ---- what exact counts give ------------------------------------------------------------

  /** A node without an owner is preceded by one farther from the end. */
  lemma Higher<N>(g: Graph<N>, q: N) returns (r: N)
    requires Exact(g) && q in g.live && q !in g.owners
    ensures r in g.live && g.next[r] == Some(q) && g.rank[r] > g.rank[q]
  {
    assert CountOk(g, q) && LinkOk(g, q);
    r :| r in g.preds[q];
    assert LinkOk(g, r);
  }

  ghost predicate Path<N>(g: Graph<N>, path: seq<N>) {
    && path != [] && (forall i :: 0 <= i < |path| ==> path[i] in g.next)
    && forall i :: 0 <= i < |path| - 1 ==> g.next[path[i]] == Some(path[i + 1])
  }

  /** The nodes farther from the end than `q`. */
  ghost function Above<N>(g: Graph<N>, q: N): set<N>
    requires Shaped(g) && q in g.live
  {
    set r | r in g.live && g.rank[r] > g.rank[q]
  }

  lemma FewerAbove<N>(g: Graph<N>, r: N, q: N)
    requires Shaped(g) && q in g.live && r in g.live && g.rank[r] > g.rank[q]
    ensures |Above(g, r)| < |Above(g, q)|
  {
    assert Above(g, q) == Above(g, r) + (Above(g, q) - Above(g, r));
    assert r in Above(g, q) - Above(g, r);
  }

  lemma PathLonger<N>(g: Graph<N>, path: seq<N>, q: N)
    requires Path(g, path) && q in g.next && g.next[path[|path| - 1]] == Some(q)
    ensures Path(g, path + [q])
  {
  }

  /** Every allocated node can be reached from an owner. */
  lemma {:induction false} ReachedFromOwner<N>(g: Graph<N>, q: N) returns (path: seq<N>)
    requires Exact(g) && q in g.live
    ensures Path(g, path) && path[0] in g.owners && path[|path| - 1] == q
    decreases |Above(g, q)|
  {
    path := [q];
    if q !in g.owners {
      var r := Higher(g, q);
      FewerAbove(g, r, q);
      var front := ReachedFromOwner(g, r);
      PathLonger(g, front, q);
      path := front + [q];
    }
  }

  /** When the last owner is gone, everything has been released. */
  lemma NothingLeaks<N>(g: Graph<N>)
    requires Exact(g) && g.owners == multiset{}
    ensures g.live == {}
  {
    if q :| q in g.live {
      var path := ReachedFromOwner(g, q);
      assert false;
    }
  }

  /** Chains exist: from every allocated node there is exactly one list to the end. */
  lemma {:induction false} ChainFrom<N>(g: Graph<N>, p: Option<N>) returns (c: seq<N>)
    requires Exact(g) && (p.Some? ==> p.value in g.live)
    ensures IsChain(g, p, c)
    ensures forall i :: 0 <= i < |c| ==> c[i] in g.live && (i > 0 ==> g.rank[c[i]] < g.rank[c[0]])
    decreases if p.Some? then g.rank[p.value] + 1 else 0
  {
    if p.None? {
      c := [];
    } else {
      assert LinkOk(g, p.value);
      var rest := ChainFrom(g, g.next[p.value]);
      c := [p.value] + rest;
      ChainLonger(g, p.value, rest);
    }
  }

  lemma {:induction false} ChainUnique<N>(g: Graph<N>, p: Option<N>, c: seq<N>, d: seq<N>)
    requires IsChain(g, p, c) && IsChain(g, p, d)
    ensures c == d
    decreases |c|
  {
    if c != [] {
      ChainRest(g, p, c);
      ChainRest(g, p, d);
      ChainUnique(g, g.next[c[0]], c[1..], d[1..]);
      assert c == [c[0]] + c[1..] && d == [d[0]] + d[1..];
    }
  }

  lemma ChainRest<N>(g: Graph<N>, p: Option<N>, c: seq<N>)
    requires IsChain(g, p, c) && c != []
    ensures IsChain(g, g.next[c[0]], c[1..])
  {
    assert g.next[c[0]] == Follower(c, 0);
    forall i | 0 <= i < |c[1..]|
      ensures c[1..][i] in g.next && g.next[c[1..][i]] == Follower(c[1..], i)
    {
      assert c[1..][i] == c[i + 1] && Follower(c[1..], i) == Follower(c, i + 1);
    }
  }

  lemma ChainLonger<N>(g: Graph<N>, p: N, c: seq<N>)
    requires p in g.next && IsChain(g, g.next[p], c)
    ensures IsChain(g, Some(p), [p] + c)
  {
    var d := [p] + c;
    forall i | 0 <= i < |d|
      ensures d[i] in g.next && g.next[d[i]] == Follower(d, i)
    {
      if i > 0 {
        assert d[i] == c[i - 1] && Follower(d, i) == Follower(c, i - 1);
      }
    }
  }

  lemma ChainStep<N>(g: Graph<N>, c: seq<N>, j: nat)
    requires Exact(g) && c != [] && IsChain(g, Some(c[0]), c) && j + 1 < |c|
    ensures g.rank[c[j + 1]] < g.rank[c[j]]
  {
    assert c[j] in g.next && g.next[c[j]] == Follower(c, j);
    assert LinkOk(g, c[j]);
  }

  /** Along a chain the end comes nearer, so no node repeats. */
  lemma {:induction false} ChainFalls<N>(g: Graph<N>, c: seq<N>, i: nat, j: nat)
    requires Exact(g) && c != [] && IsChain(g, Some(c[0]), c) && i < j < |c|
    ensures g.rank[c[j]] < g.rank[c[i]]
    decreases j
  {
    ChainStep(g, c, j - 1);
    if i < j - 1 {
      ChainFalls(g, c, i, j - 1);
    }
  }

  ghost predicate Distinct<N>(c: seq<N>) {
    forall i, j :: 0 <= i < j < |c| ==> c[i] != c[j]
  }

  lemma ChainDistinct<N>(g: Graph<N>, p: Option<N>, c: seq<N>)
    requires Exact(g) && IsChain(g, p, c)
    ensures Distinct(c)
  {
    forall i, j | 0 <= i < j < |c| ensures c[i] != c[j] {
      ChainFalls(g, c, i, j);
    }
  }

  ghost predicate Apart<N>(c: seq<N>, d: seq<N>) {
    forall q :: q in c ==> q !in d
  }

  /** Appending a chain to another gives the concatenation. */
  lemma JoinedChain<N>(g: Graph<N>, c: seq<N>, d: seq<N>)
    requires Exact(g) && c != [] && d != [] && Apart(c, d)
    requires IsChain(g, Some(c[0]), c) && IsChain(g, Some(d[0]), d)
    requires Last(c) in g.live && d[0] in g.live
    ensures IsChain(Joined(g, Last(c), d[0], Elements(d)), Some(c[0]), c + d)
  {
    ChainDistinct(g, Some(c[0]), c);
    var h := Joined(g, Last(c), d[0], Elements(d));
    forall i | 0 <= i < |c + d| ensures (c + d)[i] in h.next && h.next[(c + d)[i]] == Follower(c + d, i) {
      JoinedPlace(g, c, d, i);
    }
  }

  lemma JoinedPlace<N>(g: Graph<N>, c: seq<N>, d: seq<N>, i: nat)
    requires Shaped(g) && c != [] && d != [] && Apart(c, d) && Distinct(c) && i < |c + d|
    requires IsChain(g, Some(c[0]), c) && IsChain(g, Some(d[0]), d)
    requires Last(c) in g.live && d[0] in g.live
    ensures (c + d)[i] in Joined(g, Last(c), d[0], Elements(d)).next
    ensures Joined(g, Last(c), d[0], Elements(d)).next[(c + d)[i]] == Follower(c + d, i)
  {
    if i < |c| {
      assert g.next[c[i]] == Follower(c, i);
    } else {
      assert (c + d)[i] == d[i - |c|] && d[i - |c|] in d;
      assert g.next[d[i - |c|]] == Follower(d, i - |c|);
    }
  }

  ghost function Last<N>(c: seq<N>): N
    requires c != []
  {
    c[|c| - 1]
  }

  /** A chain that neither chain touches stays a chain. */
  lemma JoinedElsewhere<N>(g: Graph<N>, last: N, t: N, tail: set<N>, p: Option<N>, c: seq<N>)
    requires Shaped(g) && last in g.live && t in g.live && IsChain(g, p, c) && last !in c
    ensures IsChain(Joined(g, last, t, tail), p, c)
  {
    forall i | 0 <= i < |c| ensures c[i] in g.next && Joined(g, last, t, tail).next[c[i]] == Follower(c, i) {
      assert c[i] in c;
    }
  }

  lemma ChainIsClosed<N>(g: Graph<N>, c: seq<N>)
    requires c != [] && IsChain(g, Some(c[0]), c)
    ensures Closed(g, Elements(c))
  {
    forall q | q in Elements(c) && q in g.next && g.next[q].Some? ensures g.next[q].value in Elements(c) {
      var i :| 0 <= i < |c| && c[i] == q;
      assert g.next[c[i]] == Follower(c, i);
    }
  }

  // ---- giving up a pointer ---------------------------------------------------------------

  /** What pbuf_free leaves: nodes go from `p` on for as long as the pointer given up is the last. */
  ghost function Freed<N>(g: Graph<N>, p: N): (h: Graph<N>)
    requires Exact(g) && p in g.owners
    ensures Exact(h) && h.owners == g.owners - multiset{p} && h.live <= g.live
    decreases |g.live|
  {
    if g.ref[p] > 1 then
      DroppedExact(g, p);
      Dropped(g, p)
    else
      RemovedExact(g, p);
      RemovedSmaller(g, p);
      if g.next[p].Some? then Freed(Removed(g, p), g.next[p].value) else Removed(g, p)
  }

  /** The nodes that go, in order. */
  ghost function Goes<N>(g: Graph<N>, p: N): seq<N>
    requires Exact(g) && p in g.owners
    decreases |g.live|
  {
    if g.ref[p] > 1 then
      []
    else
      RemovedExact(g, p);
      RemovedSmaller(g, p);
      [p] + if g.next[p].Some? then Goes(Removed(g, p), g.next[p].value) else []
  }

  lemma RemovedSmaller<N>(g: Graph<N>, p: N)
    requires Exact(g) && p in g.live
    ensures |Removed(g, p).live| < |g.live|
    ensures g.next[p].Some? ==> g.next[p].value in Removed(g, p).owners
  {
  }

  /** One round of the loop of pbuf_free that releases a node. */
  lemma FreedStep<N>(g: Graph<N>, p: N)
    requires Exact(g) && p in g.owners && g.ref[p] <= 1
    ensures Exact(Removed(g, p)) && Removed(g, p).live == g.live - {p} && |Removed(g, p).live| < |g.live|
    ensures g.next[p].Some? ==>
              var n := g.next[p].value;
              && n in Removed(g, p).owners && Freed(g, p) == Freed(Removed(g, p), n)
              && Goes(g, p) == [p] + Goes(Removed(g, p), n)
    ensures g.next[p].None? ==> Freed(g, p) == Removed(g, p) && Goes(g, p) == [p]
  {
    RemovedExact(g, p);
    RemovedSmaller(g, p);
  }

  lemma OneGone<N>(before: set<N>, rest: set<N>, after: set<N>, p: N)
    requires p in before && rest == before - {p} && after <= rest
    ensures |before - after| == 1 + |rest - after|
  {
    assert before - after == {p} + (rest - after);
  }

  /** A round that releases a node: what is left to free, as a graph of its own. */
  lemma FirstGoes<N>(g: Graph<N>, p: N) returns (h: Graph<N>)
    requires Exact(g) && p in g.owners && g.ref[p] <= 1 && g.next[p].Some?
    ensures Exact(h) && h.live == g.live - {p} && |h.live| < |g.live| && g.next[p].value in h.owners
    ensures Freed(g, p) == Freed(h, g.next[p].value) && Goes(g, p) == [p] + Goes(h, g.next[p].value)
  {
    FreedStep(g, p);
    h := Removed(g, p);
  }

  /** The nodes that go, counted: the head is among them unless there are none. */
  lemma {:induction false} CountGone<N>(g: Graph<N>, p: N)
    requires Exact(g) && p in g.owners
    ensures |Goes(g, p)| == |g.live - Freed(g, p).live|
    ensures p in Freed(g, p).live <==> |Goes(g, p)| == 0
    decreases |g.live|
  {
    if g.ref[p] <= 1 && g.next[p].Some? {
      var h := FirstGoes(g, p);
      CountGone(h, g.next[p].value);
      OneGone(g.live, h.live, Freed(g, p).live, p);
    } else {
      CountAtEnd(g, p);
    }
  }

  lemma CountAtEnd<N>(g: Graph<N>, p: N)
    requires Exact(g) && p in g.owners && (g.ref[p] > 1 || g.next[p].None?)
    ensures |Goes(g, p)| == |g.live - Freed(g, p).live|
    ensures p in Freed(g, p).live <==> |Goes(g, p)| == 0
  {
    if g.ref[p] > 1 {
      assert Freed(g, p).live == g.live && g.live - g.live == {};
    } else {
      FreedStep(g, p);
      OneGone(g.live, Freed(g, p).live, Freed(g, p).live, p);
      assert Freed(g, p).live - Freed(g, p).live == {};
    }
  }

  /** The loop of pbuf_free: `n` nodes are gone, and the pointer to `cur` is still to be given up. */
  ghost predicate Freeing<N>(start: Graph<N>, p: N, g: Graph<N>, cur: Option<N>, n: nat)
    requires Exact(start) && p in start.owners
  {
    && Exact(g)
    && match cur
       case None => g == Freed(start, p) && n == |Goes(start, p)|
       case Some(q) => q in g.owners && Freed(start, p) == Freed(g, q) && |Goes(start, p)| == n + |Goes(g, q)|
  }

  lemma FreeingGoesOn<N>(start: Graph<N>, p: N, g: Graph<N>, q: N, n: nat)
    requires Exact(start) && p in start.owners && Freeing(start, p, g, Some(q), n) && g.ref[q] <= 1
    ensures Freeing(start, p, Removed(g, q), g.next[q], n + 1) && |Removed(g, q).live| < |g.live|
  {
    FreedStep(g, q);
  }

  lemma FreeingEnds<N>(start: Graph<N>, p: N, g: Graph<N>, q: N, n: nat)
    requires Exact(start) && p in start.owners && Freeing(start, p, g, Some(q), n) && g.ref[q] > 1
    ensures Freeing(start, p, Dropped(g, q), None, n)
  {
    DroppedExact(g, q);
  }

  lemma RemovedKeeps<N>(g: Graph<N>, p: N, q: N)
    requires Exact(g) && p in g.live && q in g.live && q != p
    ensures q in Removed(g, p).live
    ensures Removed(g, p).next[q] == g.next[q] && Removed(g, p).ref[q] == g.ref[q]
  {
  }

  /** Where pbuf_free stops: at the first node of the chain that is still held, or at its end. */
  ghost predicate Stops<N>(g: Graph<N>, c: seq<N>, k: nat)
    requires forall i :: 0 <= i < |c| ==> c[i] in g.ref
  {
    k <= |c| && (forall i :: 0 <= i < k ==> g.ref[c[i]] == 1) && (k < |c| ==> g.ref[c[k]] > 1)
  }

  /** The count of `q` after pbuf_free stopped at place `k` of chain `c`. */
  ghost function CountAfter<N>(g: Graph<N>, c: seq<N>, k: nat, q: N): int
    requires q in g.ref
  {
    var n: int := g.ref[q];
    if k < |c| && q == c[k] then n - 1 else n
  }

  /** pbuf_free is given a pointer to the head of chain `c` and stops at place `k`. */
  ghost predicate Frees<N>(g: Graph<N>, c: seq<N>, k: nat) {
    && Exact(g) && c != [] && c[0] in g.owners && IsChain(g, Some(c[0]), c)
    && (forall i :: 0 <= i < |c| ==> c[i] in g.ref) && Stops(g, c, k)
  }

  /** What is left to free after the head is gone. */
  lemma RestIsFreed<N>(g: Graph<N>, c: seq<N>, k: nat) returns (h: Graph<N>)
    requires Frees(g, c, k) && k > 0 && |c| > 1
    ensures Frees(h, c[1..], k - 1) && c[1] in h.owners && h.live == g.live - {c[0]}
    ensures forall q :: q in h.live ==> h.ref[q] == g.ref[q]
    ensures Freed(g, c[0]) == Freed(h, c[1]) && Goes(g, c[0]) == [c[0]] + Goes(h, c[1])
  {
    assert g.next[c[0]] == Follower(c, 0);
    FreedStep(g, c[0]);
    RestIsAChain(g, c);
    RestStops(g, c, k);
    h := Removed(g, c[0]);
    assert c[1..][0] == c[1];
    forall q | q in h.live ensures h.ref[q] == g.ref[q] {
      RemovedKeeps(g, c[0], q);
    }
  }

  lemma LastIsFreed<N>(g: Graph<N>, c: seq<N>, k: nat)
    requires Frees(g, c, k) && k > 0 && |c| == 1
    ensures Freed(g, c[0]) == Removed(g, c[0]) && Goes(g, c[0]) == c && k == 1
  {
    assert g.next[c[0]] == Follower(c, 0);
    FreedStep(g, c[0]);
  }

  lemma NothingIsFreed<N>(g: Graph<N>, c: seq<N>)
    requires Frees(g, c, 0)
    ensures Goes(g, c[0]) == [] && Freed(g, c[0]) == Dropped(g, c[0])
  {
  }

  lemma OneMore<N>(c: seq<N>, k: nat, goes: seq<N>, before: set<N>, rest: set<N>, after: set<N>)
    requires 0 < k <= |c| && goes == c[1..][..k - 1]
    requires rest == before - {c[0]} && after == rest - Elements(c[1..][..k - 1])
    ensures [c[0]] + goes == c[..k] && after == before - Elements(c[..k])
  {
    assert c[1..][..k - 1] == c[1..k];
    ElementsOfPrefix(c, k);
  }

  ghost predicate FreesPrefix<N>(g: Graph<N>, c: seq<N>, k: nat)
    requires Frees(g, c, k)
  {
    Goes(g, c[0]) == c[..k] && Freed(g, c[0]).live == g.live - Elements(c[..k])
  }

  /** What goes is exactly the part of the chain held by single pointers. */
  lemma FreedIsAPrefix<N>(g: Graph<N>, c: seq<N>, k: nat)
    requires Frees(g, c, k)
    ensures Goes(g, c[0]) == c[..k]
    ensures Freed(g, c[0]).live == g.live - Elements(c[..k])
  {
    PrefixIsFreed(g, c, k);
  }

  lemma {:induction false} PrefixIsFreed<N>(g: Graph<N>, c: seq<N>, k: nat)
    requires Frees(g, c, k)
    ensures FreesPrefix(g, c, k)
    decreases |c|
  {
    if k == 0 || |c| == 1 {
      PrefixAtEnd(g, c, k);
    } else {
      var h := RestIsFreed(g, c, k);
      PrefixIsFreed(h, c[1..], k - 1);
      FreedFromRest(g, c, k, Goes(h, c[1..][0]), h.live);
    }
  }

  lemma PrefixAtEnd<N>(g: Graph<N>, c: seq<N>, k: nat)
    requires Frees(g, c, k) && (k == 0 || |c| == 1)
    ensures FreesPrefix(g, c, k)
  {
    if k == 0 {
      NothingIsFreed(g, c);
    } else {
      LastIsFreed(g, c, k);
    }
  }

  lemma FreedFromRest<N>(g: Graph<N>, c: seq<N>, k: nat, goes: seq<N>, rest: set<N>)
    requires Frees(g, c, k) && k > 0
    requires Goes(g, c[0]) == [c[0]] + goes && goes == c[1..][..k - 1]
    requires rest == g.live - {c[0]} && Freed(g, c[0]).live == rest - Elements(c[1..][..k - 1])
    ensures FreesPrefix(g, c, k)
  {
    OneMore(c, k, goes, g.live, rest, Freed(g, c[0]).live);
  }

  /** The count behind what goes drops by one; every other count stays. */
  lemma {:induction false} FreedCounts<N>(g: Graph<N>, c: seq<N>, k: nat, q: N)
    requires Frees(g, c, k) && q in Freed(g, c[0]).live
    ensures Freed(g, c[0]).ref[q] == CountAfter(g, c, k, q)
    decreases |c|
  {
    if k == 0 {
      NothingIsFreed(g, c);
    } else if |c| > 1 {
      FreedCountsStep(g, c, k, q);
    } else {
      LastIsFreed(g, c, k);
      RemovedKeeps(g, c[0], q);
    }
  }

  lemma {:induction false} FreedCountsStep<N>(g: Graph<N>, c: seq<N>, k: nat, q: N)
    requires Frees(g, c, k) && k > 0 && |c| > 1 && q in Freed(g, c[0]).live
    ensures Freed(g, c[0]).ref[q] == CountAfter(g, c, k, q)
    decreases |c|, 0
  {
    var h := RestIsFreed(g, c, k);
    FreedCounts(h, c[1..], k - 1, q);
    assert q in h.live;
  }

  ghost function Elements<N>(c: seq<N>): set<N> {
    set q | q in c
  }

  lemma ElementsOfPrefix<N>(c: seq<N>, k: nat)
    requires 0 < k <= |c|
    ensures c[..k] == [c[0]] + c[1..k] && Elements(c[..k]) == {c[0]} + Elements(c[1..k])
  {
    assert c[..k] == [c[0]] + c[1..k];
  }

  lemma RestIsAChain<N>(g: Graph<N>, c: seq<N>)
    requires Exact(g) && |c| > 1 && c[0] in g.live && IsChain(g, Some(c[0]), c)
    ensures IsChain(Removed(g, c[0]), Some(c[1]), c[1..])
  {
    ChainRest(g, Some(c[0]), c);
    assert g.next[c[0]] == Follower(c, 0);
    forall i | 0 <= i < |c[1..]|
      ensures c[1..][i] in Removed(g, c[0]).next && Removed(g, c[0]).next[c[1..][i]] == Follower(c[1..], i)
    {
      ChainFalls(g, c, 0, i + 1);
    }
  }

  lemma RestStops<N>(g: Graph<N>, c: seq<N>, k: nat)
    requires Exact(g) && |c| > 1 && c[0] in g.live && IsChain(g, Some(c[0]), c)
    requires (forall i :: 0 <= i < |c| ==> c[i] in g.ref) && k > 0 && Stops(g, c, k)
    ensures forall i :: 0 <= i < |c[1..]| ==> c[1..][i] in Removed(g, c[0]).ref
    ensures Stops(Removed(g, c[0]), c[1..], k - 1)
  {
    forall i | 0 <= i < |c[1..]| ensures c[1..][i] == c[i + 1] && c[i + 1] != c[0] {
      ChainFalls(g, c, 0, i + 1);
    }
  }

  /** pbuf_free keeps the links of what stays. */
  lemma {:induction false} FreedKeepsLink<N>(g: Graph<N>, p: N, q: N)
    requires Exact(g) && p in g.owners && q in Freed(g, p).live
    ensures Freed(g, p).next[q] == g.next[q]
    decreases |g.live|
  {
    if g.ref[p] <= 1 {
      FreedStep(g, p);
      assert q != p;
      RemovedKeeps(g, p, q);
      if g.next[p].Some? {
        FreedKeepsLink(Removed(g, p), g.next[p].value, q);
      }
    }
  }

  /** `path` leads along the links from one of the given owners to `q`. */
  ghost predicate Reaches<N>(g: Graph<N>, from: multiset<N>, path: seq<N>, q: N) {
    Path(g, path) && path[0] in from && path[|path| - 1] == q
  }

  /** pbuf_free(p) releases exactly the nodes that none of the remaining owners can reach. */
  lemma FreesExactlyTheUnreachable<N>(g: Graph<N>, p: N, q: N)
    requires Exact(g) && p in g.owners && q in g.live
    ensures q in Freed(g, p).live <==> exists path :: Reaches(g, g.owners - multiset{p}, path, q)
  {
    var h := Freed(g, p);
    forall r | r in h.live ensures h.next[r] == g.next[r] {
      FreedKeepsLink(g, p, r);
    }
    if q in h.live {
      var path := ReachedFromOwner(h, q);
      assert Reaches(g, g.owners - multiset{p}, path, q);
    }
    if path :| Reaches(g, g.owners - multiset{p}, path, q) {
      StaysAllocated(g, h, path);
    }
  }

  lemma {:induction false} StaysAllocated<N>(g: Graph<N>, h: Graph<N>, path: seq<N>)
    requires Exact(h) && Path(g, path) && path[0] in h.owners
    requires forall q :: q in h.live ==> q in g.next && h.next[q] == g.next[q]
    ensures path[|path| - 1] in h.live
    decreases |path|
  {
    if |path| > 1 {
      StaysAllocated(g, h, path[..|path| - 1]);
      assert LinkOk(h, path[|path| - 2]);
    }
  }

  /** Cutting a chain of single pointers behind its head leaves a rest that pbuf_free releases whole. */
  lemma CutRestIsFreed<N>(g: Graph<N>, c: seq<N>)
    requires Exact(g) && |c| > 1 && IsChain(g, Some(c[0]), c) && c[0] in g.live
    requires forall i :: 0 <= i < |c| ==> c[i] in g.ref && g.ref[c[i]] == 1
    ensures HasNext(g, c[0]) && g.next[c[0]] == Some(c[1])
    ensures Frees(Cut(g, c[0]), c[1..], |c| - 1)
  {
    assert g.next[c[0]] == Follower(c, 0);
    CutExact(g, c[0]);
    ChainDistinct(g, Some(c[0]), c);
    var h, rest := Cut(g, c[0]), c[1..];
    forall i | 0 <= i < |rest|
      ensures rest[i] in h.next && h.next[rest[i]] == Follower(rest, i) && h.ref[rest[i]] == 1
    {
      assert rest[i] == c[i + 1] && c[i + 1] != c[0] && g.next[c[i + 1]] == Follower(c, i + 1);
    }
  }
}
