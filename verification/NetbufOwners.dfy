/** Which netbuf owns which pbufs: the bookkeeping behind netbuf.c, on the graph of pointers.

    Under sole ownership every pbuf carries the count one and lies in the chain of one netbuf, or is
    lost: no netbuf leads to it any more and nobody can free it. */
module NetbufOwners {
  import opened Common
  import opened PbufGraph

  datatype Books<B(==), N(==)> = Books(g: Graph<N>, chain: map<B, seq<N>>, home: map<N, Option<B>>)

  ghost function Head<N>(c: seq<N>): Option<N> {
    if c == [] then None else Some(c[0])
  }

  /** A netbuf holds a chain, has the pointer to its head, and is the home of its pbufs. */
  ghost predicate BufferOk<B, N>(s: Books<B, N>, b: B)
    requires b in s.chain
  {
    && IsChain(s.g, Head(s.chain[b]), s.chain[b])
    && (s.chain[b] != [] ==> s.chain[b][0] in s.g.owners)
    && forall q :: q in s.chain[b] ==> q in s.home && s.home[q] == Some(b)
  }

  /** A pbuf is pointed to once, and lies in the chain of its home. */
  ghost predicate PlaceOk<B, N>(s: Books<B, N>, q: N)
    requires q in s.home
  {
    && q in s.g.ref && s.g.ref[q] == 1
    && (s.home[q].Some? ==> s.home[q].value in s.chain && q in s.chain[s.home[q].value])
  }

  ghost predicate Sound<B, N>(s: Books<B, N>) {
    && Exact(s.g) && s.home.Keys == s.g.live
    && (forall b {:trigger BufferOk(s, b)} :: b in s.chain ==> BufferOk(s, b))
    && (forall q {:trigger PlaceOk(s, q)} :: q in s.home ==> PlaceOk(s, q))
  }

  // ---- steps -----------------------------------------------------------------------------

  ghost function Opened<B, N>(s: Books<B, N>, b: B): Books<B, N> {
    s.(chain := s.chain[b := []])
  }

  lemma OpenedSound<B, N>(s: Books<B, N>, b: B)
    requires Sound(s) && b !in s.chain
    ensures Sound(Opened(s, b))
  {
    var h := Opened(s, b);
    forall c | c in h.chain ensures BufferOk(h, c) {
      if c != b {
        assert BufferOk(s, c);
      }
    }
    forall q | q in h.home ensures PlaceOk(h, q) {
      assert PlaceOk(s, q);
    }
  }

  ghost function Shut<B, N>(s: Books<B, N>, b: B): Books<B, N> {
    s.(chain := s.chain - {b})
  }

  lemma ShutSound<B, N>(s: Books<B, N>, b: B)
    requires Sound(s) && b in s.chain && s.chain[b] == []
    ensures Sound(Shut(s, b))
  {
    var h := Shut(s, b);
    forall c | c in h.chain ensures BufferOk(h, c) {
      assert BufferOk(s, c);
    }
    forall q | q in h.home ensures PlaceOk(h, q) {
      assert PlaceOk(s, q);
    }
  }

  ghost function Filled<B, N>(s: Books<B, N>, b: B, q: N): Books<B, N> {
    Books(Added(s.g, q), s.chain[b := [q]], s.home[q := Some(b)])
  }

  lemma FilledBuffer<B, N>(s: Books<B, N>, b: B, q: N, c: B)
    requires Sound(s) && b in s.chain && s.chain[b] == [] && q !in s.g.live && c in Filled(s, b, q).chain
    ensures BufferOk(Filled(s, b, q), c)
  {
    assert BufferOk(s, c);
    var h := Filled(s, b, q);
    if c == b {
      assert h.chain[c] == [q];
    } else {
      AddedElsewhere(s.g, q, Head(s.chain[c]), s.chain[c]);
    }
  }

  lemma AddedElsewhere<N>(g: Graph<N>, p: N, from: Option<N>, c: seq<N>)
    requires IsChain(g, from, c) && p !in g.next
    ensures IsChain(Added(g, p), from, c)
  {
    forall i | 0 <= i < |c| ensures c[i] in Added(g, p).next && Added(g, p).next[c[i]] == Follower(c, i) {
      assert c[i] != p;
    }
  }

  lemma FilledPlace<B, N>(s: Books<B, N>, b: B, q: N, r: N)
    requires Sound(s) && b in s.chain && s.chain[b] == [] && q !in s.g.live && r in Filled(s, b, q).home
    ensures PlaceOk(Filled(s, b, q), r)
  {
    if r != q {
      assert PlaceOk(s, r);
    }
  }

  lemma FilledSound<B, N>(s: Books<B, N>, b: B, q: N)
    requires Sound(s) && b in s.chain && s.chain[b] == [] && q !in s.g.live
    ensures Sound(Filled(s, b, q))
  {
    AddedExact(s.g, q);
    var h := Filled(s, b, q);
    forall c | c in h.chain ensures BufferOk(h, c) {
      FilledBuffer(s, b, q, c);
    }
    forall r | r in h.home ensures PlaceOk(h, r) {
      FilledPlace(s, b, q, r);
    }
  }

  // ---- giving a chain back ---------------------------------------------------------------

  ghost function Without<B, N>(home: map<N, Option<B>>, c: seq<N>): map<N, Option<B>> {
    map q | q in home && q !in c :: home[q]
  }

  ghost function Emptied<B, N>(s: Books<B, N>, b: B): Books<B, N>
    requires Sound(s) && b in s.chain
  {
    assert BufferOk(s, b);
    if s.chain[b] == [] then s
    else Books(Freed(s.g, s.chain[b][0]), s.chain[b := []], Without(s.home, s.chain[b]))
  }

  /** pbuf_free on the head of a netbuf's chain stops only at its end. */
  lemma WholeChain<B, N>(s: Books<B, N>, b: B)
    requires Sound(s) && b in s.chain && s.chain[b] != []
    ensures Frees(s.g, s.chain[b], |s.chain[b]|)
  {
    var c := s.chain[b];
    assert BufferOk(s, b);
    forall i | 0 <= i < |c| ensures c[i] in s.g.ref && s.g.ref[c[i]] == 1 {
      assert c[i] in c;
      assert PlaceOk(s, c[i]);
    }
  }

  /** It releases exactly the netbuf's pbufs. */
  lemma ReleasesItsChain<B, N>(s: Books<B, N>, b: B)
    requires Sound(s) && b in s.chain && s.chain[b] != []
    ensures s.chain[b][0] in s.g.owners
    ensures Goes(s.g, s.chain[b][0]) == s.chain[b]
    ensures Freed(s.g, s.chain[b][0]).live == s.g.live - Elements(s.chain[b])
  {
    WholeChain(s, b);
    FreedIsAPrefix(s.g, s.chain[b], |s.chain[b]|);
    assert s.chain[b][..|s.chain[b]|] == s.chain[b];
  }

  lemma CountStays<B, N>(s: Books<B, N>, b: B, q: N)
    requires Sound(s) && b in s.chain && s.chain[b] != [] && s.chain[b][0] in s.g.owners
    requires q in Freed(s.g, s.chain[b][0]).live
    ensures Freed(s.g, s.chain[b][0]).ref[q] == s.g.ref[q]
  {
    WholeChain(s, b);
    FreedCounts(s.g, s.chain[b], |s.chain[b]|, q);
  }

  lemma EmptiedBuffer<B, N>(s: Books<B, N>, b: B, c: B)
    requires Sound(s) && b in s.chain && s.chain[b] != [] && c in s.chain && c != b
    ensures BufferOk(Emptied(s, b), c)
  {
    assert BufferOk(s, c) && BufferOk(s, b);
    ReleasesItsChain(s, b);
    forall q | q in s.chain[c] ensures q !in s.chain[b] {
    }
    FreedElsewhere(s.g, s.chain[b], Head(s.chain[c]), s.chain[c]);
  }

  lemma FreedElsewhere<N>(g: Graph<N>, d: seq<N>, from: Option<N>, c: seq<N>)
    requires Exact(g) && d != [] && d[0] in g.owners && IsChain(g, from, c) && Apart(c, d)
    requires Freed(g, d[0]).live == g.live - Elements(d)
    ensures IsChain(Freed(g, d[0]), from, c)
  {
    forall i | 0 <= i < |c| ensures c[i] in Freed(g, d[0]).next && Freed(g, d[0]).next[c[i]] == Follower(c, i) {
      assert c[i] in c;
      FreedKeepsLink(g, d[0], c[i]);
    }
  }

  lemma EmptiedPlace<B, N>(s: Books<B, N>, b: B, q: N)
    requires Sound(s) && b in s.chain && s.chain[b] != [] && q in s.home && q !in s.chain[b]
    ensures PlaceOk(Emptied(s, b), q)
  {
    assert PlaceOk(s, q) && BufferOk(s, b);
    ReleasesItsChain(s, b);
    CountStays(s, b, q);
  }

  lemma EmptiedSound<B, N>(s: Books<B, N>, b: B)
    requires Sound(s) && b in s.chain
    ensures Sound(Emptied(s, b)) && Emptied(s, b).chain == s.chain[b := []]
  {
    if s.chain[b] != [] {
      ReleasesItsChain(s, b);
      var h := Emptied(s, b);
      forall c | c in h.chain ensures BufferOk(h, c) {
        if c != b {
          EmptiedBuffer(s, b, c);
        }
      }
      forall q | q in h.home ensures PlaceOk(h, q) {
        EmptiedPlace(s, b, q);
      }
    }
  }

  // ---- joining two netbufs ---------------------------------------------------------------

  ghost function Rehomed<B, N>(home: map<N, Option<B>>, c: seq<N>, to: Option<B>): map<N, Option<B>> {
    map q | q in home :: if q in c then to else home[q]
  }

  ghost function Merged<B, N>(s: Books<B, N>, h: B, t: B): Books<B, N>
    requires Sound(s) && h in s.chain && t in s.chain && s.chain[h] != [] && s.chain[t] != []
  {
    assert BufferOk(s, h) && BufferOk(s, t);
    assert Last(s.chain[h]) in s.chain[h] && s.chain[t][0] in s.chain[t];
    Books(Joined(s.g, Last(s.chain[h]), s.chain[t][0], Elements(s.chain[t])),
          (s.chain - {t})[h := s.chain[h] + s.chain[t]],
          Rehomed(s.home, s.chain[t], Some(h)))
  }

  lemma ChainsApart<B, N>(s: Books<B, N>, b: B, c: B)
    requires Sound(s) && b in s.chain && c in s.chain && b != c
    ensures Apart(s.chain[b], s.chain[c])
  {
    assert BufferOk(s, b) && BufferOk(s, c);
  }

  lemma MergedExact<B, N>(s: Books<B, N>, h: B, t: B)
    requires Sound(s) && h in s.chain && t in s.chain && s.chain[h] != [] && s.chain[t] != [] && h != t
    ensures Exact(Merged(s, h, t).g)
    ensures IsChain(Merged(s, h, t).g, Some(s.chain[h][0]), s.chain[h] + s.chain[t])
    ensures s.chain[h][0] in Merged(s, h, t).g.owners
  {
    ChainsApart(s, h, t);
    assert BufferOk(s, h) && BufferOk(s, t);
    var last := Last(s.chain[h]);
    assert last in s.chain[h] && s.chain[h][0] in s.chain[h] && s.chain[t][0] in s.chain[t];
    ChainIsClosed(s.g, s.chain[t]);
    assert s.g.next[last] == Follower(s.chain[h], |s.chain[h]| - 1);
    JoinedExact(s.g, last, s.chain[t][0], Elements(s.chain[t]));
    JoinedChain(s.g, s.chain[h], s.chain[t]);
  }

  lemma MergedBuffer<B, N>(s: Books<B, N>, h: B, t: B, c: B)
    requires Sound(s) && h in s.chain && t in s.chain && s.chain[h] != [] && s.chain[t] != [] && h != t
    requires c in s.chain && c != t && c != h
    ensures BufferOk(Merged(s, h, t), c)
  {
    ChainsApart(s, c, h);
    ChainsApart(s, c, t);
    assert BufferOk(s, c) && BufferOk(s, h) && BufferOk(s, t);
    var last := Last(s.chain[h]);
    assert last in s.chain[h] && s.chain[t][0] in s.chain[t];
    JoinedElsewhere(s.g, last, s.chain[t][0], Elements(s.chain[t]), Head(s.chain[c]), s.chain[c]);
    if s.chain[c] != [] {
      assert s.chain[c][0] in s.chain[c];
    }
  }

  lemma MergedHead<B, N>(s: Books<B, N>, h: B, t: B)
    requires Sound(s) && h in s.chain && t in s.chain && s.chain[h] != [] && s.chain[t] != [] && h != t
    ensures BufferOk(Merged(s, h, t), h)
  {
    MergedExact(s, h, t);
    assert BufferOk(s, h) && BufferOk(s, t);
  }

  lemma MergedPlace<B, N>(s: Books<B, N>, h: B, t: B, q: N)
    requires Sound(s) && h in s.chain && t in s.chain && s.chain[h] != [] && s.chain[t] != [] && h != t
    requires q in s.home
    ensures PlaceOk(Merged(s, h, t), q)
  {
    assert PlaceOk(s, q) && BufferOk(s, h) && BufferOk(s, t);
  }

  lemma MergedSound<B, N>(s: Books<B, N>, h: B, t: B)
    requires Sound(s) && h in s.chain && t in s.chain && s.chain[h] != [] && s.chain[t] != [] && h != t
    ensures Sound(Merged(s, h, t))
  {
    MergedExact(s, h, t);
    var m := Merged(s, h, t);
    forall c | c in m.chain ensures BufferOk(m, c) {
      if c == h {
        MergedHead(s, h, t);
      } else {
        MergedBuffer(s, h, t, c);
      }
    }
    forall q | q in m.home ensures PlaceOk(m, q) {
      MergedPlace(s, h, t, q);
    }
  }

  /** What netbuf_chain does with a head that holds nothing: the pbufs of the tail have no home. */
  ghost function Orphaned<B, N>(s: Books<B, N>, t: B): Books<B, N>
    requires t in s.chain
  {
    s.(chain := s.chain - {t}, home := Rehomed(s.home, s.chain[t], None))
  }

  lemma OrphanedSound<B, N>(s: Books<B, N>, t: B)
    requires Sound(s) && t in s.chain
    ensures Sound(Orphaned(s, t))
  {
    var h := Orphaned(s, t);
    forall c | c in h.chain ensures BufferOk(h, c) {
      assert BufferOk(s, c);
      ChainsApart(s, c, t);
    }
    forall q | q in h.home ensures PlaceOk(h, q) {
      assert PlaceOk(s, q);
    }
  }

  // ---- what soundness gives --------------------------------------------------------------

  /** Every allocated pbuf that is not lost lies in the chain of exactly one netbuf, and all pbufs in
      chains are allocated. */
  lemma OneOwner<B, N>(s: Books<B, N>, q: N, b: B)
    requires Sound(s) && b in s.chain
    ensures q in s.chain[b] <==> q in s.g.live && s.home[q] == Some(b)
  {
    assert BufferOk(s, b);
    if q in s.home {
      assert PlaceOk(s, q);
    }
  }
}
