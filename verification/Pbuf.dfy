/** Packet buffers: reference-counted nodes in singly linked chains (pbuf.c).

    The heap carries, in ghost state, the graph of every pointer to a pbuf, inside the chains and
    outside them. The reference count is exactly the number of those pointers, which is the
    documented meaning of the field. */
module Pbufs {
  import opened Common
  import opened PbufGraph

  class Pbuf {
    var next: Pbuf?
    var payload: nat
    var totLen: nat
    var len: nat
    var ref: nat

    constructor (data: nat, length: nat)
      ensures next == null && payload == data && totLen == length && len == length && ref == 1
    {
      next := null;
      payload := data;
      totLen := length;
      len := length;
      ref := 1;
    }
  }

  ghost function Link(p: Pbuf?): Option<Pbuf> {
    if p == null then None else var q: Pbuf := p; Some(q)
  }

  /** What is left of a count in eight bits. */
  function Byte(n: nat): (r: nat)
    ensures r < U8
  {
    n % U8
  }

  /** Eight bits tell this number from zero, if it is not zero. */
  predicate HonestCount(n: nat) {
    n == 0 || n % U8 != 0
  }

  /** One more, in eight bits: the count of `n` becomes the count of `n + 1`. */
  function Increment(count: nat, ghost n: nat): (r: nat)
    requires count == Byte(n)
    ensures r == Byte(n + 1)
  {
    Byte(count + 1)
  }

  ghost function NextIn(c: seq<Pbuf>, i: nat): Pbuf?
    requires i < |c|
  {
    if i + 1 < |c| then c[i + 1] else null
  }

  /** The fields link `c` into a chain from `h`. */
  ghost predicate Linked(h: Pbuf, c: seq<Pbuf>)
    reads Elements(c)`next
  {
    c != [] && c[0] == h && forall i :: 0 <= i < |c| ==> c[i].next == NextIn(c, i)
  }

  function SumOfTotals(a: nat, b: nat): nat {
    (a + b) % U16
  }

  /** The loop of pbuf_cat: every pbuf of the chain gets the length of the tail on top. */
  method AddTotals(h: Pbuf, t: Pbuf, ghost c: seq<Pbuf>) returns (p: Pbuf)
    requires Linked(h, c) && Distinct(c) && t !in c
    modifies Elements(c)`totLen
    ensures p == Last(c)
    ensures forall q :: q in c ==> q.totLen == old(SumOfTotals(q.totLen, t.totLen))
  {
    p := h;
    ghost var i := 0;
    while p.next != null
      invariant 0 <= i < |c| && p == c[i]
      invariant forall j :: 0 <= j < i ==> c[j].totLen == old(SumOfTotals(c[j].totLen, t.totLen))
      invariant forall j :: i <= j < |c| ==> c[j].totLen == old(c[j].totLen)
      decreases |c| - i
    {
      assert p.next == NextIn(c, i);
      p.totLen := SumOfTotals(p.totLen, t.totLen);
      p := p.next;
      i := i + 1;
    }
    assert p.next == NextIn(c, i);
    p.totLen := SumOfTotals(p.totLen, t.totLen);
  }

  class Heap {
    ghost var g: Graph<Pbuf>

    /** The fields of a pbuf are what the graph says. */
    ghost predicate Mirror(q: Pbuf)
      requires Shaped(g) && q in g.live
      reads this, q`next, q`ref
    {
      g.next[q] == Link(q.next) && g.ref[q] == q.ref
    }

    ghost predicate Valid()
      reads this, g.live`next, g.live`ref
    {
      Exact(g) && forall q {:trigger Mirror(q)} :: q in g.live ==> Mirror(q)
    }

    constructor ()
      ensures Valid() && g.live == {} && g.owners == multiset{}
    {
      g := Graph({}, map[], map[], multiset{}, map[], map[]);
    }

    /** A single pbuf (PBUF_RAM, PBUF_REF), or NULL when no memory is available. */
    method Alloc(data: nat, length: nat, available: bool) returns (p: Pbuf?)
      requires Valid()
      modifies this
      ensures Valid()
      ensures available <==> p != null
      ensures p == null ==> g == old(g)
      ensures p != null ==> fresh(p) && p !in old(g).live && g == Added(old(g), p)
      ensures p != null ==> p.payload == data && p.len == length && p.totLen == length && p.next == null
    {
      if !available {
        return null;
      }
      var q := new Pbuf(data, length);
      Enter(q);
      p := q;
    }

    /** The allocator hands out a pbuf that nobody has yet, with its one pointer. */
    ghost method Enter(q: Pbuf)
      requires Valid() && q !in g.live && q.next == null && q.ref == 1
      modifies this
      ensures Valid() && g == Added(old(g), q)
    {
      AddedExact(g, q);
      g := Added(g, q);
      forall r | r in g.live ensures Mirror(r) {
        assert r != q ==> old(Mirror(r));
      }
    }

    /** pbuf_ref: one more pointer from outside. */
    method Ref(p: Pbuf?)
      requires Valid() && (p != null ==> p in g.live && p.ref < U16 - 1)
      modifies this, (if p == null then {} else {p})`ref
      ensures Valid()
      ensures g == if p == null then old(g) else Referenced(old(g), p)
    {
      if p != null {
        ReferencedExact(g, p);
        assert Mirror(p);
        p.ref := p.ref + 1;
        g := Referenced(g, p);
        forall r | r in g.live ensures Mirror(r) {
          assert old(Mirror(r));
        }
      }
    }

    /** pbuf_free: gives up one pointer to `p`. It returns the number of released pbufs, kept in
        eight bits. */
    method Free(p: Pbuf?) returns (count: nat)
      requires Valid() && (p != null ==> p in g.owners)
      modifies this, g.live`ref
      ensures Valid()
      ensures p == null ==> g == old(g) && count == 0
      ensures p != null ==> g == Freed(old(g), p) && count == Byte(|Goes(old(g), p)|)
    {
      count := 0;
      if p == null {
        return;
      }
      var cur: Pbuf? := p;
      ghost var n := 0;
      while cur != null
        invariant Valid() && g.live <= old(g).live && count == Byte(n)
        invariant Freeing(old(g), p, g, Link(cur), n)
        decreases |g.live|, cur != null
      {
        ghost var before := g;
        assert Mirror(cur);
        var q := cur.next;
        var gone := DropPointer(cur);
        if gone {
          FreeingGoesOn(old(g), p, before, cur, n);
          count, n := Increment(count, n), n + 1;
          cur := q;
        } else {
          FreeingEnds(old(g), p, before, cur, n);
          cur := null;
        }
      }
    }

    /** Taking one off the count; at zero the pbuf is released and its link is left to the caller. */
    method DropPointer(p: Pbuf) returns (gone: bool)
      requires Valid() && p in g.owners
      modifies this, p`ref
      ensures Valid() && gone == (old(g).ref[p] <= 1)
      ensures g == if gone then Removed(old(g), p) else Dropped(old(g), p)
    {
      assert Mirror(p) && CountOk(g, p);
      ghost var h := g;
      p.ref := p.ref - 1;
      gone := p.ref == 0;
      if gone {
        RemovedExact(h, p);
        g := Removed(h, p);
      } else {
        DroppedExact(h, p);
        g := Dropped(h, p);
      }
      forall r | r in g.live ensures Mirror(r) {
        assert old(Mirror(r));
      }
    }

    /** From every pbuf there is exactly one chain, so the lists that pbuf_cat and pbuf_chain are given
        exist and could not be other lists. */
    lemma OneChain(p: Pbuf?) returns (c: seq<Pbuf>)
      requires Valid() && (p != null ==> p in g.live)
      ensures IsChain(g, Link(p), c) && forall q :: q in c ==> q in g.live
      ensures forall d :: IsChain(g, Link(p), d) ==> d == c
    {
      c := ChainFrom(g, Link(p));
      forall d | IsChain(g, Link(p), d) ensures d == c {
        ChainUnique(g, Link(p), d, c);
      }
    }

    /** `hc` and `tc` list two chains without a pbuf in common, and the caller has a pointer to `t`. */
    ghost predicate TwoChains(h: Pbuf?, t: Pbuf?, hc: seq<Pbuf>, tc: seq<Pbuf>)
      reads this
    {
      && IsChain(g, Link(h), hc) && IsChain(g, Link(t), tc)
      && (h != null ==> h in g.live)
      && (t != null ==> t in g.owners)
      && Apart(hc, tc)
    }

    /** pbuf_cat: the caller's pointer to the tail moves into the last pbuf of the head chain. */
    method Cat(h: Pbuf?, t: Pbuf?, ghost hc: seq<Pbuf>, ghost tc: seq<Pbuf>)
      requires Valid() && TwoChains(h, t, hc, tc)
      modifies this, Elements(hc)`totLen, Elements(hc)`next
      ensures Valid()
      ensures h == null || t == null ==> g == old(g) && forall q :: q in hc ==> q.totLen == old(q.totLen)
      ensures h != null && t != null ==>
                Last(hc) in old(g).live && t in old(g).live && g == Joined(old(g), Last(hc), t, Elements(tc))
      ensures h != null && t != null ==> forall q :: q in hc ==> q.totLen == old(SumOfTotals(q.totLen, t.totLen))
    {
      if h == null || t == null {
        return;
      }
      ChainDistinct(g, Link(h), hc);
      LinksOfChain(h, hc);
      assert tc[0] == t;
      var p := AddTotals(h, t, hc);
      AppendTail(p, t, tc);
    }

    lemma LinksOfChain(h: Pbuf, hc: seq<Pbuf>)
      requires Valid() && IsChain(g, Some(h), hc)
      ensures Linked(h, hc) && Last(hc) in g.live && Last(hc).next == null
    {
      forall i | 0 <= i < |hc| ensures hc[i].next == NextIn(hc, i) {
        assert Mirror(hc[i]) && g.next[hc[i]] == Follower(hc, i);
      }
    }

    /** `p->next = t`. */
    method AppendTail(p: Pbuf, t: Pbuf, ghost tc: seq<Pbuf>)
      requires Valid() && p in g.live && p.next == null && t in g.owners
      requires IsChain(g, Some(t), tc) && p !in tc
      modifies this, p`next
      ensures Valid() && t in old(g).live && g == Joined(old(g), p, t, Elements(tc))
    {
      CanAppend(p, t, tc);
      assert Mirror(p);
      p.next := t;
      Appended(p, t, tc);
    }

    lemma CanAppend(p: Pbuf, t: Pbuf, tc: seq<Pbuf>)
      requires Valid() && p in g.live && p.next == null && t in g.owners
      requires IsChain(g, Some(t), tc) && p !in tc
      ensures t in g.live && Exact(Joined(g, p, t, Elements(tc))) && Joined(g, p, t, Elements(tc)).live == g.live
      ensures forall q {:trigger Mirror(q)} :: q in g.live ==> Mirror(q)
    {
      assert Mirror(p);
      ChainIsClosed(g, tc);
      JoinedShape(g, p, t, Elements(tc));
      JoinedExact(g, p, t, Elements(tc));
    }

    ghost method Appended(p: Pbuf, t: Pbuf, tc: seq<Pbuf>)
      requires Shaped(g) && p in g.live && t in g.live && p.next == t && g.ref[p] == p.ref
      requires Exact(Joined(g, p, t, Elements(tc))) && Joined(g, p, t, Elements(tc)).live == g.live
      requires forall q {:trigger Mirror(q)} :: q in g.live && q != p ==> Mirror(q)
      modifies this
      ensures Valid() && g == Joined(old(g), p, t, Elements(tc))
    {
      g := Joined(g, p, t, Elements(tc));
      forall r | r in g.live ensures Mirror(r) {
        assert r != p ==> old(Mirror(r));
      }
    }

    /** pbuf_chain: as pbuf_cat, but the caller keeps its pointer to the tail. */
    method Chain(h: Pbuf?, t: Pbuf?, ghost hc: seq<Pbuf>, ghost tc: seq<Pbuf>)
      requires Valid() && TwoChains(h, t, hc, tc) && (t != null ==> t.ref < U16 - 1)
      modifies this, Elements(hc)`totLen, Elements(hc)`next, (if t == null then {} else {t})`ref
      ensures Valid()
      ensures t == null ==> g == old(g)
      ensures h == null && t != null ==> t in old(g).live && g == Referenced(old(g), t)
      ensures h != null && t != null ==>
                && Last(hc) in old(g).live && t in old(g).live
                && g == Referenced(Joined(old(g), Last(hc), t, Elements(tc)), t)
      ensures h != null && t != null ==> g.owners == old(g).owners
    {
      Cat(h, t, hc, tc);
      Ref(t);
    }

    /** pbuf_dechain: splits off the first pbuf and gives up its pointer to the rest. */
    method Dechain(p: Pbuf) returns (r: Pbuf?)
      requires Valid() && p in g.live
      modifies this, p`next, p`totLen, g.live`ref, (if p.next == null then {} else {p.next})`totLen
      ensures Valid()
      ensures old(p.next) == null ==> g == old(g) && r == null && p.totLen == old(p.totLen)
      ensures old(p.next) != null ==>
                && HasNext(old(g), p) && old(g).next[p] == Link(old(p.next))
                && Exact(Cut(old(g), p)) && old(p.next) in Cut(old(g), p).owners
                && g == Freed(Cut(old(g), p), old(p.next))
                && r == if Byte(|Goes(Cut(old(g), p), old(p.next))|) > 0 then null else old(p.next)
      ensures old(p.next) != null ==> p.totLen == p.len && old(p.next).totLen == old((p.totLen - p.len) % U16)
      ensures old(p.next) != null ==>
                ((r == null <==> old(p.next) !in g.live) <==> HonestCount(|old(g).live - g.live|))
    {
      var tailGone := 1;
      var q := p.next;
      assert Mirror(p);
      if q != null {
        assert LinkOk(g, p);
        tailGone := SplitAndFree(p, q);
        DechainAnswer(Cut(old(g), p), q);
      }
      r := if tailGone > 0 then null else q;
    }

    method SplitAndFree(p: Pbuf, q: Pbuf) returns (count: nat)
      requires Valid() && p in g.live && p.next == q && p != q
      modifies this, p`next, p`totLen, q`totLen, g.live`ref
      ensures Valid() && HasNext(old(g), p) && old(g).next[p] == Some(q) && Exact(Cut(old(g), p))
      ensures q in Cut(old(g), p).owners && g == Freed(Cut(old(g), p), q) && count == Byte(|Goes(Cut(old(g), p), q)|)
      ensures p.totLen == p.len && q.totLen == old((p.totLen - p.len) % U16)
    {
      Split(p, q);
      count := Free(q);
    }

    /** The rest gets its own total length, and the first pbuf stands alone. */
    method Split(p: Pbuf, q: Pbuf)
      requires Valid() && p in g.live && p.next == q && p != q
      modifies this, p`next, p`totLen, q`totLen
      ensures Valid() && HasNext(old(g), p) && old(g).next[p] == Some(q) && Exact(Cut(old(g), p)) && g == Cut(old(g), p)
      ensures q in g.owners && g.live == old(g).live && p.totLen == p.len && q.totLen == old((p.totLen - p.len) % U16)
    {
      q.totLen := (p.totLen - p.len) % U16;
      Unlink(p);
      p.totLen := p.len;
    }

    /** `p->next = NULL`; the pointer to the rest is now the caller's. */
    method Unlink(p: Pbuf)
      requires Valid() && p in g.live && p.next != null
      modifies this, p`next
      ensures Valid() && HasNext(old(g), p) && old(g).next[p] == Link(old(p.next))
      ensures Exact(Cut(old(g), p)) && g == Cut(old(g), p)
      ensures old(p.next) in g.owners
    {
      assert Mirror(p);
      CutExact(g, p);
      p.next := null;
      g := Cut(g, p);
      forall r | r in g.live ensures Mirror(r) {
        assert old(Mirror(r));
      }
    }
  }

  /** The count that pbuf_dechain goes by tells whether the rest is still allocated exactly when the number of
      released pbufs is zero or no multiple of 256. */
  lemma DechainAnswer<N>(g: Graph<N>, p: N)
    requires Exact(g) && p in g.owners
    ensures (Byte(|Goes(g, p)|) == 0 <==> p in Freed(g, p).live) <==> HonestCount(|g.live - Freed(g, p).live|)
  {
    CountGone(g, p);
  }

  // ---- a call that goes wrong ------------------------------------------------------------

  /** A chain of pbufs with a single pointer to each. */
  ghost predicate Single(g: Graph<Pbuf>, head: Pbuf?, c: seq<Pbuf>) {
    && IsChain(g, Link(head), c) && (head != null ==> head in g.owners)
    && forall q :: q in c ==> q in g.ref && g.ref[q] == 1
  }

  lemma SingleLonger(g: Graph<Pbuf>, q: Pbuf, head: Pbuf, c: seq<Pbuf>)
    requires Exact(g) && q !in g.live && Single(g, head, c) && c != []
    ensures Exact(Added(g, q)) && Single(Added(g, q), head, c) && IsChain(Added(g, q), Some(q), [q]) && q !in c
    ensures head in Added(g, q).live && Single(Joined(Added(g, q), q, head, Elements(c)), q, [q] + c)
  {
    AddedExact(g, q);
    var h := Added(g, q);
    forall i | 0 <= i < |c| ensures c[i] in h.next && h.next[c[i]] == Follower(c, i) && c[i] != q {
      assert c[i] in c;
    }
    JoinedChain(h, [q], c);
  }

  /** One more pbuf in front, by pbuf_alloc and pbuf_cat. */
  method Prepend(heap: Heap, head: Pbuf?, ghost c: seq<Pbuf>) returns (q: Pbuf)
    requires heap.Valid() && Single(heap.g, head, c)
    modifies heap
    ensures heap.Valid() && fresh(q) && heap.g.live == old(heap.g).live + {q} && Single(heap.g, q, [q] + c)
  {
    ghost var before := heap.g;
    var p := heap.Alloc(0, 0, true);
    if head != null {
      SingleLonger(before, p, head, c);
    }
    heap.Cat(p, head, [p], c);
    q := p;
  }

  method BuildChain(n: nat) returns (heap: Heap, head: Pbuf?, ghost c: seq<Pbuf>)
    ensures fresh(heap) && heap.Valid() && fresh(heap.g.live)
    ensures |c| == n && Single(heap.g, head, c)
  {
    heap := new Heap();
    head := null;
    c := [];
    for k := 0 to n
      invariant fresh(heap) && heap.Valid() && fresh(heap.g.live)
      invariant |c| == k && Single(heap.g, head, c)
    {
      var q := Prepend(heap, head, c);
      head, c := q, [q] + c;
    }
  }

  /** With 256 pbufs behind the first one, all of them go and the count reads zero. */
  lemma CountReadsZero(g: Graph<Pbuf>, p: Pbuf, c: seq<Pbuf>)
    requires Exact(g) && Single(g, p, c) && |c| == 257
    ensures p in g.live && HasNext(g, p) && g.next[p] == Some(c[1]) && Exact(Cut(g, p)) && c[1] in Cut(g, p).owners
    ensures Byte(|Goes(Cut(g, p), c[1])|) == 0 && c[1] !in Freed(Cut(g, p), c[1]).live
  {
    CutRestIsFreed(g, c);
    FreedIsAPrefix(Cut(g, p), c[1..], 256);
    assert c[1..][..256] == c[1..] && c[1..][0] == c[1];
  }

  /** A chain of 257 pbufs is built and dechained: the answer is a pointer to a released pbuf. */
  method DechainDangles() returns (heap: Heap, r: Pbuf?)
    ensures fresh(heap) && heap.Valid() && r != null && r !in heap.g.live
  {
    var head;
    ghost var c;
    heap, head, c := BuildChain(257);
    CountReadsZero(heap.g, head, c);
    assert heap.Mirror(head);
    r := heap.Dechain(head);
  }
}
