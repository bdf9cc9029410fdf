/** The netbuf calls of the lwIP sequential API (netbuf.c), on pbufs that only netbufs own. */
module Netbufs {
  import opened Common
  import opened PbufGraph
  import opened Pbufs
  import opened NetbufOwners
  import opened NetbufModel

  datatype Error = ErrOk | ErrMem | ErrBuf | ErrArg

  class Netbuf {
    var p: Pbuf?
    var ptr: Pbuf?

    constructor ()
      ensures p == null && ptr == null
    {
      p := null;
      ptr := null;
    }
  }

  /** The fields of a netbuf are what the state says. */
  ghost predicate Held(st: State<Netbuf, Pbuf>, b: Netbuf)
    reads b
  {
    && b in st.books.chain && b in st.at
    && Link(b.p) == Head(st.books.chain[b])
    && match st.at[b]
       case Nowhere => b.ptr == null
       case At(i) => i < |st.books.chain[b]| && b.ptr == st.books.chain[b][i]
       case Stale => b.ptr != null && b.ptr !in st.books.g.live
  }

  ghost predicate AllHeld(st: State<Netbuf, Pbuf>)
    reads st.books.chain.Keys
  {
    forall b {:trigger Held(st, b)} :: b in st.books.chain ==> Held(st, b)
  }

  ghost predicate OthersHeld(st: State<Netbuf, Pbuf>, b: Netbuf)
    reads st.books.chain.Keys
  {
    forall c {:trigger Held(st, c)} :: c in st.books.chain && c != b ==> Held(st, c)
  }

  /** The cursor of a netbuf is clear, inside its chain, or points to a released pbuf. */
  ghost predicate OwnCursor(st: State<Netbuf, Pbuf>, b: Netbuf)
    reads b
  {
    b in st.books.chain ==> b.ptr == null || b.ptr in st.books.chain[b] || b.ptr !in st.books.g.live
  }

  /** No other netbuf's cursor points to `q`. */
  ghost predicate Unseen(st: State<Netbuf, Pbuf>, b: Netbuf, q: Pbuf)
    reads st.books.chain.Keys
  {
    forall c :: c in st.books.chain && c != b ==> c.ptr != q
  }

  /** The contents and the total length of a pbuf are what the state says. */
  ghost predicate Shows(st: State<Netbuf, Pbuf>, q: Pbuf)
    reads q`payload, q`len, q`totLen
  {
    q in st.data && q in st.total && st.data[q] == Segment(q.payload, q.len) && st.total[q] == q.totLen
  }

  ghost predicate AllShown(st: State<Netbuf, Pbuf>)
    reads st.books.g.live`payload, st.books.g.live`len, st.books.g.live`totLen
  {
    forall q {:trigger Shows(st, q)} :: q in st.books.g.live ==> Shows(st, q)
  }

  ghost predicate Right(st: State<Netbuf, Pbuf>)
    reads st.books.chain.Keys, st.books.g.live`payload, st.books.g.live`len, st.books.g.live`totLen
  {
    Good(st) && AllHeld(st) && AllShown(st)
  }

  lemma CreatedRight(st: State<Netbuf, Pbuf>, b: Netbuf)
    requires Right(st) && b !in st.books.chain && b.p == null && b.ptr == null
    ensures Right(Created(st, b))
  {
    CreatedGood(st, b);
    var h := Created(st, b);
    forall c | c in h.books.chain ensures Held(h, c) {
      assert c != b ==> Held(st, c);
    }
    forall q | q in h.books.g.live ensures Shows(h, q) {
      assert Shows(st, q);
    }
  }

  /** What netbuf.c does to the cursor of a netbuf it empties without looking at `ptr`. */
  ghost function Left(b: Netbuf): Cursor
    reads b
  {
    if b.ptr == null then Nowhere else Stale
  }

  lemma ClearedRight(st: State<Netbuf, Pbuf>, b: Netbuf)
    requires Good(st) && b in st.books.chain && b.p == null && AllShown(st)
    requires OthersHeld(st, b) && OwnCursor(st, b)
    ensures Right(Cleared(st, b, Left(b))) && Cleared(st, b, Left(b)).books.chain == st.books.chain[b := []]
  {
    ClearedGood(st, b, Left(b));
    var h := Cleared(st, b, Left(b));
    ClearedView(st, b, Left(b));
    forall c | c in h.books.chain ensures Held(h, c) {
      assert c != b ==> Held(st, c);
      if h.at[c] == Stale {
        ClearedReleases(st, b, c.ptr);
      }
    }
    forall q | q in h.books.g.live ensures Shows(h, q) {
      ClearedTotal(st, b, q);
      assert Shows(st, q);
    }
  }

  lemma GivenRight(st: State<Netbuf, Pbuf>, b: Netbuf, q: Pbuf)
    requires Good(st) && b in st.books.chain && st.books.chain[b] == [] && OthersHeld(st, b) && AllShown(st)
    requires b.p == q && b.ptr == q && q !in st.books.g.live && q.totLen == q.len < U16 && Unseen(st, b, q)
    ensures Right(Given(st, b, q, Segment(q.payload, q.len)))
  {
    var h := Given(st, b, q, Segment(q.payload, q.len));
    GivenGood(st, b, q, Segment(q.payload, q.len));
    forall c | c in h.books.chain ensures Held(h, c) {
      assert c != b ==> Held(st, c);
    }
    forall r | r in h.books.g.live ensures Shows(h, r) {
      assert r != q ==> Shows(st, r);
    }
  }

  lemma ErasedRight(st: State<Netbuf, Pbuf>, b: Netbuf)
    requires Right(st) && b in st.books.chain && st.books.chain[b] == []
    ensures Right(Erased(st, b))
  {
    var h := Erased(st, b);
    ErasedGood(st, b);
    forall c | c in h.books.chain ensures Held(h, c) {
      assert Held(st, c);
    }
    forall r | r in h.books.g.live ensures Shows(h, r) {
      assert Shows(st, r);
    }
  }

  lemma MovedRight(st: State<Netbuf, Pbuf>, b: Netbuf, cursor: Cursor)
    requires Good(st) && b in st.books.chain && OthersHeld(st, b) && AllShown(st)
    requires Link(b.p) == Head(st.books.chain[b])
    requires match cursor
             case At(i) => i < |st.books.chain[b]| && b.ptr == st.books.chain[b][i]
             case Nowhere => st.books.chain[b] == [] && b.ptr == null
             case Stale => false
    ensures Right(Moved(st, b, cursor))
  {
    var h := Moved(st, b, cursor);
    MovedGood(st, b, cursor);
    forall c | c in h.books.chain ensures Held(h, c) {
      assert c != b ==> Held(st, c);
    }
    forall r | r in h.books.g.live ensures Shows(h, r) {
      assert Shows(st, r);
    }
  }

  lemma LeftIs(st: State<Netbuf, Pbuf>, b: Netbuf)
    requires Right(st) && b in st.books.chain
    ensures Left(b) == CursorLeft(st.at[b])
  {
    assert Held(st, b);
  }

  /** The first `k` answers of netbuf_next on a netbuf with `n` segments. */
  function Answers(k: nat, n: nat): seq<int> {
    seq(k, i => NextResult(i, n))
  }

  /** Zeros, then 1, then -1; only -1 for a single segment. */
  lemma AnswersShape(n: nat)
    requires n > 0
    ensures Answers(n, n) == if n == 1 then [-1] else seq(n - 2, i => 0) + [1, -1]
  {
  }

  /** What a reader has after `k` parts. */
  ghost predicate SoFar(mem: nat -> nat, segments: seq<Segment>, k: nat, bytes: seq<nat>, results: seq<int>) {
    k <= |segments| && bytes == AllBytes(mem, segments[..k]) && results == Answers(k, |segments|)
  }

  lemma OnePart(mem: nat -> nat, segments: seq<Segment>, k: nat, bytes: seq<nat>, results: seq<int>)
    requires SoFar(mem, segments, k, bytes, results) && k < |segments|
    ensures SoFar(mem, segments, k + 1, bytes + Bytes(mem, segments[k]), results + [NextResult(k, |segments|)])
  {
    AllBytesAppend(mem, segments[..k], segments[k]);
    assert segments[..k + 1] == segments[..k] + [segments[k]];
  }

  /** The state with the total lengths that pbuf_cat leaves. */
  ghost function Summed(st: State<Netbuf, Pbuf>, h: Netbuf, t: Netbuf): State<Netbuf, Pbuf>
  {
    if CanJoin(st, h, t)
    then st.(total := Sums(st.total, st.books.chain[h], st.total[st.books.chain[t][0]]))
    else st
  }

  /** The pbufs of `c` show `more` on top of the state's total length. */
  ghost predicate Grown(st: State<Netbuf, Pbuf>, c: seq<Pbuf>, more: nat, q: Pbuf)
    reads q`payload, q`len, q`totLen
  {
    && q in st.data && q in st.total && st.data[q] == Segment(q.payload, q.len)
    && q.totLen == if q in c then SumOfTotals(st.total[q], more) else st.total[q]
  }

  ghost predicate AllGrown(st: State<Netbuf, Pbuf>, c: seq<Pbuf>, more: nat)
    reads st.books.g.live`payload, st.books.g.live`len, st.books.g.live`totLen
  {
    forall q {:trigger Grown(st, c, more, q)} :: q in st.books.g.live ==> Grown(st, c, more, q)
  }

  lemma SummedShows(st: State<Netbuf, Pbuf>, h: Netbuf, t: Netbuf)
    requires CanJoin(st, h, t) && AllGrown(st, st.books.chain[h], st.total[st.books.chain[t][0]])
    ensures AllShown(Summed(st, h, t))
  {
    forall q | q in st.books.g.live ensures Shows(Summed(st, h, t), q) {
      assert Grown(st, st.books.chain[h], st.total[st.books.chain[t][0]], q);
    }
  }

  lemma JoinedRight(st: State<Netbuf, Pbuf>, h: Netbuf, t: Netbuf)
    requires CanJoin(st, h, t) && OthersHeld(st, h) && AllShown(Summed(st, h, t))
    requires h.p == st.books.chain[h][0] && h.ptr == h.p
    ensures Right(JoinedUp(st, h, t))
  {
    var j := JoinedUp(st, h, t);
    JoinedUpGood(st, h, t);
    forall c | c in j.books.chain ensures Held(j, c) {
      assert c != h ==> Held(st, c);
    }
    forall q | q in j.books.g.live ensures Shows(j, q) {
      assert Shows(Summed(st, h, t), q);
    }
  }

  lemma AbandonedRight(st: State<Netbuf, Pbuf>, h: Netbuf, t: Netbuf)
    requires Good(st) && h in st.books.chain && t in st.books.chain && h != t && st.books.chain[h] == []
    requires OthersHeld(st, h) && AllShown(st) && h.p == null && h.ptr == null
    ensures Right(Abandoned(st, h, t))
  {
    var j := Abandoned(st, h, t);
    AbandonedGood(st, h, t);
    forall c | c in j.books.chain ensures Held(j, c) {
      assert c != h ==> Held(st, c);
    }
    forall q | q in j.books.g.live ensures Shows(j, q) {
      assert Shows(st, q);
    }
  }

  /** What netbuf_next answers from place `i` of `n`. */
  function NextResult(i: int, n: int): int {
    if i + 1 >= n then -1 else if i + 2 == n then 1 else 0
  }

  class Stack {
    const heap: Heap
    ghost var st: State<Netbuf, Pbuf>

    ghost predicate Valid()
      reads this, heap, st.books.chain.Keys, heap.g.live`next, heap.g.live`ref
      reads st.books.g.live`payload, st.books.g.live`len, st.books.g.live`totLen
    {
      heap.Valid() && heap.g == st.books.g && Right(st)
    }

    ghost function Buffers(): map<Netbuf, Buffer>
      requires st.at.Keys == st.books.chain.Keys
      reads this
    {
      View(st)
    }

    constructor ()
      ensures Valid() && Buffers() == map[] && st.books.g.live == {} && Lost(st) == {} && fresh(heap)
    {
      heap := new Heap();
      st := State(Books(Graph({}, map[], map[], multiset{}, map[], map[]), map[], map[]), map[], map[], map[]);
      new;
      st := st.(books := st.books.(g := heap.g));
    }

    /** The books follow what the program did. */
    ghost method Become(next: State<Netbuf, Pbuf>)
      requires heap.Valid() && heap.g == next.books.g && Right(next)
      modifies this
      ensures Valid() && st == next
    {
      st := next;
    }

    /** netbuf_new */
    method New(available: bool) returns (b: Netbuf?)
      requires Valid()
      modifies this
      ensures Valid()
      ensures Lost(st) == Lost(old(st))
      ensures st.books.g.live <= old(st).books.g.live
      ensures available <==> b != null
      ensures fresh(st.books.chain.Keys - old(st).books.chain.Keys)
      ensures b == null ==> st == old(st)
      ensures b != null ==> fresh(b) && Buffers() == Step(old(Buffers()), NetbufModel.New(b, true))
    {
      if !available {
        return null;
      }
      var n := new Netbuf();
      CreatedRight(st, n);
      CreatedGood(st, n);
      Become(Created(st, n));
      b := n;
    }

    method Point(b: Netbuf, p: Pbuf?, ptr: Pbuf?)
      requires heap.Valid() && OthersHeld(st, b) && AllShown(st)
      modifies b
      ensures heap.Valid() && OthersHeld(st, b) && AllShown(st) && b.p == p && b.ptr == ptr
    {
      b.p := p;
      b.ptr := ptr;
      forall c | c in st.books.chain && c != b ensures Held(st, c) {
        assert old(Held(st, c));
      }
    }

    /** pbuf_free, seen from the netbufs. */
    method FreePbufs(p: Pbuf)
      requires heap.Valid() && AllHeld(st) && AllShown(st) && p in heap.g.owners
      modifies heap, heap.g.live`ref
      ensures heap.Valid() && AllHeld(st) && AllShown(st) && heap.g == Freed(old(heap.g), p)
    {
      var count := heap.Free(p);
    }

    /** The chain of a netbuf is given back, if there is one, and `p = NULL`. */
    method FreeChain(b: Netbuf)
      requires Valid() && b in st.books.chain
      modifies heap, heap.g.live`ref, b
      ensures heap.Valid() && heap.g == Emptied(st.books, b).g
      ensures b.p == null && b.ptr == old(b.ptr) && OthersHeld(st, b) && AllShown(st)
    {
      assert Held(st, b) && BufferOk(st.books, b);
      if b.p != null {
        FreePbufs(b.p);
      }
      Point(b, null, b.ptr);
    }

    /** The netbuf's chain is given back and `p` is cleared, as netbuf_delete, _alloc, _free and _ref
        do first; `ptr` is left as it is. */
    method GiveBack(b: Netbuf)
      requires Valid() && b in st.books.chain
      modifies this, heap, b, heap.g.live`ref
      ensures Valid() && b.p == null && b.ptr == old(b.ptr)
      ensures st == Emptying(old(st), b) && st.books.chain == old(st).books.chain[b := []]
    {
      LeftIs(st, b);
      assert Held(st, b);
      FreeChain(b);
      ClearedRight(st, b);
      Become(Cleared(st, b, Left(b)));
    }

    /** netbuf_delete */
    method Delete(b: Netbuf?)
      requires Valid() && (b != null ==> b in st.books.chain)
      modifies this, heap, heap.g.live`ref, (if b == null then {} else {b})
      ensures Valid()
      ensures Lost(st) == Lost(old(st))
      ensures st.books.g.live <= old(st).books.g.live
      ensures b == null ==> st == old(st)
      ensures b != null ==> var n: Netbuf := b; Buffers() == Step(old(Buffers()), NetbufModel.Delete(n))
    {
      if b != null {
        DeletedFollows(st, b);
        GiveBack(b);
        ErasedRight(st, b);
        Become(Erased(st, b));
      }
    }

    /** pbuf_alloc, seen from the netbufs. */
    method NewPbuf(address: nat, size: nat, available: bool) returns (q: Pbuf?)
      requires Valid()
      modifies heap
      ensures heap.Valid() && Right(st) && (available <==> q != null)
      ensures q == null ==> heap.g == st.books.g
      ensures q != null ==> fresh(q) && q !in st.books.g.live && heap.g == Added(st.books.g, q)
      ensures q != null ==> q.payload == address && q.totLen == size && q.len == size
      ensures q != null ==> forall c :: c in st.books.chain ==> c.ptr != q
    {
      q := heap.Alloc(address, size, available);
    }

    /** pbuf_alloc into a netbuf that holds nothing. */
    method AllocInto(b: Netbuf, address: nat, size: nat, available: bool) returns (q: Pbuf?)
      requires Valid() && b in st.books.chain && st.books.chain[b] == [] && b.p == null && size < U16
      modifies this, heap, b
      ensures Valid() && (available <==> q != null)
      ensures q == null ==> st == old(st) && b.p == old(b.p) && b.ptr == old(b.ptr)
      ensures q != null ==> fresh(q) && q !in old(st).books.g.live && st == Given(old(st), b, q, Segment(address, size))
      ensures q != null ==> q.payload == address
    {
      q := NewPbuf(address, size, available);
      if q != null {
        Take(b, q);
      }
    }

    /** netbuf_alloc */
    method Alloc(b: Netbuf?, address: nat, size: nat, available: bool) returns (r: Option<nat>)
      requires Valid() && (b != null ==> b in st.books.chain) && size < U16
      modifies this, heap, heap.g.live`ref, (if b == null then {} else {b})
      ensures Valid()
      ensures Lost(st) == Lost(old(st))
      ensures fresh(st.books.g.live - old(st).books.g.live)
      ensures b == null ==> st == old(st) && r == None
      ensures b != null ==>
                var n: Netbuf, s := b, Segment(address, size);
                Buffers() == Step(old(Buffers()), NetbufModel.Alloc(n, s, available))
      ensures b != null ==> r == (if available then Some(address) else None)
      ensures b != null && !available ==> b.p == null && b.ptr == old(b.ptr) && b.ptr !in Allocated()
    {
      if b == null {
        return None;
      }
      var q := Replace(b, address, size, available);
      if q == null {
        EmptiedFollows(old(st), b, Segment(address, size));
        return None;
      }
      RefilledFollows(old(st), b, q, Segment(address, size), NetbufModel.Alloc(b, Segment(address, size), available));
      r := Some(address);
    }

    /** The old chain goes, and a pbuf with room for the data comes if there is memory. */
    method Replace(b: Netbuf, address: nat, size: nat, available: bool) returns (q: Pbuf?)
      requires Valid() && b in st.books.chain && size < U16
      modifies this, heap, heap.g.live`ref, b
      ensures Valid() && (available <==> q != null)
      ensures q == null ==> st == Emptying(old(st), b) && b.p == null && b.ptr == old(b.ptr) && b.ptr !in Allocated()
      ensures q != null ==> q.payload == address && fresh(q) && q !in Emptying(old(st), b).books.g.live
      ensures q != null ==> st == Refilled(old(st), b, q, Segment(address, size))
    {
      GiveBack(b);
      assert Held(st, b) && CursorAt(st, b);
      q := AllocInto(b, address, size, available);
    }

    /** The pbufs in use, as pointers. */
    ghost function Allocated(): set<Pbuf?>
      reads this
    {
      set q | q in st.books.g.live
    }

    /** A new pbuf becomes the whole of a netbuf that held nothing. */
    method Take(b: Netbuf, q: Pbuf)
      requires heap.Valid() && Good(st) && OthersHeld(st, b) && AllShown(st)
      requires b in st.books.chain && st.books.chain[b] == []
      requires q !in st.books.g.live && heap.g == Added(st.books.g, q) && q.totLen == q.len < U16 && Unseen(st, b, q)
      modifies this, b
      ensures Valid() && b.p == q && b.ptr == q && st == Given(old(st), b, q, Segment(q.payload, q.len))
    {
      Point(b, q, q);
      GivenRight(st, b, q);
      Become(Given(st, b, q, Segment(q.payload, q.len)));
    }

    /** `ptr` is set to the head, which may be NULL, or to a pbuf further on. */
    method SetPtr(b: Netbuf, ptr: Pbuf?, ghost cursor: Cursor)
      requires Valid() && b in st.books.chain
      requires match cursor
               case At(i) => i < |st.books.chain[b]| && ptr == st.books.chain[b][i]
               case Nowhere => st.books.chain[b] == [] && ptr == null
               case Stale => false
      modifies this, b
      ensures Valid() && b.p == old(b.p) && b.ptr == ptr && st == Moved(old(st), b, cursor)
    {
      assert Held(st, b);
      Point(b, b.p, ptr);
      MovedRight(st, b, cursor);
      Become(Moved(st, b, cursor));
    }

    /** netbuf_free */
    method Free(b: Netbuf?)
      requires Valid() && (b != null ==> b in st.books.chain)
      modifies this, heap, heap.g.live`ref, (if b == null then {} else {b})
      ensures Valid()
      ensures Lost(st) == Lost(old(st))
      ensures st.books.g.live <= old(st).books.g.live
      ensures b == null ==> st == old(st)
      ensures b != null ==> var n: Netbuf := b; Buffers() == Step(old(Buffers()), NetbufModel.Free(n))
    {
      if b != null {
        Drain(b);
      }
    }

    method Drain(b: Netbuf)
      requires Valid() && b in st.books.chain
      modifies this, heap, heap.g.live`ref, b
      ensures Valid() && Buffers() == Step(old(Buffers()), NetbufModel.Free(b))
      ensures Lost(st) == Lost(old(st))
      ensures st.books.g.live <= old(st).books.g.live
    {
      FreedFollows(st, b, NetbufModel.Free(b));
      GiveBack(b);
      SetPtr(b, null, Nowhere);
    }

    /** pbuf_alloc of a pbuf without data, made to refer to the caller's data. */
    method RefInto(b: Netbuf, dataptr: nat, size: nat, available: bool) returns (q: Pbuf?)
      requires Valid() && b in st.books.chain && st.books.chain[b] == [] && b.p == null && size < U16
      modifies this, heap, b
      ensures Valid() && (available <==> q != null)
      ensures q == null ==> st == Moved(old(st), b, Nowhere)
      ensures q != null ==> fresh(q) && q !in old(st).books.g.live && st == Given(old(st), b, q, Segment(dataptr, size))
    {
      q := NewPbuf(0, 0, available);
      if q == null {
        SetPtr(b, null, Nowhere);
      } else {
        Refer(q, dataptr, size);
        Take(b, q);
      }
    }

    method Refer(q: Pbuf, dataptr: nat, size: nat)
      requires heap.Valid() && AllHeld(st) && AllShown(st) && q !in st.books.g.live
      modifies q`payload, q`len, q`totLen
      ensures heap.Valid() && AllHeld(st) && AllShown(st)
      ensures q.payload == dataptr && q.len == q.totLen == size
    {
      q.payload := dataptr;
      q.len, q.totLen := size, size;
    }

    /** netbuf_ref */
    method Ref(b: Netbuf?, dataptr: nat, size: nat, available: bool) returns (err: Error)
      requires Valid() && (b != null ==> b in st.books.chain) && size < U16
      modifies this, heap, heap.g.live`ref, (if b == null then {} else {b})
      ensures Valid()
      ensures Lost(st) == Lost(old(st))
      ensures fresh(st.books.g.live - old(st).books.g.live)
      ensures b == null ==> st == old(st) && err == ErrArg
      ensures b != null ==>
                var n: Netbuf, s := b, Segment(dataptr, size);
                Buffers() == Step(old(Buffers()), NetbufModel.Ref(n, s, available))
      ensures b != null ==> err == if available then ErrOk else ErrMem
    {
      if b == null {
        return ErrArg;
      }
      var q := Renew(b, dataptr, size, available);
      if q == null {
        FreedFollows(old(st), b, NetbufModel.Ref(b, Segment(dataptr, size), available));
        return ErrMem;
      }
      RefilledFollows(old(st), b, q, Segment(dataptr, size), NetbufModel.Ref(b, Segment(dataptr, size), available));
      err := ErrOk;
    }

    /** The old chain goes, and a pbuf referring to the caller's data comes if there is memory. */
    method Renew(b: Netbuf, dataptr: nat, size: nat, available: bool) returns (q: Pbuf?)
      requires Valid() && b in st.books.chain && size < U16
      modifies this, heap, heap.g.live`ref, b
      ensures Valid() && (available <==> q != null)
      ensures q == null ==> st == Drained(old(st), b)
      ensures q != null ==> fresh(q) && q !in Emptying(old(st), b).books.g.live
      ensures q != null ==> st == Refilled(old(st), b, q, Segment(dataptr, size))
    {
      GiveBack(b);
      q := RefInto(b, dataptr, size, available);
    }

    /** netbuf_first */
    method First(b: Netbuf?)
      requires Valid() && (b != null ==> b in st.books.chain)
      modifies this, (if b == null then {} else {b})
      ensures Valid()
      ensures Lost(st) == Lost(old(st))
      ensures st.books.g.live <= old(st).books.g.live
      ensures b == null ==> st == old(st)
      ensures b != null ==> var n: Netbuf := b; Buffers() == Step(old(Buffers()), NetbufModel.First(n))
      ensures b != null ==> b in old(st).books.chain && st == Moved(old(st), b, Front(old(st).books.chain[b]))
    {
      if b != null {
        FirstFollows(st, b);
        assert Held(st, b);
        SetPtr(b, b.p, Front(st.books.chain[b]));
      }
    }

    /** netbuf_next: -1 when there is no next part, 1 when the part moved to is the last, else 0. */
    method Next(b: Netbuf?) returns (r: int)
      requires Valid() && (b != null ==> b in st.books.chain && st.at[b].At?)
      modifies this, (if b == null then {} else {b})
      ensures Valid()
      ensures Lost(st) == Lost(old(st))
      ensures st.books.g.live <= old(st).books.g.live
      ensures b == null ==> st == old(st) && r == -1
      ensures b != null ==> var n: Netbuf := b; Buffers() == Step(old(Buffers()), NetbufModel.Next(n))
      ensures b != null ==> st == Onward(old(st), b)
      ensures b != null ==> r == NextResult(old(st).at[b].place, |old(st).books.chain[b]|)
    {
      if b == null {
        return -1;
      }
      NextFollows(st, b);
      r := NextOn(b, st.at[b].place);
    }

    method NextOn(b: Netbuf, ghost i: nat) returns (r: int)
      requires Valid() && b in st.books.chain && st.at[b] == At(i) && i < |st.books.chain[b]|
      modifies this, b
      ensures Valid() && st == Onward(old(st), b) && r == NextResult(i, |old(st).books.chain[b]|)
    {
      var next := NextPbuf(b, i);
      if next == null {
        return -1;
      }
      r := MoveTo(b, next, i + 1);
    }

    method MoveTo(b: Netbuf, next: Pbuf, ghost i: nat) returns (r: int)
      requires Valid() && b in st.books.chain && i < |st.books.chain[b]| && next == st.books.chain[b][i]
      modifies this, b
      ensures Valid() && st == Moved(old(st), b, At(i))
      ensures r == if i + 1 == |st.books.chain[b]| then 1 else 0
    {
      SetPtr(b, next, At(i));
      var after := NextPbuf(b, i);
      r := if after == null then 1 else 0;
    }

    /** `buf->ptr->next` */
    method NextPbuf(b: Netbuf, ghost i: nat) returns (next: Pbuf?)
      requires Valid() && b in st.books.chain && st.at[b] == At(i)
      ensures i < |st.books.chain[b]| && next == NextIn(st.books.chain[b], i)
    {
      assert Held(st, b) && BufferOk(st.books, b);
      assert st.books.chain[b][i] in st.books.chain[b];
      assert heap.Mirror(st.books.chain[b][i]);
      assert heap.g.next[st.books.chain[b][i]] == Follower(st.books.chain[b], i);
      next := b.ptr.next;
    }

    /** netbuf_data */
    method Data(b: Netbuf?) returns (err: Error, dataptr: nat, len: nat)
      requires Valid() && (b != null ==> b in st.books.chain && st.at[b] != Stale)
      ensures err == if b == null then ErrArg else if st.at[b] == Nowhere then ErrBuf else ErrOk
      ensures err == ErrOk ==> st.at[b].place < |Buffers()[b].segments|
      ensures err == ErrOk ==> Segment(dataptr, len) == Buffers()[b].segments[st.at[b].place]
    {
      dataptr, len := 0, 0;
      if b == null {
        return ErrArg, dataptr, len;
      }
      assert Held(st, b);
      if b.ptr == null {
        return ErrBuf, dataptr, len;
      }
      DataIs(b);
      return ErrOk, b.ptr.payload, b.ptr.len;
    }

    lemma DataIs(b: Netbuf)
      requires Valid() && b in st.books.chain && st.at[b].At?
      ensures b.ptr != null && st.at[b].place < |View(st)[b].segments|
      ensures Segment(b.ptr.payload, b.ptr.len) == View(st)[b].segments[st.at[b].place]
    {
      assert Held(st, b) && BufferOk(st.books, b) && BufferAt(st, b) == View(st)[b];
      var q := st.books.chain[b][st.at[b].place];
      assert q in st.books.chain[b];
      assert Shows(st, q);
      SegmentAt(st.data, st.books.chain[b], st.at[b].place);
    }

    /** netbuf_chain */
    method Chain(head: Netbuf?, tail: Netbuf?)
      requires Valid() && (head != null ==> head in st.books.chain) && (tail != null ==> tail in st.books.chain)
      requires head != null ==> head != tail
      modifies this, heap, (if head == null then {} else {head})
      modifies (if head == null then {} else Elements(st.books.chain[head]))`totLen
      modifies (if head == null then {} else Elements(st.books.chain[head]))`next
      ensures Valid()
      ensures st.books.g.live <= old(st).books.g.live
      ensures Lost(st) == Lost(old(st)) + if head != null && tail != null then Leaked(old(st), head, tail) else {}
      ensures head == null || tail == null ==> st == old(st)
      ensures head != null && tail != null ==>
                var h: Netbuf, t: Netbuf := head, tail; Buffers() == Step(old(Buffers()), NetbufModel.Chain(h, t))
    {
      if head == null || tail == null {
        return;
      }
      CatChains(head, tail);
      assert Held(st, head);
      PointFront(head, Summed(st, head, tail));
      Close(head, tail);
      ChainedKeeps(old(st), head, tail);
      ChainedFollows(old(st), head, tail);
    }

    /** pbuf_cat on the chains of two netbufs. */
    method CatChains(h: Netbuf, t: Netbuf)
      requires Valid() && h in st.books.chain && t in st.books.chain && h != t
      modifies heap, Elements(st.books.chain[h])`totLen, Elements(st.books.chain[h])`next
      ensures heap.Valid() && AllHeld(st) && AllShown(Summed(st, h, t))
      ensures CanJoin(st, h, t) <==> st.books.chain[h] != [] && st.books.chain[t] != []
      ensures heap.g == if CanJoin(st, h, t) then JoinedUp(st, h, t).books.g else st.books.g
    {
      CanCat(h, t);
      CatHeads(h, t);
      if CanJoin(st, h, t) {
        SummedShows(st, h, t);
      }
    }

    method CatHeads(h: Netbuf, t: Netbuf)
      requires heap.Valid() && AllHeld(st) && AllShown(st) && heap.g == st.books.g
      requires h in st.books.chain && t in st.books.chain
      requires heap.TwoChains(h.p, t.p, st.books.chain[h], st.books.chain[t])
      modifies heap, Elements(st.books.chain[h])`totLen, Elements(st.books.chain[h])`next
      ensures heap.Valid() && AllHeld(st)
      ensures h.p == null || t.p == null ==> heap.g == st.books.g && AllShown(st)
      ensures h.p != null && t.p != null ==>
                && Last(st.books.chain[h]) in st.books.g.live && t.p in st.books.g.live
                && heap.g == Joined(st.books.g, Last(st.books.chain[h]), t.p, Elements(st.books.chain[t]))
                && AllGrown(st, st.books.chain[h], old(t.p.totLen))
    {
      if h.p == null || t.p == null {
        CatNothing(h.p, t.p, st.books.chain[h], st.books.chain[t]);
      } else {
        CatPbufs(h.p, t.p, st.books.chain[h], st.books.chain[t]);
      }
    }

    method CatNothing(h: Pbuf?, t: Pbuf?, ghost hc: seq<Pbuf>, ghost tc: seq<Pbuf>)
      requires heap.Valid() && AllHeld(st) && AllShown(st) && heap.TwoChains(h, t, hc, tc) && (h == null || t == null)
      modifies heap, Elements(hc)`totLen, Elements(hc)`next
      ensures heap.Valid() && heap.g == old(heap.g) && AllHeld(st) && AllShown(st)
    {
      heap.Cat(h, t, hc, tc);
      forall q | q in st.books.g.live ensures Shows(st, q) {
        assert old(Shows(st, q));
      }
    }

    method CatPbufs(h: Pbuf, t: Pbuf, ghost hc: seq<Pbuf>, ghost tc: seq<Pbuf>)
      requires heap.Valid() && AllHeld(st) && AllShown(st) && heap.g == st.books.g
      requires heap.TwoChains(h, t, hc, tc)
      modifies heap, Elements(hc)`totLen, Elements(hc)`next
      ensures heap.Valid() && AllHeld(st) && Last(hc) in st.books.g.live && t in st.books.g.live
      ensures heap.g == Joined(st.books.g, Last(hc), t, Elements(tc)) && AllGrown(st, hc, old(t.totLen))
    {
      CatGrown(h, t, hc, tc);
    }

    method CatGrown(h: Pbuf, t: Pbuf, ghost hc: seq<Pbuf>, ghost tc: seq<Pbuf>)
      requires heap.Valid() && AllShown(st) && heap.g == st.books.g && heap.TwoChains(h, t, hc, tc)
      modifies heap, Elements(hc)`totLen, Elements(hc)`next
      ensures heap.Valid() && Last(hc) in st.books.g.live && t in st.books.g.live
      ensures heap.g == Joined(st.books.g, Last(hc), t, Elements(tc)) && AllGrown(st, hc, old(t.totLen))
    {
      heap.Cat(h, t, hc, tc);
      forall q | q in st.books.g.live ensures Grown(st, hc, old(t.totLen), q) {
        assert old(Shows(st, q));
      }
    }

    lemma CanCat(h: Netbuf, t: Netbuf)
      requires Valid() && h in st.books.chain && t in st.books.chain && h != t
      ensures heap.TwoChains(h.p, t.p, st.books.chain[h], st.books.chain[t])
      ensures st.books.chain[h] != [] && st.books.chain[t] != [] ==>
                && CanJoin(st, h, t) && t.p == st.books.chain[t][0]
                && t.p in st.books.g.live && st.total[t.p] == t.p.totLen
      ensures h.p == null <==> st.books.chain[h] == []
      ensures t.p == null <==> st.books.chain[t] == []
      ensures st.books.chain[h] != [] ==> h.p == st.books.chain[h][0]
    {
      ChainsApart(st.books, h, t);
      assert Held(st, h) && Held(st, t) && BufferOk(st.books, h) && BufferOk(st.books, t);
      if t.p != null {
        assert t.p in st.books.chain[t];
        assert Shows(st, t.p);
      }
      if h.p != null {
        assert h.p in st.books.chain[h];
      }
    }

    /** `head->ptr = head->p` */
    method PointFront(h: Netbuf, ghost shown: State<Netbuf, Pbuf>)
      requires heap.Valid() && AllHeld(st) && AllShown(shown)
      modifies h
      ensures heap.Valid() && OthersHeld(st, h) && AllShown(shown) && h.p == old(h.p) && h.ptr == h.p
    {
      h.ptr := h.p;
      forall c | c in st.books.chain && c != h ensures Held(st, c) {
        assert old(Held(st, c));
      }
    }

    /** The books after netbuf_chain; the tail netbuf is returned in each case. */
    ghost method Close(h: Netbuf, t: Netbuf)
      requires heap.Valid() && Good(st) && OthersHeld(st, h) && AllShown(Summed(st, h, t))
      requires h in st.books.chain && t in st.books.chain && h != t
      requires Link(h.p) == Head(st.books.chain[h]) && h.ptr == h.p
      requires CanJoin(st, h, t) <==> st.books.chain[h] != [] && st.books.chain[t] != []
      requires heap.g == if CanJoin(st, h, t) then JoinedUp(st, h, t).books.g else st.books.g
      modifies this
      ensures Valid() && st == ChainedUp(old(st), h, t)
    {
      if CanJoin(st, h, t) {
        JoinedRight(st, h, t);
      } else if st.books.chain[t] == [] {
        MovedRight(st, h, Front(st.books.chain[h]));
        ErasedRight(Moved(st, h, Front(st.books.chain[h])), t);
      } else {
        AbandonedRight(st, h, t);
      }
      Become(ChainedUp(st, h, t));
    }

    /** With nothing lost, every allocated pbuf lies in the chain of exactly one netbuf. */
    lemma SoleOwnership(q: Pbuf)
      requires Valid() && Lost(st) == {} && q in st.books.g.live
      ensures exists b :: b in st.books.chain && q in st.books.chain[b]
      ensures forall b, c ::
                b in st.books.chain && c in st.books.chain && q in st.books.chain[b] && q in st.books.chain[c] ==>
                  b == c
    {
      assert PlaceOk(st.books, q);
      assert q !in Lost(st);
      forall b, c | b in st.books.chain && c in st.books.chain && q in st.books.chain[b] && q in st.books.chain[c]
        ensures b == c
      {
        OneOwner(st.books, q, b);
        OneOwner(st.books, q, c);
      }
    }

    /** pbuf's total length is the number of bytes from there on. */
    lemma TotalLength(b: Netbuf)
      requires Valid() && b in st.books.chain && b.p != null
      ensures b.p.totLen == Lengths(Buffers()[b].segments) % U16
    {
      assert Held(st, b) && BufferOk(st.books, b);
      assert b.p in st.books.chain[b];
      assert Shows(st, b.p);
      TotalsAreLengths(st, st.books.chain[b]);
    }

    /** Reading a netbuf from front to end, as its users do: netbuf_first, then netbuf_data until
        netbuf_next answers -1. Every segment is seen once, in order. */
    method ReadAll(b: Netbuf, mem: nat -> nat) returns (bytes: seq<nat>, results: seq<int>)
      requires Valid() && b in st.books.chain && st.books.chain[b] != []
      modifies this, b
      ensures Valid() && st.books.chain == old(st).books.chain && b in Buffers()
      ensures Buffers()[b].segments == old(Buffers())[b].segments
      ensures bytes == AllBytes(mem, Buffers()[b].segments)
      ensures results == Answers(|Buffers()[b].segments|, |Buffers()[b].segments|)
    {
      First(b);
      bytes, results := ReadOn(b, mem);
    }

    /** The bytes behind a netbuf, segment by segment. */
    ghost function Parts(b: Netbuf): seq<Segment>
      requires b in st.books.chain
      reads this
    {
      SegmentsOf(st.data, st.books.chain[b])
    }

    method ReadOn(b: Netbuf, mem: nat -> nat) returns (bytes: seq<nat>, results: seq<int>)
      requires Valid() && b in st.books.chain && st.at[b] == At(0) && st.books.chain[b] != []
      modifies this, b
      ensures Valid() && st.books == old(st).books && st.data == old(st).data
      ensures bytes == AllBytes(mem, Parts(b)) && results == Answers(|Parts(b)|, |Parts(b)|)
    {
      bytes, results := [], [];
      ghost var k, parts := 0, Parts(b);
      var r := 0;
      while r >= 0
        invariant Valid() && st.books == old(st).books && st.data == old(st).data
        invariant k <= |parts| && (r < 0 <==> k == |parts|) && (r >= 0 ==> st.at[b] == At(k))
        invariant SoFar(mem, parts, k, bytes, results)
        decreases |parts| - k
      {
        var part;
        part, r := ReadPart(b, mem, k);
        OnePart(mem, parts, k, bytes, results);
        bytes, results, k := bytes + part, results + [r], k + 1;
      }
      assert parts[..|parts|] == parts;
    }

    /** One netbuf_data and one netbuf_next. */
    method ReadPart(b: Netbuf, mem: nat -> nat, ghost k: nat) returns (part: seq<nat>, r: int)
      requires Valid() && b in st.books.chain && st.at[b] == At(k)
      modifies this, b
      ensures Valid() && st.books == old(st).books && st.data == old(st).data
      ensures k < |Parts(b)| && part == Bytes(mem, Parts(b)[k]) && r == NextResult(k, |Parts(b)|)
      ensures k + 1 < |Parts(b)| ==> st.at[b] == At(k + 1)
    {
      NextFollows(st, b);
      var err, dataptr, len := Data(b);
      DataIs(b);
      part := Bytes(mem, Segment(dataptr, len));
      r := NextOn(b, k);
    }

    /** Any of the calls on existing netbufs. */
    method Perform(c: Command<Netbuf>)
      requires Valid() && !c.New? && Legal(Buffers(), c) && Sized(c)
      modifies this, heap, st.books.chain.Keys, st.books.g.live
      ensures Valid() && Buffers() == Step(old(Buffers()), c) && st.books.chain.Keys <= old(st).books.chain.Keys
      ensures fresh(st.books.g.live - old(st).books.g.live)
      ensures Lost(st) == {} <==> Lost(old(st)) == {} && !Leaks(old(Buffers()), c)
    {
      Dispatch(c);
      KeysShrink(old(st), c, st);
    }

    method Dispatch(c: Command<Netbuf>)
      requires Valid() && !c.New? && Legal(Buffers(), c) && Sized(c)
      modifies this, heap, st.books.chain.Keys, st.books.g.live
      ensures Valid() && Buffers() == Step(old(Buffers()), c)
      ensures fresh(st.books.g.live - old(st).books.g.live)
      ensures Lost(st) == {} <==> Lost(old(st)) == {} && !Leaks(old(Buffers()), c)
    {
      match c
      case Delete(b) => Delete(b);
      case Alloc(b, segment, available) => var r := Alloc(b, segment.address, segment.len, available);
      case Free(b) => Free(b);
      case Ref(b, segment, available) => var err := Ref(b, segment.address, segment.len, available);
      case Chain(h, t) => ChainTwo(h, t);
      case Next(b) => var r := Next(b);
      case First(b) => First(b);
    }

    method ChainTwo(h: Netbuf, t: Netbuf)
      requires Valid() && h in st.books.chain && t in st.books.chain && h != t
      modifies this, heap, h, st.books.g.live
      ensures Valid() && st.books.g.live <= old(st).books.g.live
      ensures Buffers() == Step(old(Buffers()), NetbufModel.Chain(h, t))
      ensures Lost(st) == {} <==> Lost(old(st)) == {} && !Leaks(old(Buffers()), NetbufModel.Chain(h, t))
    {
      LeaksWhen(h, t);
      Chain(h, t);
    }

    lemma LeaksWhen(h: Netbuf, t: Netbuf)
      requires Valid() && h in st.books.chain && t in st.books.chain && h != t
      ensures Elements(st.books.chain[h]) <= st.books.g.live
      ensures Leaked(st, h, t) == {} <==> !Leaks(Buffers(), NetbufModel.Chain(h, t))
    {
      assert BufferOk(st.books, h);
      assert View(st)[h] == BufferAt(st, h) && View(st)[t] == BufferAt(st, t);
      assert st.books.chain[t] != [] ==> st.books.chain[t][0] in Elements(st.books.chain[t]);
    }
  }
}
