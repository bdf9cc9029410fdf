/** Netbufs as values: the ownership books together with the cursors and the contents, and the simple
    view of a netbuf as a list of segments with a place in it. */
module NetbufModel {
  import opened Common
  import opened PbufGraph
  import opened NetbufOwners

  /** Where a segment's bytes are, and how many. */
  datatype Segment = Segment(address: nat, len: nat)

  /** `Stale`: the netbuf holds nothing, and its cursor still points to a pbuf that is gone. */
  datatype Cursor = Nowhere | At(place: nat) | Stale

  datatype Buffer = Buffer(segments: seq<Segment>, cursor: Cursor)

  // ---- the simple view -------------------------------------------------------------------

  /** A netbuf with its cursor on the first segment. */
  function Rewound(segments: seq<Segment>): Buffer {
    Buffer(segments, if segments == [] then Nowhere else At(0))
  }

  datatype Command<B> =
    | New(b: B, available: bool)
    | Delete(b: B)
    | Alloc(b: B, segment: Segment, available: bool)
    | Free(b: B)
    | Ref(b: B, segment: Segment, available: bool)
    | Chain(head: B, tail: B)
    | Next(b: B)
    | First(b: B)

  /** The netbufs a command works on exist; netbuf_next reads through the cursor without a check. */
  ghost predicate Legal<B>(v: map<B, Buffer>, c: Command<B>) {
    match c
    case New(b, _) => b !in v
    case Chain(h, t) => h in v && t in v && h != t
    case Next(b) => b in v && v[b].cursor.At?
    case _ => c.b in v
  }

  /** What netbuf_alloc leaves when memory runs out: the old contents are gone, the cursor is not reset. */
  function Spoiled(b: Buffer): Buffer {
    Buffer([], if b.cursor == Nowhere then Nowhere else Stale)
  }

  function Advanced(b: Buffer): Buffer {
    if b.cursor.At? && b.cursor.place + 1 < |b.segments| then b.(cursor := At(b.cursor.place + 1)) else b
  }

  /** What netbuf_chain makes of two netbufs: nothing is appended to a head that holds nothing. */
  function Chained(h: Buffer, t: Buffer): Buffer {
    Rewound(if h.segments == [] then [] else h.segments + t.segments)
  }

  ghost function Step<B>(v: map<B, Buffer>, c: Command<B>): map<B, Buffer>
    requires Legal(v, c)
  {
    match c
    case New(b, available) => if available then v[b := Rewound([])] else v
    case Delete(b) => v - {b}
    case Alloc(b, segment, available) => v[b := if available then Rewound([segment]) else Spoiled(v[b])]
    case Free(b) => v[b := Rewound([])]
    case Ref(b, segment, available) => v[b := Rewound(if available then [segment] else [])]
    case Chain(h, t) => v[h := Chained(v[h], v[t])] - {t}
    case Next(b) => v[b := Advanced(v[b])]
    case First(b) => v[b := Rewound(v[b].segments)]
  }

  /** What each call leaves, outright: contents, and the place of the cursor. */
  lemma CommandsMean<B>(v: map<B, Buffer>, c: Command<B>)
    requires Legal(v, c)
    ensures (c.Alloc? || c.Ref?) && c.available ==> Step(v, c)[c.b] == Buffer([c.segment], At(0))
    ensures (c.New? && c.available) || c.Free? || (c.Ref? && !c.available) ==> Step(v, c)[c.b] == Buffer([], Nowhere)
    ensures c.Alloc? && !c.available ==> Step(v, c)[c.b].segments == []
    ensures c.Delete? ==> c.b !in Step(v, c)
    ensures c.First? ==> Step(v, c)[c.b].segments == v[c.b].segments
    ensures c.First? ==> Step(v, c)[c.b].cursor == if v[c.b].segments == [] then Nowhere else At(0)
    ensures c.Next? ==>
              var i := v[c.b].cursor.place;
              Step(v, c)[c.b] == Buffer(v[c.b].segments, At(if i + 1 < |v[c.b].segments| then i + 1 else i))
    ensures c.Chain? ==> c.tail !in Step(v, c)
    ensures c.Chain? && v[c.head].segments != [] ==>
              Step(v, c)[c.head] == Buffer(v[c.head].segments + v[c.tail].segments, At(0))
    ensures c.Chain? && v[c.head].segments == [] ==> Step(v, c)[c.head] == Buffer([], Nowhere)
  {
  }

  // ---- the state behind it ---------------------------------------------------------------

  datatype State<B(==), N(==)> = State(
    books: Books<B, N>, at: map<B, Cursor>, data: map<N, Segment>, total: map<N, nat>)

  ghost predicate CursorAt<B, N>(st: State<B, N>, b: B)
    requires b in st.books.chain
  {
    && b in st.at
    && match st.at[b]
       case At(i) => i < |st.books.chain[b]|
       case _ => st.books.chain[b] == []
  }

  /** The total length counts the bytes from here to the end of the chain, in 16 bits. */
  ghost predicate TotalAt<B, N>(st: State<B, N>, q: N)
    requires q in st.books.g.next
  {
    && q in st.total && q in st.data
    && match st.books.g.next[q]
       case None => st.total[q] == st.data[q].len % U16
       case Some(n) => n in st.total && st.total[q] == (st.data[q].len + st.total[n]) % U16
  }

  ghost predicate Good<B, N>(st: State<B, N>) {
    && Sound(st.books) && st.at.Keys == st.books.chain.Keys
    && (forall b {:trigger CursorAt(st, b)} :: b in st.books.chain ==> CursorAt(st, b))
    && (forall q {:trigger TotalAt(st, q)} :: q in st.books.g.live ==> TotalAt(st, q))
  }

  /** The segments of a chain, in order. */
  ghost function {:induction false} SegmentsOf<N>(data: map<N, Segment>, c: seq<N>): (r: seq<Segment>)
    ensures |r| == |c|
  {
    if c == [] then []
    else [if c[0] in data then data[c[0]] else Segment(0, 0)] + SegmentsOf(data, c[1..])
  }

  ghost function BufferAt<B, N>(st: State<B, N>, b: B): Buffer
    requires b in st.books.chain && b in st.at
  {
    Buffer(SegmentsOf(st.data, st.books.chain[b]), st.at[b])
  }

  ghost function View<B, N>(st: State<B, N>): map<B, Buffer>
    requires st.at.Keys == st.books.chain.Keys
  {
    map b | b in st.books.chain :: BufferAt(st, b)
  }

  lemma {:induction false} SegmentsAppend<N>(data: map<N, Segment>, c: seq<N>, d: seq<N>)
    ensures SegmentsOf(data, c + d) == SegmentsOf(data, c) + SegmentsOf(data, d)
    decreases |c|
  {
    if c == [] {
      assert c + d == d;
    } else {
      assert (c + d)[1..] == c[1..] + d;
      SegmentsAppend(data, c[1..], d);
    }
  }

  lemma {:induction false} SegmentAt<N>(data: map<N, Segment>, c: seq<N>, i: nat)
    requires i < |c| && c[i] in data
    ensures SegmentsOf(data, c)[i] == data[c[i]]
    decreases |c|
  {
    if i > 0 {
      SegmentAt(data, c[1..], i - 1);
    }
  }

  lemma {:induction false} SegmentsElsewhere<N>(data: map<N, Segment>, c: seq<N>, q: N, x: Segment)
    requires q !in c
    ensures SegmentsOf(data[q := x], c) == SegmentsOf(data, c)
    decreases |c|
  {
    if c != [] {
      SegmentsElsewhere(data, c[1..], q, x);
    }
  }

  /** The pbufs that no netbuf leads to: allocated for ever. */
  ghost function Lost<B, N>(st: State<B, N>): set<N> {
    set q | q in st.books.home && st.books.home[q].None?
  }

  // ---- steps -----------------------------------------------------------------------------

  ghost function Created<B, N>(st: State<B, N>, b: B): State<B, N> {
    st.(books := Opened(st.books, b), at := st.at[b := Nowhere])
  }

  lemma CreatedGood<B, N>(st: State<B, N>, b: B)
    requires Good(st) && b !in st.books.chain
    ensures Good(Created(st, b)) && View(Created(st, b)) == Step(View(st), New(b, true))
  {
    var h := Created(st, b);
    OpenedSound(st.books, b);
    forall c | c in h.books.chain ensures CursorAt(h, c) {
      if c != b {
        assert CursorAt(st, c);
      }
    }
    forall q | q in h.books.g.live ensures TotalAt(h, q) {
      assert TotalAt(st, q);
    }
    assert BufferAt(h, b) == Rewound([]);
  }

  /** The netbuf's chain is given back; `cursor` is where its cursor is left. */
  ghost function Cleared<B, N>(st: State<B, N>, b: B, cursor: Cursor): State<B, N>
    requires Sound(st.books) && b in st.books.chain
  {
    st.(books := Emptied(st.books, b), at := st.at[b := cursor])
  }

  lemma ClearedTotal<B, N>(st: State<B, N>, b: B, q: N)
    requires Good(st) && b in st.books.chain && q in Emptied(st.books, b).g.live
    ensures q in Emptied(st.books, b).g.next && q in st.books.g.live
    ensures Emptied(st.books, b).g.next[q] == st.books.g.next[q]
  {
    assert BufferOk(st.books, b);
    if st.books.chain[b] != [] {
      ReleasesItsChain(st.books, b);
      FreedKeepsLink(st.books.g, st.books.chain[b][0], q);
    }
  }

  /** What the netbuf's own cursor can point to is gone. */
  lemma ClearedReleases<B, N>(st: State<B, N>, b: B, q: N)
    requires Good(st) && b in st.books.chain && (q in st.books.chain[b] || q !in st.books.g.live)
    ensures q !in Emptied(st.books, b).g.live
    ensures Emptied(st.books, b).g.live <= st.books.g.live
  {
    if st.books.chain[b] != [] {
      ReleasesItsChain(st.books, b);
    }
  }

  lemma ClearedGood<B, N>(st: State<B, N>, b: B, cursor: Cursor)
    requires Good(st) && b in st.books.chain && !cursor.At?
    ensures Good(Cleared(st, b, cursor))
  {
    var h := Cleared(st, b, cursor);
    EmptiedSound(st.books, b);
    forall c | c in h.books.chain ensures CursorAt(h, c) {
      if c != b {
        assert CursorAt(st, c);
      }
    }
    forall q | q in h.books.g.live ensures TotalAt(h, q) {
      ClearedTotal(st, b, q);
      assert TotalAt(st, q);
    }
  }

  lemma ClearedView<B, N>(st: State<B, N>, b: B, cursor: Cursor)
    requires Good(st) && b in st.books.chain
    ensures Cleared(st, b, cursor).books.chain == st.books.chain[b := []]
    ensures Cleared(st, b, cursor).at.Keys == st.books.chain.Keys
    ensures View(Cleared(st, b, cursor)) == View(st)[b := Buffer([], cursor)]
  {
    EmptiedSound(st.books, b);
    assert BufferAt(Cleared(st, b, cursor), b) == Buffer([], cursor);
  }

  ghost function Erased<B, N>(st: State<B, N>, b: B): State<B, N> {
    st.(books := Shut(st.books, b), at := st.at - {b})
  }

  /** What netbuf_free gives back was not lost, and what was lost stays lost. */
  lemma ClearedLost<B, N>(st: State<B, N>, b: B, cursor: Cursor)
    requires Good(st) && b in st.books.chain
    ensures Lost(Cleared(st, b, cursor)) == Lost(st)
  {
    assert BufferOk(st.books, b);
  }

  lemma GivenLost<B, N>(st: State<B, N>, b: B, q: N, segment: Segment)
    requires Good(st) && b in st.books.chain && q !in st.books.g.live
    ensures Lost(Given(st, b, q, segment)) == Lost(st)
  {
  }

  lemma JoinedLost<B, N>(st: State<B, N>, h: B, t: B)
    requires CanJoin(st, h, t)
    ensures Lost(JoinedUp(st, h, t)) == Lost(st)
  {
    assert BufferOk(st.books, t);
  }

  lemma AbandonedLost<B, N>(st: State<B, N>, h: B, t: B)
    requires Good(st) && t in st.books.chain
    ensures Lost(Abandoned(st, h, t)) == Lost(st) + Elements(st.books.chain[t])
  {
    assert BufferOk(st.books, t);
  }

  lemma ErasedGood<B, N>(st: State<B, N>, b: B)
    requires Good(st) && b in st.books.chain && st.books.chain[b] == []
    ensures Good(Erased(st, b)) && View(Erased(st, b)) == View(st) - {b}
  {
    var h := Erased(st, b);
    ShutSound(st.books, b);
    forall c | c in h.books.chain ensures CursorAt(h, c) {
      assert CursorAt(st, c);
    }
    forall q | q in h.books.g.live ensures TotalAt(h, q) {
      assert TotalAt(st, q);
    }
  }

  /** A netbuf that holds nothing gets a new pbuf. */
  ghost function Given<B, N>(st: State<B, N>, b: B, q: N, segment: Segment): State<B, N> {
    State(NetbufOwners.Filled(st.books, b, q), st.at[b := At(0)], st.data[q := segment], st.total[q := segment.len])
  }

  lemma GivenTotal<B, N>(st: State<B, N>, b: B, q: N, segment: Segment, r: N)
    requires Good(st) && b in st.books.chain && st.books.chain[b] == []
    requires q !in st.books.g.live && segment.len < U16 && r in Given(st, b, q, segment).books.g.live
    ensures TotalAt(Given(st, b, q, segment), r)
  {
    if r != q {
      assert TotalAt(st, r) && LinkOk(st.books.g, r);
    }
  }

  lemma GivenSegments<B, N>(st: State<B, N>, b: B, q: N, segment: Segment, c: B)
    requires Good(st) && b in st.books.chain && q !in st.books.g.live && c in st.books.chain && c != b
    ensures SegmentsOf(st.data[q := segment], st.books.chain[c]) == SegmentsOf(st.data, st.books.chain[c])
  {
    assert BufferOk(st.books, c);
    SegmentsElsewhere(st.data, st.books.chain[c], q, segment);
  }

  lemma GivenGood<B, N>(st: State<B, N>, b: B, q: N, segment: Segment)
    requires Good(st) && b in st.books.chain && st.books.chain[b] == []
    requires q !in st.books.g.live && segment.len < U16
    ensures Good(Given(st, b, q, segment))
  {
    var h := Given(st, b, q, segment);
    FilledSound(st.books, b, q);
    forall c | c in h.books.chain ensures CursorAt(h, c) {
      if c != b {
        assert CursorAt(st, c);
      }
    }
    forall r | r in h.books.g.live ensures TotalAt(h, r) {
      GivenTotal(st, b, q, segment, r);
    }
  }

  lemma GivenView<B, N>(st: State<B, N>, b: B, q: N, segment: Segment)
    requires Good(st) && b in st.books.chain && q !in st.books.g.live
    ensures Given(st, b, q, segment).at.Keys == Given(st, b, q, segment).books.chain.Keys
    ensures View(Given(st, b, q, segment)) == View(st)[b := Rewound([segment])]
  {
    var h := Given(st, b, q, segment);
    forall c | c in h.books.chain && c != b ensures BufferAt(h, c) == BufferAt(st, c) {
      GivenSegments(st, b, q, segment, c);
    }
    assert h.books.chain[b] == [q] && SegmentsOf(h.data, [q]) == [segment];
    assert BufferAt(h, b) == Rewound([segment]);
  }

  ghost function Moved<B, N>(st: State<B, N>, b: B, cursor: Cursor): State<B, N> {
    st.(at := st.at[b := cursor])
  }

  lemma MovedGood<B, N>(st: State<B, N>, b: B, cursor: Cursor)
    requires Good(st) && b in st.books.chain
    requires match cursor case At(i) => i < |st.books.chain[b]| case _ => st.books.chain[b] == []
    ensures Good(Moved(st, b, cursor)) && View(Moved(st, b, cursor)) == View(st)[b := View(st)[b].(cursor := cursor)]
  {
    var h := Moved(st, b, cursor);
    forall c | c in h.books.chain ensures CursorAt(h, c) {
      if c != b {
        assert CursorAt(st, c);
      }
    }
    forall q | q in h.books.g.live ensures TotalAt(h, q) {
      assert TotalAt(st, q);
    }
  }

  // ---- joining ---------------------------------------------------------------------------

  ghost function Sums<N>(total: map<N, nat>, c: seq<N>, more: nat): map<N, nat> {
    map q | q in total :: if q in c then (total[q] + more) % U16 else total[q]
  }

  ghost predicate CanJoin<B, N>(st: State<B, N>, h: B, t: B) {
    && Good(st) && h in st.books.chain && t in st.books.chain && h != t
    && st.books.chain[h] != [] && st.books.chain[t] != [] && st.books.chain[t][0] in st.total
  }

  ghost function JoinedUp<B, N>(st: State<B, N>, h: B, t: B): State<B, N>
    requires CanJoin(st, h, t)
  {
    State(Merged(st.books, h, t), (st.at - {t})[h := At(0)], st.data,
          Sums(st.total, st.books.chain[h], st.total[st.books.chain[t][0]]))
  }

  lemma {:induction false} SumsOnChain(a: nat, b: nat, c: nat)
    ensures ((a + b) % U16 + c) % U16 == (a + (b + c) % U16) % U16
  {
  }

  lemma SumsAtEnd(a: nat, c: nat)
    ensures (a % U16 + c) % U16 == (a + c) % U16
  {
  }

  /** A pbuf whose link leads into a netbuf's chain behind its head is in that chain. */
  lemma LinkedFromInside<B, N>(s: Books<B, N>, b: B, q: N, n: N)
    requires Sound(s) && b in s.chain && q in s.g.live && s.g.next[q] == Some(n) && n in s.chain[b]
    ensures q in s.chain[b]
  {
    assert BufferOk(s, b) && LinkOk(s.g, q);
    var c := s.chain[b];
    var j :| 0 <= j < |c| && c[j] == n;
    assert PlaceOk(s, n) && CountOk(s.g, n) && q in s.g.preds[n];
    OnePointer(s.g, n, q);
    if j > 0 {
      assert s.g.next[c[j - 1]] == Follower(c, j - 1);
      assert LinkOk(s.g, c[j - 1]);
      OnlyOne(s.g.preds[n], q, c[j - 1]);
    }
  }

  lemma OnePointer<N>(g: Graph<N>, n: N, q: N)
    requires Exact(g) && n in g.live && g.ref[n] == 1 && q in g.preds[n]
    ensures |g.preds[n]| == 1 && n !in g.owners
  {
    assert CountOk(g, n);
    assert |g.preds[n]| > 0;
  }

  lemma OnlyOne<N>(s: set<N>, q: N, r: N)
    requires |s| == 1 && q in s && r in s
    ensures q == r
  {
    assert |s - {q}| == 0;
    assert r in s - {q} || r == q;
  }

  lemma JoinedLink<B, N>(st: State<B, N>, h: B, t: B, q: N)
    requires CanJoin(st, h, t) && q in st.books.g.live
    ensures JoinedUp(st, h, t).books.g.live == st.books.g.live
    ensures JoinedUp(st, h, t).books.g.next ==
              st.books.g.next[Last(st.books.chain[h]) := Some(st.books.chain[t][0])]
    ensures Last(st.books.chain[h]) in st.books.g.next
    ensures st.books.g.next[Last(st.books.chain[h])] == None && st.books.chain[t][0] !in st.books.chain[h]
  {
    assert BufferOk(st.books, h) && BufferOk(st.books, t);
    ChainsApart(st.books, h, t);
    assert st.books.chain[t][0] in st.books.chain[t];
    assert st.books.g.next[Last(st.books.chain[h])] == Follower(st.books.chain[h], |st.books.chain[h]| - 1);
  }

  lemma JoinedTotal<B, N>(st: State<B, N>, h: B, t: B, q: N)
    requires CanJoin(st, h, t) && q in st.books.g.live
    ensures q in JoinedUp(st, h, t).books.g.next && TotalAt(JoinedUp(st, h, t), q)
  {
    JoinedLink(st, h, t, q);
    assert TotalAt(st, q);
    var c := st.books.chain[h];
    var more := st.total[st.books.chain[t][0]];
    if q == Last(c) {
      SumsAtEnd(st.data[q].len, more);
    } else if st.books.g.next[q].Some? {
      InnerTotal(st, h, q, st.books.g.next[q].value, more);
    } else if q in c {
      InChainHasNext(st.books, h, q);
    }
  }

  lemma InChainHasNext<B, N>(s: Books<B, N>, b: B, q: N)
    requires Sound(s) && b in s.chain && s.chain[b] != [] && q in s.chain[b] && q != Last(s.chain[b])
    ensures q in s.g.next && s.g.next[q].Some? && s.g.next[q].value in s.chain[b]
  {
    assert BufferOk(s, b);
    var i :| 0 <= i < |s.chain[b]| && s.chain[b][i] == q;
    assert s.g.next[s.chain[b][i]] == Follower(s.chain[b], i);
  }

  lemma InnerTotal<B, N>(st: State<B, N>, h: B, q: N, n: N, more: nat)
    requires Good(st) && h in st.books.chain && st.books.chain[h] != [] && q in st.books.g.live
    requires st.books.g.next[q] == Some(n) && q != Last(st.books.chain[h]) && TotalAt(st, q)
    ensures q in st.total && n in st.total && q in st.data
    ensures var sums := Sums(st.total, st.books.chain[h], more); sums[q] == (st.data[q].len + sums[n]) % U16
  {
    if q in st.books.chain[h] {
      InChainHasNext(st.books, h, q);
      SumsOnChain(st.data[q].len, st.total[n], more);
    } else if n in st.books.chain[h] {
      LinkedFromInside(st.books, h, q, n);
    }
  }

  lemma JoinedView<B, N>(st: State<B, N>, h: B, t: B)
    requires CanJoin(st, h, t)
    ensures JoinedUp(st, h, t).at.Keys == JoinedUp(st, h, t).books.chain.Keys
    ensures View(JoinedUp(st, h, t)) == Step(View(st), Chain(h, t))
  {
    JoinedHead(st, h, t);
    forall b | b in st.books.chain && b != h && b != t ensures BufferAt(JoinedUp(st, h, t), b) == BufferAt(st, b) {
    }
    assert View(st)[h] == BufferAt(st, h) && View(st)[t] == BufferAt(st, t);
  }

  lemma JoinedHead<B, N>(st: State<B, N>, h: B, t: B)
    requires CanJoin(st, h, t)
    ensures h in JoinedUp(st, h, t).books.chain && h in JoinedUp(st, h, t).at
    ensures BufferAt(JoinedUp(st, h, t), h) == Chained(BufferAt(st, h), BufferAt(st, t))
  {
    SegmentsAppend(st.data, st.books.chain[h], st.books.chain[t]);
  }

  lemma JoinedUpGood<B, N>(st: State<B, N>, h: B, t: B)
    requires CanJoin(st, h, t)
    ensures Good(JoinedUp(st, h, t))
  {
    var j := JoinedUp(st, h, t);
    MergedSound(st.books, h, t);
    forall c | c in j.books.chain ensures CursorAt(j, c) {
      if c != h {
        assert CursorAt(st, c);
      }
    }
    forall q | q in j.books.g.live ensures TotalAt(j, q) {
      JoinedTotal(st, h, t, q);
    }
  }

  /** netbuf_chain with a head that holds nothing: the tail's pbufs are lost. */
  ghost function Abandoned<B, N>(st: State<B, N>, h: B, t: B): State<B, N>
    requires t in st.books.chain
  {
    st.(books := Orphaned(st.books, t), at := (st.at - {t})[h := Nowhere])
  }

  lemma AbandonedGood<B, N>(st: State<B, N>, h: B, t: B)
    requires Good(st) && h in st.books.chain && t in st.books.chain && h != t && st.books.chain[h] == []
    ensures Good(Abandoned(st, h, t)) && View(Abandoned(st, h, t)) == Step(View(st), Chain(h, t))
  {
    var j := Abandoned(st, h, t);
    OrphanedSound(st.books, t);
    forall c | c in j.books.chain ensures CursorAt(j, c) {
      if c != h {
        assert CursorAt(st, c);
      }
    }
    forall q | q in j.books.g.live ensures TotalAt(j, q) {
      assert TotalAt(st, q);
    }
    assert BufferAt(j, h) == Rewound([]);
    assert View(j) == View(st)[h := BufferAt(j, h)] - {t};
  }

  // ---- the steps against the view --------------------------------------------------------

  /** The state after is what the command makes of the view before. */
  ghost predicate Follows<B, N>(before: State<B, N>, c: Command<B>, after: State<B, N>)
    requires before.at.Keys == before.books.chain.Keys && after.at.Keys == after.books.chain.Keys
  {
    Legal(View(before), c) && View(after) == Step(View(before), c)
  }

  ghost function CursorLeft(c: Cursor): Cursor {
    if c == Nowhere then Nowhere else Stale
  }

  /** The netbuf after its chain was given back and `ptr` left alone. */
  ghost function Emptying<B, N>(st: State<B, N>, b: B): State<B, N>
    requires Sound(st.books) && b in st.books.chain && b in st.at
  {
    Cleared(st, b, CursorLeft(st.at[b]))
  }

  lemma EmptyingKeeps<B, N>(st: State<B, N>, b: B)
    requires Good(st) && b in st.books.chain
    ensures Good(Emptying(st, b)) && Emptying(st, b).books.chain == st.books.chain[b := []]
    ensures View(Emptying(st, b)) == View(st)[b := Buffer([], CursorLeft(st.at[b]))]
    ensures Lost(Emptying(st, b)) == Lost(st) && Emptying(st, b).books.g.live <= st.books.g.live
  {
    ClearedGood(st, b, CursorLeft(st.at[b]));
    ClearedView(st, b, CursorLeft(st.at[b]));
    ClearedLost(st, b, CursorLeft(st.at[b]));
    assert BufferOk(st.books, b);
  }

  /** What every netbuf call keeps: soundness, what was lost, and no new pbufs but those in `more`. */
  ghost predicate Keeps<B, N>(before: State<B, N>, after: State<B, N>, more: set<N>) {
    Good(after) && Lost(after) == Lost(before) && after.books.g.live <= before.books.g.live + more
  }

  lemma EmptiedFollows<B, N>(st: State<B, N>, b: B, segment: Segment)
    requires Good(st) && b in st.books.chain
    ensures Keeps(st, Emptying(st, b), {})
    ensures View(Emptying(st, b)) == Step(View(st), Alloc(b, segment, false))
  {
    EmptyingKeeps(st, b);
    assert View(st)[b] == BufferAt(st, b);
  }

  ghost function Refilled<B, N>(st: State<B, N>, b: B, q: N, segment: Segment): State<B, N>
    requires Sound(st.books) && b in st.books.chain && b in st.at
  {
    Given(Emptying(st, b), b, q, segment)
  }

  lemma ThenGiven<B, N>(st: State<B, N>, k: State<B, N>, b: B, q: N, segment: Segment)
    requires Good(st) && Keeps(st, k, {})
    requires b in k.books.chain && k.books.chain[b] == [] && segment.len < U16 && q !in k.books.g.live
    ensures Keeps(st, Given(k, b, q, segment), {q})
  {
    GivenGood(k, b, q, segment);
    GivenLost(k, b, q, segment);
  }

  lemma Overwrites<B>(v: map<B, Buffer>, w: map<B, Buffer>, b: B, x: Buffer, y: Buffer)
    requires w == v[b := x]
    ensures w[b := y] == v[b := y]
  {
  }

  lemma ThenErased<B, N>(st: State<B, N>, k: State<B, N>, b: B, x: Buffer)
    requires Good(st) && Keeps(st, k, {}) && View(k) == View(st)[b := x]
    requires b in k.books.chain && k.books.chain[b] == []
    ensures Keeps(st, Erased(k, b), {})
    ensures View(Erased(k, b)) == View(st) - {b}
  {
    ErasedGood(k, b);
  }

  lemma RefilledFollows<B, N>(st: State<B, N>, b: B, q: N, segment: Segment, c: Command<B>)
    requires Good(st) && b in st.books.chain && segment.len < U16 && q !in Emptying(st, b).books.g.live
    requires c == Alloc(b, segment, true) || c == Ref(b, segment, true)
    ensures Keeps(st, Refilled(st, b, q, segment), {q})
    ensures View(Refilled(st, b, q, segment)) == Step(View(st), c)
  {
    EmptyingKeeps(st, b);
    ThenGiven(st, Emptying(st, b), b, q, segment);
    GivenView(Emptying(st, b), b, q, segment);
    Overwrites(View(st), View(Emptying(st, b)), b, Buffer([], CursorLeft(st.at[b])), Rewound([segment]));
  }

  ghost function Drained<B, N>(st: State<B, N>, b: B): State<B, N>
    requires Sound(st.books) && b in st.books.chain && b in st.at
  {
    Moved(Emptying(st, b), b, Nowhere)
  }

  lemma DrainedView<B, N>(st: State<B, N>, b: B)
    requires Good(st) && b in st.books.chain
    ensures Keeps(st, Drained(st, b), {})
    ensures View(Drained(st, b)) == View(st)[b := Rewound([])]
  {
    EmptyingKeeps(st, b);
    MovedGood(Emptying(st, b), b, Nowhere);
  }

  lemma FreedFollows<B, N>(st: State<B, N>, b: B, c: Command<B>)
    requires Good(st) && b in st.books.chain
    requires c == Free(b) || (c.Ref? && c.b == b && !c.available)
    ensures Keeps(st, Drained(st, b), {})
    ensures View(Drained(st, b)) == Step(View(st), c)
  {
    DrainedView(st, b);
  }

  ghost function Deleted<B, N>(st: State<B, N>, b: B): State<B, N>
    requires Sound(st.books) && b in st.books.chain && b in st.at
  {
    Erased(Emptying(st, b), b)
  }

  lemma DeletedFollows<B, N>(st: State<B, N>, b: B)
    requires Good(st) && b in st.books.chain
    ensures Keeps(st, Deleted(st, b), {})
    ensures View(Deleted(st, b)) == Step(View(st), Delete(b))
  {
    EmptyingKeeps(st, b);
    ThenErased(st, Emptying(st, b), b, Buffer([], CursorLeft(st.at[b])));
  }

  ghost function Front<N>(c: seq<N>): Cursor {
    if c == [] then Nowhere else At(0)
  }

  lemma FirstFollows<B, N>(st: State<B, N>, b: B)
    requires Good(st) && b in st.books.chain
    ensures Good(Moved(st, b, Front(st.books.chain[b])))
    ensures Follows(st, First(b), Moved(st, b, Front(st.books.chain[b])))
  {
    MovedGood(st, b, Front(st.books.chain[b]));
    assert View(st)[b] == BufferAt(st, b);
  }

  ghost function Onward<B, N>(st: State<B, N>, b: B): State<B, N>
    requires b in st.books.chain && b in st.at && st.at[b].At?
  {
    if st.at[b].place + 1 < |st.books.chain[b]| then Moved(st, b, At(st.at[b].place + 1)) else st
  }

  lemma OnwardKeeps<B, N>(st: State<B, N>, b: B)
    requires Good(st) && b in st.books.chain && st.at[b].At?
    ensures st.at[b].place < |st.books.chain[b]|
    ensures Keeps(st, Onward(st, b), {}) && Onward(st, b).books == st.books && Onward(st, b).data == st.data
  {
    assert CursorAt(st, b);
    if st.at[b].place + 1 < |st.books.chain[b]| {
      MovedGood(st, b, At(st.at[b].place + 1));
    }
  }

  lemma OnwardView<B, N>(st: State<B, N>, b: B)
    requires Good(st) && b in st.books.chain && st.at[b].At?
    ensures Onward(st, b).at.Keys == st.books.chain.Keys
    ensures View(Onward(st, b)) == View(st)[b := Advanced(View(st)[b])]
  {
    assert View(st)[b] == BufferAt(st, b);
    if st.at[b].place + 1 < |st.books.chain[b]| {
      MovedGood(st, b, At(st.at[b].place + 1));
    } else {
      assert View(st)[b := BufferAt(st, b)] == View(st);
    }
  }

  lemma NextFollows<B, N>(st: State<B, N>, b: B)
    requires Good(st) && b in st.books.chain && st.at[b].At?
    ensures st.at[b].place < |st.books.chain[b]|
    ensures Keeps(st, Onward(st, b), {}) && Onward(st, b).books == st.books && Onward(st, b).data == st.data
    ensures View(Onward(st, b)) == Step(View(st), Next(b))
  {
    OnwardKeeps(st, b);
    OnwardView(st, b);
  }

  /** netbuf_chain with a tail that holds nothing. */
  lemma NothingChained<B, N>(st: State<B, N>, h: B, t: B)
    requires Good(st) && h in st.books.chain && t in st.books.chain && h != t && st.books.chain[t] == []
    ensures Good(Erased(Moved(st, h, Front(st.books.chain[h])), t))
    ensures Follows(st, Chain(h, t), Erased(Moved(st, h, Front(st.books.chain[h])), t))
  {
    var k := Moved(st, h, Front(st.books.chain[h]));
    MovedGood(st, h, Front(st.books.chain[h]));
    ErasedGood(k, t);
    assert View(st)[h] == BufferAt(st, h) && View(st)[t] == BufferAt(st, t);
    assert BufferAt(st, h).segments + BufferAt(st, t).segments == BufferAt(st, h).segments;
  }

  ghost function ChainedUp<B, N>(st: State<B, N>, h: B, t: B): State<B, N>
    requires h in st.books.chain && t in st.books.chain
  {
    if CanJoin(st, h, t) then JoinedUp(st, h, t)
    else if st.books.chain[t] == [] then Erased(Moved(st, h, Front(st.books.chain[h])), t)
    else Abandoned(st, h, t)
  }

  /** The pbufs netbuf_chain loses: those of the tail, when the head holds nothing. */
  ghost function Leaked<B, N>(st: State<B, N>, h: B, t: B): set<N>
    requires h in st.books.chain && t in st.books.chain
  {
    if st.books.chain[h] == [] then Elements(st.books.chain[t]) else {}
  }

  lemma ChainedKeeps<B, N>(st: State<B, N>, h: B, t: B)
    requires Good(st) && h in st.books.chain && t in st.books.chain && h != t
    requires CanJoin(st, h, t) <==> st.books.chain[h] != [] && st.books.chain[t] != []
    ensures Good(ChainedUp(st, h, t)) && Lost(ChainedUp(st, h, t)) == Lost(st) + Leaked(st, h, t)
    ensures ChainedUp(st, h, t).books.g.live == st.books.g.live
  {
    if CanJoin(st, h, t) {
      JoinedUpGood(st, h, t);
      JoinedLost(st, h, t);
    } else if st.books.chain[t] == [] {
      NothingChained(st, h, t);
    } else {
      AbandonedGood(st, h, t);
      AbandonedLost(st, h, t);
    }
  }

  lemma ChainedFollows<B, N>(st: State<B, N>, h: B, t: B)
    requires Good(st) && h in st.books.chain && t in st.books.chain && h != t
    requires CanJoin(st, h, t) <==> st.books.chain[h] != [] && st.books.chain[t] != []
    ensures ChainedUp(st, h, t).at.Keys == ChainedUp(st, h, t).books.chain.Keys
    ensures View(ChainedUp(st, h, t)) == Step(View(st), Chain(h, t))
  {
    if CanJoin(st, h, t) {
      JoinedView(st, h, t);
    } else if st.books.chain[t] == [] {
      NothingChained(st, h, t);
    } else {
      AbandonedGood(st, h, t);
    }
  }

  // ---- lengths and bytes -----------------------------------------------------------------

  function Lengths(segments: seq<Segment>): nat {
    if segments == [] then 0 else segments[0].len + Lengths(segments[1..])
  }

  /** The total length of each pbuf of a netbuf is the number of bytes from there on, in 16 bits. */
  lemma {:induction false} TotalsAreLengths<B, N>(st: State<B, N>, c: seq<N>)
    requires Good(st) && c != [] && IsChain(st.books.g, Some(c[0]), c)
    ensures c[0] in st.total && st.total[c[0]] == Lengths(SegmentsOf(st.data, c)) % U16
    decreases |c|
  {
    assert c[0] in st.books.g.next && st.books.g.next[c[0]] == Follower(c, 0);
    assert TotalAt(st, c[0]);
    assert SegmentsOf(st.data, c)[1..] == SegmentsOf(st.data, c[1..]);
    if |c| > 1 {
      ChainRest(st.books.g, Some(c[0]), c);
      TotalsAreLengths(st, c[1..]);
      WrappedSum(st.data[c[0]].len, Lengths(SegmentsOf(st.data, c[1..])));
    }
  }

  lemma WrappedSum(a: nat, b: nat)
    ensures (a + b % U16) % U16 == (a + b) % U16
  {
  }

  /** The bytes of a segment in memory `mem`. */
  function Bytes(mem: nat -> nat, s: Segment): seq<nat> {
    seq(s.len, i requires 0 <= i => mem(s.address + i))
  }

  function AllBytes(mem: nat -> nat, segments: seq<Segment>): seq<nat> {
    if segments == [] then [] else Bytes(mem, segments[0]) + AllBytes(mem, segments[1..])
  }

  lemma {:induction false} AllBytesAppend(mem: nat -> nat, a: seq<Segment>, s: Segment)
    ensures AllBytes(mem, a + [s]) == AllBytes(mem, a) + Bytes(mem, s)
    decreases |a|
  {
    if a == [] {
      assert [s][1..] == [];
    } else {
      assert (a + [s])[1..] == a[1..] + [s];
      AllBytesAppend(mem, a[1..], s);
    }
  }

  // ---- runs ------------------------------------------------------------------------------

  ghost predicate LegalRun<B>(v: map<B, Buffer>, cs: seq<Command<B>>)
    decreases |cs|
  {
    cs == [] || (Legal(v, cs[0]) && LegalRun(Step(v, cs[0]), cs[1..]))
  }

  ghost function After<B>(v: map<B, Buffer>, cs: seq<Command<B>>): map<B, Buffer>
    requires LegalRun(v, cs)
    decreases |cs|
  {
    if cs == [] then v else After(Step(v, cs[0]), cs[1..])
  }

  ghost predicate Names<B>(c: Command<B>, b: B) {
    match c
    case Chain(h, t) => b == h || b == t
    case _ => c.b == b
  }

  /** The cursor of a netbuf is stale after a command exactly when the command is an allocation that
      ran out of memory on a netbuf whose cursor was set, or left a stale cursor alone. */
  lemma CursorRule<B>(v: map<B, Buffer>, c: Command<B>, b: B)
    requires Legal(v, c) && b in v && b in Step(v, c)
    ensures Step(v, c)[b].cursor == Stale <==>
              if Names(c, b) then c.Alloc? && !c.available && v[b].cursor != Nowhere else v[b].cursor == Stale
  {
  }

  /** Over any run, a netbuf no command names keeps its contents and its cursor. */
  lemma {:induction false} OnlyNamedChange<B>(v: map<B, Buffer>, cs: seq<Command<B>>, b: B)
    requires LegalRun(v, cs) && forall i :: 0 <= i < |cs| ==> !Names(cs[i], b)
    ensures b in After(v, cs) <==> b in v
    ensures b in v ==> After(v, cs)[b] == v[b]
    decreases |cs|
  {
    if cs != [] {
      assert !Names(cs[0], b);
      forall i | 0 <= i < |cs[1..]| ensures !Names(cs[1..][i], b) {
        assert cs[1..][i] == cs[i + 1];
      }
      OnlyNamedChange(Step(v, cs[0]), cs[1..], b);
    }
  }

  /** A run is its first `k` commands and then the others. */
  lemma {:induction false} SplitRun<B>(v: map<B, Buffer>, cs: seq<Command<B>>, k: nat)
    requires LegalRun(v, cs) && k <= |cs|
    ensures LegalRun(v, cs[..k]) && LegalRun(After(v, cs[..k]), cs[k..])
    ensures After(v, cs) == After(After(v, cs[..k]), cs[k..])
    decreases k
  {
    if k > 0 {
      SplitRun(Step(v, cs[0]), cs[1..], k - 1);
      assert cs[..k][1..] == cs[1..][..k - 1] && cs[1..][k - 1..] == cs[k..];
    }
  }

  /** Command number `k` is the last one of the run that names the netbuf. */
  ghost predicate LastNaming<B>(cs: seq<Command<B>>, k: nat, b: B) {
    k < |cs| && Names(cs[k], b) && forall i :: k < i < |cs| ==> !Names(cs[i], b)
  }

  /** Over any run: a netbuf's cursor is stale at the end exactly when the last command naming it is an
      allocation without memory that found the cursor set. */
  lemma StaleAfterRun<B>(v: map<B, Buffer>, cs: seq<Command<B>>, k: nat, b: B)
    requires LegalRun(v, cs) && LastNaming(cs, k, b) && b in After(v, cs)
    ensures LegalRun(v, cs[..k])
    ensures After(v, cs)[b].cursor == Stale <==>
            cs[k].Alloc? && !cs[k].available && b in After(v, cs[..k]) && After(v, cs[..k])[b].cursor != Nowhere
  {
    SplitRun(v, cs, k);
    var w, rest := After(v, cs[..k]), cs[k + 1..];
    assert cs[k..][0] == cs[k] && cs[k..][1..] == rest;
    forall i | 0 <= i < |rest| ensures !Names(rest[i], b) {
      assert rest[i] == cs[k + 1 + i];
    }
    OnlyNamedChange(Step(w, cs[k]), rest, b);
    if b in w {
      CursorRule(w, cs[k], b);
    }
  }

  // ---- numbered netbufs ------------------------------------------------------------------

  /** The program's numbers for its netbufs: every netbuf has exactly one. */
  ghost predicate Numbered<B>(v: map<B, Buffer>, hs: map<nat, B>) {
    hs.Values == v.Keys && forall i, j :: i in hs && j in hs && hs[i] == hs[j] ==> i == j
  }

  ghost function ByNumber<B>(v: map<B, Buffer>, hs: map<nat, B>): map<nat, Buffer>
    requires Numbered(v, hs)
  {
    map i | i in hs :: v[hs[i]]
  }

  lemma NumberedUpdate<B>(v: map<B, Buffer>, hs: map<nat, B>, i: nat, x: Buffer)
    requires Numbered(v, hs) && i in hs
    ensures Numbered(v[hs[i] := x], hs) && ByNumber(v[hs[i] := x], hs) == ByNumber(v, hs)[i := x]
  {
    assert hs[i] in hs.Values;
  }

  lemma NumberedAdd<B>(v: map<B, Buffer>, hs: map<nat, B>, i: nat, b: B, x: Buffer)
    requires Numbered(v, hs) && i !in hs && b !in v
    ensures Numbered(v[b := x], hs[i := b]) && ByNumber(v[b := x], hs[i := b]) == ByNumber(v, hs)[i := x]
  {
    var w := hs[i := b];
    forall c ensures c in w.Values <==> c in v[b := x] {
      if c in v && c != b {
        assert c in hs.Values;
        var j :| j in hs && hs[j] == c;
        assert w[j] == c;
      }
      if c == b {
        assert w[i] == b;
      }
    }
    forall j, k | j in w && k in w && w[j] == w[k] ensures j == k {
      assert j != i ==> hs[j] in hs.Values;
      assert k != i ==> hs[k] in hs.Values;
    }
  }

  lemma NumberedRemove<B>(v: map<B, Buffer>, hs: map<nat, B>, i: nat)
    requires Numbered(v, hs) && i in hs
    ensures Numbered(v - {hs[i]}, hs - {i}) && ByNumber(v - {hs[i]}, hs - {i}) == ByNumber(v, hs) - {i}
  {
    var w := hs - {i};
    forall c ensures c in w.Values <==> c in v - {hs[i]} {
      if c in v && c != hs[i] {
        assert c in hs.Values;
        var j :| j in hs && hs[j] == c;
        assert j in w && w[j] == c;
      }
      if c in w.Values {
        var j :| j in w && w[j] == c;
        assert hs[j] == c && c in hs.Values;
      }
    }
  }

  /** The command on the netbufs behind the numbers. */
  function Renamed<B>(c: Command<nat>, hs: map<nat, B>): Command<B>
    requires !c.New? && (if c.Chain? then c.head in hs && c.tail in hs else c.b in hs)
  {
    match c
    case Delete(i) => Delete(hs[i])
    case Alloc(i, segment, available) => Alloc(hs[i], segment, available)
    case Free(i) => Free(hs[i])
    case Ref(i, segment, available) => Ref(hs[i], segment, available)
    case Chain(h, t) => Chain(hs[h], hs[t])
    case Next(i) => Next(hs[i])
    case First(i) => First(hs[i])
  }

  /** The numbers that remain in use. */
  function StillUsed<B>(hs: map<nat, B>, c: Command<nat>): map<nat, B> {
    match c
    case Delete(i) => hs - {i}
    case Chain(h, t) => hs - {t}
    case _ => hs
  }

  lemma BehindNumber<B>(v: map<B, Buffer>, hs: map<nat, B>, i: nat)
    requires Numbered(v, hs) && i in hs
    ensures hs[i] in v && ByNumber(v, hs)[i] == v[hs[i]]
  {
    assert hs[i] in hs.Values;
  }

  /** Numbering commutes with every command on existing netbufs. */
  lemma NumberedStep<B>(v: map<B, Buffer>, hs: map<nat, B>, c: Command<nat>)
    requires Numbered(v, hs) && !c.New? && Legal(ByNumber(v, hs), c)
    ensures Legal(v, Renamed(c, hs))
    ensures Numbered(Step(v, Renamed(c, hs)), StillUsed(hs, c))
    ensures ByNumber(Step(v, Renamed(c, hs)), StillUsed(hs, c)) == Step(ByNumber(v, hs), c)
  {
    if c.Chain? {
      NumberedChain(v, hs, c.head, c.tail);
    } else {
      BehindNumber(v, hs, c.b);
      if c.Delete? {
        NumberedRemove(v, hs, c.b);
      } else {
        NumberedUpdate(v, hs, c.b, Step(ByNumber(v, hs), c)[c.b]);
      }
    }
  }

  lemma NumberedChain<B>(v: map<B, Buffer>, hs: map<nat, B>, h: nat, t: nat)
    requires Numbered(v, hs) && h in hs && t in hs && h != t
    ensures Legal(v, Chain(hs[h], hs[t]))
    ensures Numbered(Step(v, Chain(hs[h], hs[t])), hs - {t})
    ensures ByNumber(Step(v, Chain(hs[h], hs[t])), hs - {t}) == Step(ByNumber(v, hs), Chain(h, t))
  {
    BehindNumber(v, hs, h);
    BehindNumber(v, hs, t);
    var x := Chained(v[hs[h]], v[hs[t]]);
    NumberedUpdate(v, hs, h, x);
    NumberedRemove(v[hs[h] := x], hs, t);
  }

  /** netbuf_chain loses pbufs: the head holds nothing and the tail holds something. */
  ghost predicate Leaks<B>(v: map<B, Buffer>, c: Command<B>)
    requires Legal(v, c)
  {
    c.Chain? && v[c.head].segments == [] && v[c.tail].segments != []
  }

  ghost predicate NeverLeaks<B>(v: map<B, Buffer>, cs: seq<Command<B>>)
    requires LegalRun(v, cs)
    decreases |cs|
  {
    cs == [] || (!Leaks(v, cs[0]) && NeverLeaks(Step(v, cs[0]), cs[1..]))
  }

  lemma KeysShrink<B, N>(before: State<B, N>, c: Command<B>, after: State<B, N>)
    requires before.at.Keys == before.books.chain.Keys && after.at.Keys == after.books.chain.Keys
    requires !c.New? && Legal(View(before), c) && View(after) == Step(View(before), c)
    ensures after.books.chain.Keys <= before.books.chain.Keys
  {
    assert View(before).Keys == before.books.chain.Keys && View(after).Keys == after.books.chain.Keys;
  }

  /** A numbered command is a command on a netbuf. */
  lemma NumberedLegal<B>(v: map<B, Buffer>, hs: map<nat, B>, c: Command<nat>)
    requires Numbered(v, hs) && !c.New? && Legal(ByNumber(v, hs), c)
    ensures Legal(v, Renamed(c, hs)) && (Sized(c) <==> Sized(Renamed(c, hs)))
    ensures Leaks(v, Renamed(c, hs)) <==> Leaks(ByNumber(v, hs), c)
  {
    NumberedStep(v, hs, c);
    if c.Chain? {
      BehindNumber(v, hs, c.head);
      BehindNumber(v, hs, c.tail);
    }
  }

  lemma NumberedAfter<B>(v: map<B, Buffer>, w: map<B, Buffer>, hs: map<nat, B>, c: Command<nat>)
    requires Numbered(v, hs) && !c.New? && Legal(ByNumber(v, hs), c) && Legal(v, Renamed(c, hs))
    requires w == Step(v, Renamed(c, hs))
    ensures Numbered(w, StillUsed(hs, c)) && ByNumber(w, StillUsed(hs, c)) == Step(ByNumber(v, hs), c)
  {
    NumberedStep(v, hs, c);
  }

  /** Sizes are 16-bit. */
  ghost predicate Sized<B>(c: Command<B>) {
    (c.Alloc? || c.Ref?) ==> c.segment.len < U16
  }

  ghost predicate AllSized<B>(cs: seq<Command<B>>) {
    forall i :: 0 <= i < |cs| ==> Sized(cs[i])
  }

  lemma RunFromHere<B>(v: map<B, Buffer>, c: Command<B>, cs: seq<Command<B>>)
    requires Legal(v, c) && LegalRun(Step(v, c), cs)
    ensures LegalRun(v, [c] + cs)
    ensures NeverLeaks(v, [c] + cs) <==> !Leaks(v, c) && NeverLeaks(Step(v, c), cs)
    ensures After(v, [c] + cs) == After(Step(v, c), cs)
  {
    assert ([c] + cs)[1..] == cs;
  }

  /** Chaining a filled netbuf to one that holds nothing loses its pbuf. */
  lemma EmptyHeadLoses(segment: Segment)
    ensures var cs: seq<Command<nat>> :=
              [New(0, true)] + ([New(1, true)] + ([Alloc(1, segment, true)] + ([Chain(0, 1)] + [])));
            LegalRun(map[], cs) && !NeverLeaks(map[], cs)
  {
    var v: map<nat, Buffer> := map[];
    var v1 := Step(v, New(0, true));
    var v2 := Step(v1, New(1, true));
    var v3 := Step(v2, Alloc(1, segment, true));
    RunFromHere(v3, Chain(0, 1), []);
    RunFromHere(v2, Alloc(1, segment, true), [Chain(0, 1)] + []);
    RunFromHere(v1, New(1, true), [Alloc(1, segment, true)] + ([Chain(0, 1)] + []));
    RunFromHere(v, New(0, true), [New(1, true)] + ([Alloc(1, segment, true)] + ([Chain(0, 1)] + [])));
  }

  /** A new netbuf, an allocation and a second one without memory: the cursor is stale. */
  lemma SecondAllocSpoils(first: Segment, second: Segment)
    ensures var cs: seq<Command<nat>> := [New(0, true)] + ([Alloc(0, first, true)] + ([Alloc(0, second, false)] + []));
            LegalRun(map[], cs) && After(map[], cs) == map[0 := Buffer([], Stale)]
  {
    var v: map<nat, Buffer> := map[];
    var v1 := Step(v, New(0, true));
    var v2 := Step(v1, Alloc(0, first, true));
    RunFromHere(v2, Alloc(0, second, false), []);
    RunFromHere(v1, Alloc(0, first, true), [Alloc(0, second, false)] + []);
    RunFromHere(v, New(0, true), [Alloc(0, first, true)] + ([Alloc(0, second, false)] + []));
  }
}
