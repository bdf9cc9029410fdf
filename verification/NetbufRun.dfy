/** Whole runs of the netbuf calls by a program that numbers its netbufs: a table from numbers to netbufs
    grows with netbuf_new and shrinks with netbuf_delete and netbuf_chain. */
module NetbufRuns {
  import opened PbufGraph
  import opened Pbufs
  import opened NetbufOwners
  import opened NetbufModel
  import opened Netbufs

  type Table = map<nat, Netbuf>

  /** The program starts with an empty system and an empty table. */
  method Start() returns (stack: Stack, hs: Table)
    ensures fresh(stack) && fresh(stack.heap) && stack.Valid() && Numbered(stack.Buffers(), hs)
    ensures ByNumber(stack.Buffers(), hs) == map[] && Lost(stack.st) == {}
    ensures fresh(stack.st.books.chain.Keys) && fresh(stack.st.books.g.live)
  {
    stack := new Stack();
    hs := map[];
    assert stack.Buffers().Keys == stack.st.books.chain.Keys;
  }

  method New(stack: Stack, hs: Table, i: nat, available: bool) returns (rest: Table)
    requires stack.Valid() && Numbered(stack.Buffers(), hs) && i !in hs
    modifies stack
    ensures stack.Valid() && Numbered(stack.Buffers(), rest)
    ensures ByNumber(stack.Buffers(), rest) == Step(old(ByNumber(stack.Buffers(), hs)), Command.New(i, available))
    ensures Lost(stack.st) == Lost(old(stack.st)) && stack.st.books.g.live <= old(stack.st).books.g.live
    ensures fresh(stack.st.books.chain.Keys - old(stack.st).books.chain.Keys)
  {
    ghost var before := stack.Buffers();
    var b := stack.New(available);
    if b == null {
      rest := hs;
    } else {
      NumberedAdd(before, hs, i, b, Rewound([]));
      rest := hs[i := b];
    }
  }

  /** A call on existing netbufs. */
  method Perform(stack: Stack, hs: Table, c: Command<nat>) returns (rest: Table)
    requires stack.Valid() && Numbered(stack.Buffers(), hs)
    requires !c.New? && Legal(ByNumber(stack.Buffers(), hs), c) && Sized(c)
    modifies stack, stack.heap, stack.st.books.chain.Keys, stack.st.books.g.live
    ensures stack.Valid() && Numbered(stack.Buffers(), rest)
    ensures ByNumber(stack.Buffers(), rest) == Step(old(ByNumber(stack.Buffers(), hs)), c)
    ensures stack.st.books.chain.Keys <= old(stack.st).books.chain.Keys
    ensures fresh(stack.st.books.g.live - old(stack.st).books.g.live)
    ensures Lost(stack.st) == {} <==> Lost(old(stack.st)) == {} && !Leaks(old(ByNumber(stack.Buffers(), hs)), c)
  {
    ghost var before := stack.Buffers();
    NumberedLegal(before, hs, c);
    stack.Perform(Renamed(c, hs));
    NumberedAfter(before, stack.Buffers(), hs, c);
    rest := StillUsed(hs, c);
  }

  /** Any call; what it uses is fresh or was there. */
  method Call(stack: Stack, hs: Table, c: Command<nat>) returns (rest: Table)
    requires stack.Valid() && Numbered(stack.Buffers(), hs)
    requires Legal(ByNumber(stack.Buffers(), hs), c) && Sized(c)
    modifies stack, stack.heap, stack.st.books.chain.Keys, stack.st.books.g.live
    ensures stack.Valid() && Numbered(stack.Buffers(), rest)
    ensures ByNumber(stack.Buffers(), rest) == Step(old(ByNumber(stack.Buffers(), hs)), c)
    ensures fresh(stack.st.books.chain.Keys - old(stack.st).books.chain.Keys)
    ensures fresh(stack.st.books.g.live - old(stack.st).books.g.live)
    ensures Lost(stack.st) == {} <==> Lost(old(stack.st)) == {} && !Leaks(old(ByNumber(stack.Buffers(), hs)), c)
  {
    if c.New? {
      rest := New(stack, hs, c.b, c.available);
    } else {
      rest := Perform(stack, hs, c);
    }
  }

  /** Every run refines the simple view: the program's netbufs hold exactly the segments, and have the
      cursors, that the commands say. A pbuf is lost exactly when some netbuf_chain has a head that holds
      nothing and a tail that holds something. */
  method Run(stack: Stack, hs: Table, cs: seq<Command<nat>>) returns (rest: Table)
    requires stack.Valid() && Numbered(stack.Buffers(), hs)
    requires LegalRun(ByNumber(stack.Buffers(), hs), cs) && AllSized(cs)
    modifies stack, stack.heap, stack.st.books.chain.Keys, stack.st.books.g.live
    ensures stack.Valid() && Numbered(stack.Buffers(), rest)
    ensures ByNumber(stack.Buffers(), rest) == After(old(ByNumber(stack.Buffers(), hs)), cs)
    ensures Lost(stack.st) == {} <==>
            Lost(old(stack.st)) == {} && NeverLeaks(old(ByNumber(stack.Buffers(), hs)), cs)
    decreases |cs|
  {
    if cs == [] {
      return hs;
    }
    var next := Call(stack, hs, cs[0]);
    rest := Run(stack, next, cs[1..]);
  }

  /** The same from an empty system. */
  method RunFromEmpty(cs: seq<Command<nat>>) returns (stack: Stack, hs: Table)
    requires LegalRun(map[], cs) && AllSized(cs)
    ensures stack.Valid() && Numbered(stack.Buffers(), hs) && ByNumber(stack.Buffers(), hs) == After(map[], cs)
    ensures Lost(stack.st) == {} <==> NeverLeaks(map[], cs)
  {
    stack, hs := Start();
    hs := Run(stack, hs, cs);
  }
}
