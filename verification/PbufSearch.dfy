/** Reading and searching the bytes of a pbuf chain: pbuf_get_at, pbuf_memcmp and pbuf_memfind (pbuf.c).

    pbuf_memfind goes on behind the first byte that differs. That skips matches which begin inside
    the part already compared. */
module PbufSearch {
  import opened Common
  import opened PbufGraph
  import opened Pbufs

  const NOT_FOUND: nat := 0xFFFF

  /** `c` lists the pbufs from `p` on. */
  ghost predicate From(p: Pbuf?, c: seq<Pbuf>)
    reads c
  {
    if c == [] then p == null else p == c[0] && From(c[0].next, c[1..])
  }

  lemma {:induction false} FromThenLinked(p: Pbuf, c: seq<Pbuf>)
    requires From(p, c)
    ensures Linked(p, c)
    decreases |c|
  {
    if |c| > 1 {
      assert From(c[0].next, c[1..]) && c[0].next == c[1..][0];
      FromThenLinked(c[1], c[1..]);
      forall i | 0 <= i < |c| ensures c[i].next == NextIn(c, i) {
        if i > 0 {
          assert c[1..][i - 1].next == NextIn(c[1..], i - 1);
        }
      }
    }
  }

  lemma {:induction false} LinkedThenFrom(p: Pbuf, c: seq<Pbuf>)
    requires Linked(p, c)
    ensures From(p, c)
    decreases |c|
  {
    assert c[0].next == NextIn(c, 0);
    if |c| > 1 {
      forall i | 0 <= i < |c[1..]| ensures c[1..][i].next == NextIn(c[1..], i) {
        assert c[i + 1].next == NextIn(c, i + 1);
      }
      LinkedThenFrom(c[1], c[1..]);
    }
  }

  /** The lists are those of the links that pbuf_cat walks along. */
  lemma FromIsLinked(p: Pbuf, c: seq<Pbuf>)
    ensures From(p, c) <==> Linked(p, c)
  {
    if From(p, c) {
      FromThenLinked(p, c);
    } else if Linked(p, c) {
      LinkedThenFrom(p, c);
    }
  }

  /** In a sound heap they are the chains of the graph, so every pbuf has exactly one such list. */
  lemma FromTheHeap(heap: Heap, p: Pbuf?, c: seq<Pbuf>)
    requires heap.Valid() && IsChain(heap.g, Link(p), c)
    ensures From(p, c)
  {
    if p != null {
      heap.LinksOfChain(p, c);
      FromIsLinked(p, c);
    }
  }

  ghost function Part(q: Pbuf, mem: nat -> nat): seq<nat>
    reads q
  {
    var payload := q.payload;
    seq(q.len, i requires 0 <= i => mem(payload + i))
  }

  /** The bytes of a chain, with `mem` what the memory holds. */
  ghost function Content(c: seq<Pbuf>, mem: nat -> nat): seq<nat>
    reads c
  {
    if c == [] then [] else Part(c[0], mem) + Content(c[1..], mem)
  }

  /** Behind the end everything reads as zero. */
  function ByteAt(s: seq<nat>, i: nat): nat {
    if i < |s| then s[i] else 0
  }

  /** "get the correct pbuf": the one with byte number `offset`. */
  method Locate(p: Pbuf?, offset: nat, mem: nat -> nat, ghost c: seq<Pbuf>)
    returns (q: Pbuf?, start: nat, ghost rest: seq<Pbuf>)
    requires From(p, c)
    ensures From(q, rest) && |rest| <= |c| && (q != null ==> q.len > start)
    ensures start <= offset && |Content(c, mem)| == offset - start + |Content(rest, mem)|
    ensures Content(c, mem)[offset - start..] == Content(rest, mem)
  {
    q, start, rest := p, offset, c;
    while q != null && q.len <= start
      invariant From(q, rest) && |rest| <= |c| && start <= offset
      invariant |Content(c, mem)| == offset - start + |Content(rest, mem)|
      invariant Content(c, mem)[offset - start..] == Content(rest, mem)
      decreases |rest|
    {
      Behind(Content(c, mem), Part(q, mem), Content(rest[1..], mem), offset - start);
      start := start - q.len;
      q := q.next;
      rest := rest[1..];
    }
  }

  lemma Behind(s: seq<nat>, a: seq<nat>, b: seq<nat>, k: nat)
    requires k <= |s| && s[k..] == a + b
    ensures k + |a| <= |s| && s[k + |a|..] == b
  {
    assert s[k + |a|..] == s[k..][|a|..];
  }

  /** pbuf_get_at */
  method GetAt(p: Pbuf?, offset: nat, mem: nat -> nat, ghost c: seq<Pbuf>) returns (b: nat)
    requires From(p, c)
    ensures b == ByteAt(Content(c, mem), offset)
  {
    var q, start, rest := Locate(p, offset, mem, c);
    if q != null {
      InFirst(rest, mem, start);
      assert Content(c, mem)[offset] == Content(c, mem)[offset - start..][start];
      b := mem(q.payload + start);
    } else {
      b := 0;
    }
  }

  lemma InFirst(c: seq<Pbuf>, mem: nat -> nat, i: nat)
    requires c != [] && i < c[0].len
    ensures i < |Content(c, mem)| && Content(c, mem)[i] == mem(c[0].payload + i)
  {
    assert |Part(c[0], mem)| == c[0].len && Part(c[0], mem)[i] == mem(c[0].payload + i);
  }

  // ---- comparing -------------------------------------------------------------------------

  /** The first place from `i` on where `m` and the bytes at `o` differ, or the length of `m`. */
  ghost function {:induction false} Differ(s: seq<nat>, o: nat, m: seq<nat>, i: nat): (d: nat)
    requires i <= |m|
    ensures i <= d <= |m|
    ensures forall k :: i <= k < d ==> ByteAt(s, o + k) == m[k]
    ensures d < |m| ==> ByteAt(s, o + d) != m[d]
    decreases |m| - i
  {
    if i == |m| || ByteAt(s, o + i) != m[i] then i else Differ(s, o, m, i + 1)
  }

  /** What pbuf_memcmp answers. */
  ghost function Compare(s: seq<nat>, o: nat, m: seq<nat>): nat {
    if o >= |s| then NOT_FOUND else if Differ(s, o, m, 0) == |m| then 0 else Differ(s, o, m, 0) + 1
  }

  /** pbuf_memcmp */
  method MemCmp(p: Pbuf?, offset: nat, s2: seq<nat>, mem: nat -> nat, ghost c: seq<Pbuf>) returns (r: nat)
    requires From(p, c) && offset + |s2| <= 0xFFFF
    ensures r == Compare(Content(c, mem), offset, s2)
    ensures offset >= |Content(c, mem)| ==> r == 0xFFFF
    ensures offset < |Content(c, mem)| ==>
      && r <= |s2|
      && (forall k :: 0 <= k < (if r == 0 then |s2| else r - 1) ==> ByteAt(Content(c, mem), offset + k) == s2[k])
      && (r > 0 ==> ByteAt(Content(c, mem), offset + r - 1) != s2[r - 1])
  {
    var q, start, rest := Locate(p, offset, mem, c);
    if q == null {
      return NOT_FOUND;
    }
    InFirst(rest, mem, start);
    CompareLocated(Content(c, mem), Content(rest, mem), offset, start, s2);
    r := CompareFrom(q, start, s2, mem, rest);
  }

  lemma CompareLocated(s: seq<nat>, t: seq<nat>, offset: nat, start: nat, m: seq<nat>)
    requires start <= offset && |s| == offset - start + |t| && s[offset - start..] == t && start < |t|
    ensures Compare(s, offset, m) == var d := Differ(t, start, m, 0); if d == |m| then 0 else d + 1
  {
    SameDifference(s, offset - start, start, m, 0);
  }

  /** The comparing loop, from the located pbuf on. */
  method CompareFrom(q: Pbuf, start: nat, s2: seq<nat>, mem: nat -> nat, ghost rest: seq<Pbuf>) returns (r: nat)
    requires From(q, rest)
    ensures var d := Differ(Content(rest, mem), start, s2, 0); r == if d == |s2| then 0 else d + 1
  {
    ghost var s := Content(rest, mem);
    var i := 0;
    while i < |s2|
      invariant i <= |s2| && From(q, rest) && s == Content(rest, mem)
      invariant Differ(s, start, s2, 0) == Differ(s, start, s2, i)
    {
      var a := GetAt(q, start + i, mem, rest);
      if a != s2[i] {
        return i + 1;
      }
      i := i + 1;
    }
    r := 0;
  }

  lemma {:induction false} SameDifference(s: seq<nat>, k: nat, o: nat, m: seq<nat>, i: nat)
    requires k <= |s| && i <= |m|
    ensures Differ(s[k..], o, m, i) == Differ(s, k + o, m, i)
    decreases |m| - i
  {
    if i < |m| {
      assert ByteAt(s[k..], o + i) == ByteAt(s, k + o + i);
      SameDifference(s, k, o, m, i + 1);
    }
  }

  // ---- searching -------------------------------------------------------------------------

  ghost predicate MatchAt(s: seq<nat>, m: seq<nat>, i: nat) {
    i + |m| <= |s| && s[i..i + |m|] == m
  }

  /** From place `i` on, behind each first difference. */
  ghost function Skip(s: seq<nat>, m: seq<nat>, i: nat): nat
    decreases |s| + 1 - i
  {
    if i + |m| > |s| then NOT_FOUND
    else if Compare(s, i, m) == 0 then i
    else Skip(s, m, i + Compare(s, i, m))
  }

  /** What pbuf_memfind answers. Looking for nothing at the very end of the chain, the place counter
      goes once around its 16 bits and ends one place in front of where the search started. */
  ghost function Find(s: seq<nat>, m: seq<nat>, start: nat): nat {
    if |m| + start > |s| then NOT_FOUND
    else if m == [] && start == |s| then (if start == 0 then NOT_FOUND else start - 1)
    else Skip(s, m, start)
  }

  /** pbuf_memfind */
  method MemFind(p: Pbuf, m: seq<nat>, start: nat, mem: nat -> nat, ghost c: seq<Pbuf>) returns (r: nat)
    requires From(p, c) && p.totLen == |Content(c, mem)| && |Content(c, mem)| < NOT_FOUND
    requires |m| < U16 && start < U16
    ensures r == Find(Content(c, mem), m, start)
  {
    ghost var s := Content(c, mem);
    var max := Room(p.totLen, |m|);
    if p.totLen >= |m| + start {
      var i: nat := start;
      while i <= max
        invariant From(p, c) && s == Content(c, mem) && i < U16 && Seeking(s, m, start, i)
        decreases m == [] && i == start, |s| + 1 - i
      {
        var plus := MemCmp(p, i, m, mem, c);
        SeekStep(s, m, start, i);
        if plus == 0 {
          return i;
        }
        i := Stepped(i, plus);
      }
      SeekEnd(s, m, start, i);
    }
    r := NOT_FOUND;
  }

  /** `p->tot_len - mem_len` in 16 bits. */
  function Room(total: nat, length: nat): (r: nat)
    requires total < U16 && length < U16
    ensures length <= total ==> r == total - length
  {
    (total - length) % U16
  }

  /** Where the loop of pbuf_memfind can be. */
  ghost predicate Seeking(s: seq<nat>, m: seq<nat>, start: nat, i: nat) {
    && |m| + start <= |s|
    && (m != [] ==> Skip(s, m, start) == Skip(s, m, i))
    && (m == [] && start < |s| ==> i == start)
    && (m == [] && start == |s| ==> i == start || (i == start - 1 && start > 0) || (start == 0 && i > 0))
  }

  lemma SeekStep(s: seq<nat>, m: seq<nat>, start: nat, i: nat)
    requires Seeking(s, m, start, i) && i + |m| <= |s| < NOT_FOUND
    ensures Compare(s, i, m) == 0 ==> Find(s, m, start) == i
    ensures Compare(s, i, m) != 0 ==> Seeking(s, m, start, Stepped(i, Compare(s, i, m)))
    ensures Compare(s, i, m) != 0 && m != [] ==> Stepped(i, Compare(s, i, m)) > i
    ensures Compare(s, i, m) != 0 && m == [] ==> i == start && Stepped(i, Compare(s, i, m)) != start
  {
  }

  lemma SeekEnd(s: seq<nat>, m: seq<nat>, start: nat, i: nat)
    requires Seeking(s, m, start, i) && |s| < NOT_FOUND && i + |m| > |s|
    ensures Find(s, m, start) == NOT_FOUND
  {
  }

  /** A place counter of 16 bits. */
  function Stepped(i: nat, plus: nat): (r: nat)
    ensures r < U16
    ensures i + plus < U16 ==> r == i + plus
    ensures plus == NOT_FOUND && i < U16 ==> r == if i == 0 then NOT_FOUND else i - 1
  {
    (i + plus) % U16
  }

  // ---- when nothing is missed ------------------------------------------------------------

  lemma {:induction false} SkipIsAMatch(s: seq<nat>, m: seq<nat>, i: nat)
    requires |s| < NOT_FOUND && Skip(s, m, i) != NOT_FOUND
    ensures i <= Skip(s, m, i) && MatchAt(s, m, Skip(s, m, i))
    decreases |s| + 1 - i
  {
    if i + |m| <= |s| {
      if Compare(s, i, m) == 0 {
        forall k | 0 <= k < |m| ensures s[i..i + |m|][k] == m[k] {
          assert ByteAt(s, i + k) == m[k];
        }
      } else {
        SkipIsAMatch(s, m, i + Compare(s, i, m));
      }
    }
  }

  /** What is found is a match, and it lies at or behind the start exactly unless nothing is looked for at
      the very end of a chain that is not empty. */
  lemma FoundIsAMatch(s: seq<nat>, m: seq<nat>, start: nat)
    requires |s| < NOT_FOUND
    ensures Find(s, m, start) != NOT_FOUND ==> MatchAt(s, m, Find(s, m, start))
    ensures (Find(s, m, start) != NOT_FOUND ==> start <= Find(s, m, start)) <==> !(m == [] && start == |s| && start > 0)
  {
    if |m| + start <= |s| && !(m == [] && start == |s|) && Skip(s, m, start) != NOT_FOUND {
      SkipIsAMatch(s, m, start);
    }
  }

  /** Looking for nothing behind the only byte of a chain finds place 0. */
  lemma NothingBehindOneByte(b: nat)
    ensures Find([b], [], 1) == 0
  {
  }

  lemma BytesOfMatch(s: seq<nat>, m: seq<nat>, i: nat)
    requires MatchAt(s, m, i)
    ensures forall k :: 0 <= k < |m| ==> ByteAt(s, i + k) == m[k]
  {
    forall k | 0 <= k < |m| ensures ByteAt(s, i + k) == m[k] {
      assert s[i..i + |m|][k] == s[i + k];
    }
  }

  ghost predicate Constant(m: seq<nat>) {
    forall k :: 0 <= k < |m| ==> m[k] == m[0]
  }

  /** With a pattern of equal bytes the first match is found. */
  lemma {:induction false} ConstantIsFound(s: seq<nat>, m: seq<nat>, i: nat, j: nat)
    requires Constant(m) && m != [] && |s| < NOT_FOUND && i <= j && MatchAt(s, m, j)
    ensures Skip(s, m, i) != NOT_FOUND && Skip(s, m, i) <= j
    decreases |s| + 1 - i
  {
    if Compare(s, i, m) != 0 {
      BytesOfMatch(s, m, j);
      ConstantIsFound(s, m, i + Compare(s, i, m), j);
    }
  }

  /** A match is found unless the pattern's first byte occurs between the start and the match. */
  lemma {:induction false} FoundUnlessBegun(s: seq<nat>, m: seq<nat>, i: nat, j: nat)
    requires m != [] && |s| < NOT_FOUND && i <= j && MatchAt(s, m, j)
    requires forall k :: i <= k < j ==> s[k] != m[0]
    ensures Find(s, m, i) == j
    decreases j - i
  {
    if i < j {
      assert Compare(s, i, m) == 1;
      FoundUnlessBegun(s, m, i + 1, j);
    } else {
      BytesOfMatch(s, m, i);
    }
  }

  /** A pattern with two different bytes is missed behind a copy of its first byte. */
  lemma OtherIsMissed(m: seq<nat>)
    requires m != [] && !Constant(m) && |m| < NOT_FOUND
    ensures MatchAt([m[0]] + m, m, 1) && Skip([m[0]] + m, m, 0) == NOT_FOUND
  {
    var s := [m[0]] + m;
    assert s[1..1 + |m|] == m;
    var d := Differ(s, 0, m, 0);
    if d == |m| || d == 0 {
      AllTheSame(s, m);
      assert false;
    }
    assert Compare(s, 0, m) == d + 1 >= 2;
  }

  lemma AllTheSame(s: seq<nat>, m: seq<nat>)
    requires m != [] && s == [m[0]] + m
    ensures Differ(s, 0, m, 0) > 0
    ensures Differ(s, 0, m, 0) == |m| ==> Constant(m)
  {
    assert ByteAt(s, 0 + 0) == m[0];
    if Differ(s, 0, m, 0) == |m| {
      forall k | 0 <= k < |m| ensures m[k] == m[0] {
        SameAsFirst(s, m, k);
      }
    }
  }

  lemma {:induction false} SameAsFirst(s: seq<nat>, m: seq<nat>, k: nat)
    requires m != [] && s == [m[0]] + m && Differ(s, 0, m, 0) == |m| && k < |m|
    ensures m[k] == m[0]
    decreases k
  {
    if k > 0 {
      assert ByteAt(s, 0 + k) == m[k] && s[k] == m[k - 1];
      SameAsFirst(s, m, k - 1);
    }
  }

  /** The search misses no match in any chain that fits exactly when the pattern is not empty and consists of
      equal bytes or is as long as a chain can be. */
  lemma CompleteWhen(m: seq<nat>)
    ensures (forall s: seq<nat>, start: nat, j: nat {:trigger MatchAt(s, m, j), Find(s, m, start)} ::
               |s| < NOT_FOUND && start <= j && MatchAt(s, m, j) ==> Find(s, m, start) != NOT_FOUND)
            <==> m != [] && (Constant(m) || |m| >= NOT_FOUND - 1)
  {
    if m == [] {
      assert MatchAt([], m, 0) && Find([], m, 0) == NOT_FOUND;
    } else if Constant(m) {
      forall s: seq<nat>, start: nat, j: nat | |s| < NOT_FOUND && start <= j && MatchAt(s, m, j)
        ensures Find(s, m, start) != NOT_FOUND
      {
        ConstantIsFound(s, m, start, j);
      }
    } else if |m| >= NOT_FOUND - 1 {
      forall s: seq<nat>, start: nat, j: nat | |s| < NOT_FOUND && start <= j && MatchAt(s, m, j)
        ensures Find(s, m, start) != NOT_FOUND
      {
        assert s[0..|m|] == m;
        OnlyPlace(s, m);
      }
    } else {
      OtherIsMissed(m);
      assert MatchAt([m[0]] + m, m, 1) && Find([m[0]] + m, m, 0) == NOT_FOUND;
    }
  }

  lemma OnlyPlace(s: seq<nat>, m: seq<nat>)
    requires m != [] && MatchAt(s, m, 0) && |s| < NOT_FOUND
    ensures Compare(s, 0, m) == 0
  {
    BytesOfMatch(s, m, 0);
  }

  /** The smallest case: "ab" is not found in "aab". */
  lemma AbInAab(a: nat, b: nat)
    requires a != b
    ensures MatchAt([a, a, b], [a, b], 1) && Find([a, a, b], [a, b], 0) == NOT_FOUND
  {
    assert [a] + [a, b] == [a, a, b];
    assert [a, b][0] != [a, b][1];
    OtherIsMissed([a, b]);
  }
}
