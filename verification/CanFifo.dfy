/** A receive FIFO of three places as a queue: what is read over any run of arrivals and reads. */
module CanFifo {

  /** The frames that wait after one more has arrived. When three wait already, a locked FIFO drops the new frame
      and an unlocked one puts it in the place of the newest. */
  function Queued<T>(q: seq<T>, box: T, locked: bool): (r: seq<T>)
    requires |q| <= 3
    ensures |r| == if |q| == 3 then 3 else |q| + 1
    ensures q != [] ==> r[0] == q[0]
  {
    if |q| < 3 then q + [box] else if locked then q else [q[0], q[1], box]
  }

  function AllQueued<T>(q: seq<T>, boxes: seq<T>, locked: bool): (r: seq<T>)
    requires |q| <= 3
    ensures |r| == if |q| + |boxes| > 3 then 3 else |q| + |boxes|
    ensures q != [] ==> r[0] == q[0]
    decreases |boxes|
  {
    if boxes == [] then q else AllQueued(Queued(q, boxes[0], locked), boxes[1..], locked)
  }

  function Rest<T>(q: seq<T>): seq<T> {
    if q == [] then [] else q[1..]
  }

  datatype Op<T> = Arrives(fifo: nat, box: T) | Reads(fifo: nat, meanwhile: seq<T>)

  /** One FIFO over a run: what waits, what was read, what arrived, and how many frames found it full. */
  datatype Line<T> = Line(queue: seq<T>, read: seq<T>, arrived: seq<T>, overruns: nat)

  ghost function Start<T>(q: seq<T>): Line<T> {
    Line(q, [], q, 0)
  }

  /** A frame arrives. */
  ghost function Joined<T>(l: Line<T>, box: T, locked: bool): Line<T>
    requires |l.queue| <= 3
  {
    Line(Queued(l.queue, box, locked), l.read, l.arrived + [box], l.overruns + if |l.queue| == 3 then 1 else 0)
  }

  ghost function AllJoined<T>(l: Line<T>, boxes: seq<T>, locked: bool): (r: Line<T>)
    requires |l.queue| <= 3
    ensures r.queue == AllQueued(l.queue, boxes, locked) && r.read == l.read
    decreases |boxes|
  {
    if boxes == [] then l else AllJoined(Joined(l, boxes[0], locked), boxes[1..], locked)
  }

  ghost function Step<T>(l: Line<T>, op: Op<T>, locked: bool): (r: Line<T>)
    requires |l.queue| <= 3
    ensures |r.queue| <= 3
  {
    match op
    case Arrives(_, box) => Joined(l, box, locked)
    case Reads(_, meanwhile) =>
      if l.queue == [] then l
      else
        var j := AllJoined(l, meanwhile, locked);
        j.(queue := Rest(j.queue), read := l.read + [l.queue[0]])
  }

  /** What a step reads. */
  ghost function MoreRead<T>(l: Line<T>, op: Op<T>): seq<T> {
    if op.Arrives? || l.queue == [] then [] else [l.queue[0]]
  }

  ghost function RunLine<T>(l: Line<T>, ops: seq<Op<T>>, f: nat, locked: bool): (r: Line<T>)
    requires |l.queue| <= 3
    ensures |r.queue| <= 3
  {
    if ops == [] then l
    else
      var rest := RunLine(l, ops[..|ops| - 1], f, locked);
      if ops[|ops| - 1].fifo == f then Step(rest, ops[|ops| - 1], locked) else rest
  }

  /** `s` is `t` with some frames left out. */
  ghost predicate Among<T>(s: seq<T>, t: seq<T>) {
    s == [] || (t != [] && (if s[|s| - 1] == t[|t| - 1] then Among(s[..|s| - 1], t[..|t| - 1])
                            else Among(s, t[..|t| - 1])))
  }

  lemma {:induction false} AmongLess<T>(s: seq<T>, t: seq<T>)
    requires s != [] && Among(s, t)
    ensures Among(s[..|s| - 1], t)
    decreases |t|, 0
  {
    var less := s[..|s| - 1];
    if less != [] {
      if s[|s| - 1] == t[|t| - 1] {
        AmongMore(less, t[..|t| - 1], t[|t| - 1]);
        assert t == t[..|t| - 1] + [t[|t| - 1]];
      } else {
        AmongLess(s, t[..|t| - 1]);
        AmongMore(less, t[..|t| - 1], t[|t| - 1]);
        assert t == t[..|t| - 1] + [t[|t| - 1]];
      }
    }
  }

  lemma {:induction false} AmongMore<T>(s: seq<T>, t: seq<T>, x: T)
    requires Among(s, t)
    ensures Among(s, t + [x])
    decreases |t|, 1
  {
    assert (t + [x])[..|t|] == t;
    if s != [] && s[|s| - 1] == x {
      AmongLess(s, t);
    }
  }

  lemma AmongBoth<T>(s: seq<T>, t: seq<T>, x: T)
    requires Among(s, t)
    ensures Among(s + [x], t + [x])
  {
    assert (s + [x])[..|s|] == s && (t + [x])[..|t|] == t;
  }

  lemma {:induction false} AmongSame<T>(s: seq<T>, t: seq<T>)
    requires Among(s, t)
    ensures |s| <= |t| && (|s| == |t| ==> s == t)
    decreases |t|
  {
    if s != [] {
      if s[|s| - 1] == t[|t| - 1] {
        AmongSame(s[..|s| - 1], t[..|t| - 1]);
      } else {
        AmongSame(s, t[..|t| - 1]);
      }
    }
  }

  /** What was read and what waits are frames that arrived, in their order, and only overruns are missing. */
  ghost predicate InOrder<T>(l: Line<T>) {
    && |l.queue| <= 3
    && Among(l.read + l.queue, l.arrived)
    && |l.read| + |l.queue| + l.overruns == |l.arrived|
  }

  lemma StartInOrder<T>(q: seq<T>)
    requires |q| <= 3
    ensures InOrder(Start(q))
  {
    assert [] + q == q;
    AmongItself(q);
  }

  lemma {:induction false} AmongItself<T>(s: seq<T>)
    ensures Among(s, s)
    decreases |s|
  {
    if s != [] {
      AmongItself(s[..|s| - 1]);
    }
  }

  lemma ArrivalInOrder<T>(l: Line<T>, box: T, locked: bool)
    requires InOrder(l)
    ensures InOrder(Joined(l, box, locked))
  {
    var all := l.read + l.queue;
    var q := Queued(l.queue, box, locked);
    if |l.queue| < 3 {
      AmongBoth(all, l.arrived, box);
      assert l.read + q == all + [box];
    } else if locked {
      AmongMore(all, l.arrived, box);
    } else {
      AmongLess(all, l.arrived);
      AmongBoth(all[..|all| - 1], l.arrived, box);
      assert l.read + q == all[..|all| - 1] + [box];
    }
  }

  lemma {:induction false} ArrivalsInOrder<T>(l: Line<T>, boxes: seq<T>, locked: bool)
    requires InOrder(l)
    ensures InOrder(AllJoined(l, boxes, locked))
    decreases |boxes|
  {
    if boxes != [] {
      ArrivalInOrder(l, boxes[0], locked);
      ArrivalsInOrder(Joined(l, boxes[0], locked), boxes[1..], locked);
    }
  }

  lemma StepInOrder<T>(l: Line<T>, op: Op<T>, locked: bool)
    requires InOrder(l)
    ensures InOrder(Step(l, op, locked))
  {
    match op
    case Arrives(_, box) => ArrivalInOrder(l, box, locked);
    case Reads(_, meanwhile) =>
      if l.queue != [] {
        var j := AllJoined(l, meanwhile, locked);
        ArrivalsInOrder(l, meanwhile, locked);
        assert j.queue[0] == l.queue[0];
        assert l.read + j.queue == l.read + [l.queue[0]] + Rest(j.queue);
      }
  }

  /** Over any run, frames that wait at the start included: the frames read, and behind them the frames that wait,
      are the frames that arrived, in order, without exactly as many as found the FIFO full; all of them if and
      only if none did. */
  lemma {:induction false} ReadInOrder<T>(ops: seq<Op<T>>, f: nat, locked: bool, q: seq<T>)
    requires |q| <= 3
    ensures var l := RunLine(Start(q), ops, f, locked);
            && InOrder(l)
            && (l.read + l.queue == l.arrived <==> l.overruns == 0)
    decreases |ops|
  {
    var l := RunLine(Start(q), ops, f, locked);
    if ops == [] {
      StartInOrder(q);
    } else {
      ReadInOrder(ops[..|ops| - 1], f, locked, q);
      if ops[|ops| - 1].fifo == f {
        StepInOrder(RunLine(Start(q), ops[..|ops| - 1], f, locked), ops[|ops| - 1], locked);
      }
    }
    AmongSame(l.read + l.queue, l.arrived);
  }
}
