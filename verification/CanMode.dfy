/** The mode handshake with the CAN controller: CAN_Init, CAN_OperatingModeRequest, CAN_Sleep and
    CAN_WakeUp (stm32f10x_can.c).

    The controller changes the acknowledge bits of MSR as it likes between two reads. A call takes
    the whole sequence of values its reads will see, so what is proved holds for every behaviour
    of the controller. */
module CanMode {
  import opened Words

  const ACK_TIMEOUT := 0xFFFF

  // Bits of MCR.
  const INRQ := 0
  const SLEEP := 1
  const TXFP := 2
  const RFLM := 3
  const NART := 4
  const AWUM := 5
  const ABOM := 6
  const TTCM := 7

  /** The values successive reads of MSR see. */
  type Reads = nat -> Word

  predicate Initialising(msr: Word) { msr[0] }
  predicate Sleeping(msr: Word) { msr[1] }

  datatype Mode = Initialization | Normal | Sleep | Unknown

  /** What the two acknowledge bits have to show for a mode. */
  predicate InMode(msr: Word, m: Mode) {
    match m
    case Initialization => Initialising(msr) && !Sleeping(msr)
    case Normal => !Initialising(msr) && !Sleeping(msr)
    case Sleep => !Initialising(msr) && Sleeping(msr)
    case Unknown => false
  }

  /** What a wait loop looks for. */
  datatype Want = Reached(mode: Mode) | Entered | Left | Awake

  predicate Shows(msr: Word, want: Want) {
    match want
    case Reached(m) => InMode(msr, m)
    case Entered => Initialising(msr)
    case Left => !Initialising(msr)
    case Awake => !Sleeping(msr)
  }

  /** A wait that starts with read `start` ends with read `start + j`: the first one that shows
      what is waited for, or the last one the bound allows. */
  ghost predicate WaitEnds(msr: Reads, want: Want, start: nat, j: nat) {
    && j <= 0xFFFF
    && (forall t: nat :: start <= t < start + j ==> !Shows(msr(t), want))
    && (Shows(msr(start + j), want) || j == 0xFFFF)
  }

  /** What is waited for, in the two acknowledge bits. */
  lemma WantedBits(msr: Word)
    ensures Shows(msr, Reached(Initialization)) <==> msr[0] && !msr[1]
    ensures Shows(msr, Reached(Normal)) <==> !msr[0] && !msr[1]
    ensures Shows(msr, Reached(Sleep)) <==> !msr[0] && msr[1]
    ensures (Shows(msr, Entered) <==> msr[0]) && (Shows(msr, Left) <==> !msr[0]) && (Shows(msr, Awake) <==> !msr[1])
  {
  }

  /** A controller that acknowledges from read `t` on, within the bound, is never missed: the wait
      ends there and the check after it succeeds. */
  lemma AcknowledgedInTime(msr: Reads, want: Want, start: nat, j: nat, t: nat)
    requires WaitEnds(msr, want, start, j)
    requires start <= t <= start + 0xFFFF && forall k: nat :: start <= k ==> (Shows(msr(k), want) <==> t <= k)
    ensures start + j == t && Shows(msr(start + j + 1), want)
  {
    assert Shows(msr(t), want);
    assert Shows(msr(start + j), want) <==> t <= start + j;
  }

  datatype Config = Config(
    ttcm: bool, abom: bool, awum: bool, nart: bool, rflm: bool, txfp: bool,
    mode: nat, sjw: nat, bs1: nat, bs2: nat, prescaler: nat)

  predicate InRange(c: Config) {
    c.mode < 4 && c.sjw < 4 && c.bs1 < 16 && c.bs2 < 8 && 1 <= c.prescaler <= 1024
  }

  /** The bit timing register as its fields, from the lowest. */
  function Fields(p: seq<bool>, b1: seq<bool>, b2: seq<bool>, s: seq<bool>, m: seq<bool>): Word
    requires |p| == 10 && |b1| == 4 && |b2| == 3 && |s| == 2 && |m| == 2
  {
    p + Zeros(6) + b1 + b2 + Zeros(1) + s + Zeros(4) + m
  }

  function Timing(c: Config): Word
    requires c.prescaler >= 1
  {
    Fields(Bits(c.prescaler - 1, 10), Bits(c.bs1, 4), Bits(c.bs2, 3), Bits(c.sjw, 2), Bits(c.mode, 2))
  }

  function Union(m: Word, s: Word, b1: Word, b2: Word, p: Word): Word {
    Or(Or(Or(Or(m, s), b1), b2), p)
  }

  function TimingBits(c: Config): Word
    requires c.prescaler >= 1
  {
    Union(Shl(Of(c.mode), 30), Shl(Of(c.sjw), 24), Shl(Of(c.bs1), 16), Shl(Of(c.bs2), 20), Of(c.prescaler - 1))
  }

  /** A field joins what is below it. */
  lemma JoinAbove(low: seq<bool>, gap: nat, high: seq<bool>)
    requires |low| + gap + |high| <= 32
    ensures Or(Placed(|low| + gap, high), Placed(0, low)) == Placed(0, low + Zeros(gap) + high)
  {
  }

  /** The order of the parts of a union does not matter. */
  lemma FiveParts(m: Word, s: Word, b1: Word, b2: Word, p: Word)
    ensures Union(m, s, b1, b2, p) == Or(m, Or(s, Or(b2, Or(b1, p))))
  {
  }

  lemma FiveFields(p: seq<bool>, b1: seq<bool>, b2: seq<bool>, s: seq<bool>, m: seq<bool>)
    requires |p| == 10 && |b1| == 4 && |b2| == 3 && |s| == 2 && |m| == 2
    ensures Union(Placed(30, m), Placed(24, s), Placed(16, b1), Placed(20, b2), Placed(0, p)) == Fields(p, b1, b2, s, m)
  {
    FiveParts(Placed(30, m), Placed(24, s), Placed(16, b1), Placed(20, b2), Placed(0, p));
    var p1 := p + Zeros(6) + b1;
    var p2 := p1 + Zeros(0) + b2;
    var p3 := p2 + Zeros(1) + s;
    JoinAbove(p, 6, b1);
    JoinAbove(p1, 0, b2);
    JoinAbove(p2, 1, s);
    JoinAbove(p3, 4, m);
    assert p1 + Zeros(0) == p1;
    assert Placed(0, p3 + Zeros(4) + m) == p3 + Zeros(4) + m;
  }

  lemma TimingPlaced(v: nat, pos: nat, width: nat, bound: nat)
    requires v < bound && bound == Pow2(width) && pos + width <= 32
    ensures Shl(Of(v), pos) == Placed(pos, Bits(v, width))
    ensures pos == 0 ==> Of(v) == Placed(pos, Bits(v, width))
  {
    ShiftPlaces(v, pos, width);
    BitsWiden(v, width, 32);
  }

  lemma TimingParts(c: Config)
    requires InRange(c)
    ensures Shl(Of(c.mode), 30) == Placed(30, Bits(c.mode, 2)) && Shl(Of(c.sjw), 24) == Placed(24, Bits(c.sjw, 2))
    ensures Shl(Of(c.bs1), 16) == Placed(16, Bits(c.bs1, 4)) && Shl(Of(c.bs2), 20) == Placed(20, Bits(c.bs2, 3))
    ensures Of(c.prescaler - 1) == Placed(0, Bits(c.prescaler - 1, 10))
  {
    SmallPowers();
    TimingPlaced(c.mode, 30, 2, 4);
    TimingPlaced(c.sjw, 24, 2, 4);
    TimingPlaced(c.bs1, 16, 4, 16);
    TimingPlaced(c.bs2, 20, 3, 8);
    TimingPlaced(c.prescaler - 1, 0, 10, 1024);
  }

  lemma TimingIsPacked(c: Config)
    requires InRange(c)
    ensures TimingBits(c) == Timing(c)
  {
    TimingParts(c);
    FiveFields(Bits(c.prescaler - 1, 10), Bits(c.bs1, 4), Bits(c.bs2, 3), Bits(c.sjw, 2), Bits(c.mode, 2));
  }

  /** MCR after the request to enter initialisation, and after a whole successful entry. */
  function Requested(mcr: Word): Word {
    mcr[SLEEP := false][INRQ := true]
  }

  function WithOptions(mcr: Word, c: Config): Word {
    mcr[TTCM := c.ttcm][ABOM := c.abom][AWUM := c.awum][NART := c.nart][RFLM := c.rflm][TXFP := c.txfp]
  }

  function Configured(mcr: Word, c: Config): Word {
    [false, false, c.txfp, c.rflm, c.nart, c.awum, c.abom, c.ttcm] + mcr[8..]
  }

  lemma OneBitWritten(w: Word, k: nat)
    requires k < 32
    ensures Or(w, Mask(k, 1)) == w[k := true] && And(w, Not(Mask(k, 1))) == w[k := false]
  {
  }

  lemma ConfiguredBits(mcr: Word, c: Config)
    requires mcr == Requested(mcr)
    ensures WithOptions(mcr, c)[INRQ := false] == Configured(mcr, c)
  {
    assert !mcr[SLEEP];
  }

  /** Each timing parameter is in its field, the prescaler less one. */
  ghost predicate TimingHeld(btr: Word, c: Config) {
    && Value(Field(btr, 0, 10)) == c.prescaler - 1
    && Value(Field(btr, 16, 4)) == c.bs1 && Value(Field(btr, 20, 3)) == c.bs2
    && Value(Field(btr, 24, 2)) == c.sjw && Value(Field(btr, 30, 2)) == c.mode
  }

  /** Both requests are down, and each option has its bit. */
  ghost predicate OptionsHeld(mcr: Word, c: Config) {
    && !mcr[0] && !mcr[1] && mcr[2] == c.txfp && mcr[3] == c.rflm
    && mcr[4] == c.nart && mcr[5] == c.awum && mcr[6] == c.abom && mcr[7] == c.ttcm
  }

  lemma FieldsApart(p: seq<bool>, b1: seq<bool>, b2: seq<bool>, s: seq<bool>, m: seq<bool>)
    requires |p| == 10 && |b1| == 4 && |b2| == 3 && |s| == 2 && |m| == 2
    ensures var w := Fields(p, b1, b2, s, m);
            && Field(w, 0, 10) == p && Field(w, 16, 4) == b1 && Field(w, 20, 3) == b2
            && Field(w, 24, 2) == s && Field(w, 30, 2) == m
  {
  }

  lemma TimingFields(c: Config)
    requires InRange(c)
    ensures TimingHeld(Timing(c), c)
  {
    FieldsApart(Bits(c.prescaler - 1, 10), Bits(c.bs1, 4), Bits(c.bs2, 3), Bits(c.sjw, 2), Bits(c.mode, 2));
    SmallPowers();
    FieldValue(c.prescaler - 1, 10);
    FieldValue(c.bs1, 4);
    FieldValue(c.bs2, 3);
    FieldValue(c.sjw, 2);
    FieldValue(c.mode, 2);
  }

  class Control {
    var MCR: Word
    var BTR: Word

    /** The wait loops of CAN_Init count up to the bound. */
    method WaitUp(msr: Reads, want: Want, start: nat) returns (j: nat)
      ensures WaitEnds(msr, want, start, j)
    {
      var waitAck := 0;
      while !Shows(msr(start + waitAck), want) && waitAck != ACK_TIMEOUT
        invariant waitAck <= ACK_TIMEOUT
        invariant forall t: nat :: start <= t < start + waitAck ==> !Shows(msr(t), want)
        decreases ACK_TIMEOUT - waitAck
      {
        waitAck := waitAck + 1;
      }
      j := waitAck;
    }

    /** The other wait loops count a time-out down; read `start + i` is made with
        `ACK_TIMEOUT - i` left. */
    method WaitDown(msr: Reads, want: Want, start: nat) returns (j: nat)
      ensures WaitEnds(msr, want, start, j)
    {
      var timeout := ACK_TIMEOUT;
      j := 0;
      while !Shows(msr(start + j), want) && timeout != 0
        invariant 0 <= timeout <= ACK_TIMEOUT && j + timeout == ACK_TIMEOUT
        invariant forall t: nat :: start <= t < start + j ==> !Shows(msr(t), want)
        decreases timeout
      {
        timeout := timeout - 1;
        j := j + 1;
      }
    }

    /** CAN_OperatingModeRequest: success is exactly what the last read showed. */
    method OperatingModeRequest(m: Mode, msr: Reads) returns (success: bool, ghost j: nat)
      modifies this`MCR
      ensures m != Unknown ==> WaitEnds(msr, Reached(m), 0, j)
      ensures success <==> match m
                           case Initialization => msr(j + 1)[0] && !msr(j + 1)[1]
                           case Normal => !msr(j + 1)[0] && !msr(j + 1)[1]
                           case Sleep => !msr(j + 1)[0] && msr(j + 1)[1]
                           case Unknown => false
      ensures MCR == (match m
                      case Initialization => old(MCR)[SLEEP := false][INRQ := true]
                      case Normal => old(MCR)[SLEEP := false][INRQ := false]
                      case Sleep => old(MCR)[SLEEP := true][INRQ := false]
                      case Unknown => old(MCR))
    {
      var last := 0;
      match m {
        case Initialization =>
          MCR := Or(And(MCR, Not(Mask(SLEEP, 1))), Mask(INRQ, 1));
          assert MCR == old(MCR)[SLEEP := false][INRQ := true];
          last := WaitDown(msr, Reached(m), 0);
        case Normal =>
          MCR := And(MCR, Not(Or(Mask(SLEEP, 1), Mask(INRQ, 1))));
          assert MCR == old(MCR)[SLEEP := false][INRQ := false];
          last := WaitDown(msr, Reached(m), 0);
        case Sleep =>
          MCR := Or(And(MCR, Not(Mask(INRQ, 1))), Mask(SLEEP, 1));
          assert MCR == old(MCR)[SLEEP := true][INRQ := false];
          last := WaitDown(msr, Reached(m), 0);
        case Unknown =>
      }
      j := last;
      success := m != Unknown && InMode(msr(last + 1), m);
    }

    /** CAN_Init. The options and the timing are written only after a read that saw the
        acknowledge; a failed entry changes nothing but the two request bits. */
    method Init(c: Config, msr: Reads) returns (success: bool, ghost entry: nat, ghost exit: nat)
      requires InRange(c)
      modifies this
      ensures WaitEnds(msr, Entered, 0, entry)
      ensures !msr(entry + 1)[0] ==> !success && BTR == old(BTR) && MCR == old(MCR)[1 := false][0 := true]
      ensures msr(entry + 1)[0] ==> BTR == Timing(c) && MCR == Configured(old(MCR), c)
      ensures msr(entry + 1)[0] ==> TimingHeld(BTR, c) && OptionsHeld(MCR, c) && MCR[8..] == old(MCR)[8..]
      ensures msr(entry + 1)[0] ==> WaitEnds(msr, Left, entry + 2, exit)
      ensures msr(entry + 1)[0] ==> (success <==> !msr(entry + exit + 3)[0])
    {
      exit := 0;
      RequestInit();
      var first := WaitUp(msr, Entered, 0);
      entry := first;
      if !Initialising(msr(first + 1)) {
        success := false;
      } else {
        Configure(c);
        var second := WaitUp(msr, Left, first + 2);
        exit := second;
        success := !Initialising(msr(first + second + 3));
      }
    }

    /** Leave sleep, request initialisation. */
    method RequestInit()
      modifies this`MCR
      ensures MCR == Requested(old(MCR))
    {
      OneBitWritten(MCR, SLEEP);
      MCR := And(MCR, Not(Mask(SLEEP, 1)));
      OneBitWritten(MCR, INRQ);
      MCR := Or(MCR, Mask(INRQ, 1));
    }

    /** Options, timing, and the request to leave initialisation. */
    method Configure(c: Config)
      requires InRange(c) && MCR == Requested(MCR)
      modifies this
      ensures BTR == Timing(c) && MCR == Configured(old(MCR), c)
      ensures TimingHeld(BTR, c) && OptionsHeld(MCR, c) && MCR[8..] == old(MCR)[8..]
    {
      TimingFields(c);
      SetOptions(c);
      BTR := TimingBits(c);
      TimingIsPacked(c);
      OneBitWritten(MCR, INRQ);
      MCR := And(MCR, Not(Mask(INRQ, 1)));
      ConfiguredBits(old(MCR), c);
    }

    /** The six option bits, each by its own read-modify-write. */
    method SetOptions(c: Config)
      modifies this`MCR
      ensures MCR == WithOptions(old(MCR), c)
    {
      SetOption(TTCM, c.ttcm);
      SetOption(ABOM, c.abom);
      SetOption(AWUM, c.awum);
      SetOption(NART, c.nart);
      SetOption(RFLM, c.rflm);
      SetOption(TXFP, c.txfp);
    }

    method SetOption(k: nat, enable: bool)
      requires k < 32
      modifies this`MCR
      ensures MCR == old(MCR)[k := enable]
    {
      OneBitWritten(MCR, k);
      if enable {
        MCR := Or(MCR, Mask(k, 1));
      } else {
        MCR := And(MCR, Not(Mask(k, 1)));
      }
    }

    /** CAN_WakeUp. */
    method WakeUp(msr: Reads) returns (awake: bool, ghost j: nat)
      modifies this`MCR
      ensures MCR == old(MCR)[SLEEP := false]
      ensures WaitEnds(msr, Awake, 0, j)
      ensures awake <==> !msr(j + 1)[1]
    {
      OneBitWritten(MCR, SLEEP);
      MCR := And(MCR, Not(Mask(SLEEP, 1)));
      var last := WaitDown(msr, Awake, 0);
      j := last;
      awake := !Sleeping(msr(last + 1));
    }

    /** CAN_Sleep looks once, without waiting. */
    method EnterSleep(msr: Word) returns (asleep: bool)
      modifies this`MCR
      ensures MCR == old(MCR)[INRQ := false][SLEEP := true]
      ensures asleep <==> msr[1] && !msr[0]
    {
      MCR := Or(And(MCR, Not(Mask(INRQ, 1))), Mask(SLEEP, 1));
      assert MCR == old(MCR)[INRQ := false][SLEEP := true];
      asleep := Sleeping(msr) && !Initialising(msr);
    }
  }
}
