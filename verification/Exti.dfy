/** The external interrupt controller: EXTI_Init, EXTI_DeInit and the pending flags
    (stm32f10x_exti.c). A call names any set of the 20 lines. */
module Exti {
  import opened Words

  // The mode and trigger codes are byte offsets of registers.
  const MODE_INTERRUPT := 0x00
  const MODE_EVENT := 0x04
  const TRIGGER_RISING := 0x08
  const TRIGGER_FALLING := 0x0C
  const TRIGGER_BOTH := 0x10

  // Register indices, a quarter of the byte offsets.
  const IMR := 0
  const EMR := 1
  const RTSR := 2
  const FTSR := 3
  const SWIER := 4
  const PR := 5

  predicate IsMode(mode: nat) { mode == MODE_INTERRUPT || mode == MODE_EVENT }
  predicate IsTrigger(trigger: nat) {
    trigger == TRIGGER_RISING || trigger == TRIGGER_FALLING || trigger == TRIGGER_BOTH
  }
  predicate IsLines(lines: Word) { forall k :: 20 <= k < 32 ==> !lines[k] }

  /** One line as a user sees it. */
  datatype Line = Line(interrupt: bool, event: bool, rising: bool, falling: bool)

  datatype Command =
    | Enable(lines: Word, mode: nat, trigger: nat)
    | Disable(lines: Word, mode: nat)
    | DeInit

  predicate Legal(c: Command) {
    match c
    case Enable(lines, mode, trigger) => IsLines(lines) && IsMode(mode) && IsTrigger(trigger)
    case Disable(lines, mode) => IsLines(lines) && IsMode(mode)
    case DeInit => true
  }

  /** What one call does to one line. */
  function LineAfter(c: Command, k: nat, l: Line): Line
    requires k < 32
  {
    match c
    case DeInit => Line(false, false, false, false)
    case Enable(lines, mode, trigger) =>
      if !lines[k] then l
      else Line(mode == MODE_INTERRUPT, mode == MODE_EVENT, trigger != TRIGGER_FALLING, trigger != TRIGGER_RISING)
    case Disable(lines, mode) =>
      if !lines[k] then l
      else if mode == MODE_INTERRUPT then l.(interrupt := false)
      else l.(event := false)
  }

  class Controller {
    var regs: seq<Word>

    ghost predicate Valid()
      reads this
    {
      |regs| == 6
    }

    ghost function LineAt(k: nat): Line
      requires Valid() && k < 32
      reads this
    {
      Line(regs[IMR][k], regs[EMR][k], regs[RTSR][k], regs[FTSR][k])
    }

    /** Setting and clearing bits of a register named by its index. */
    method SetIn(i: nat, lines: Word)
      requires Valid() && i < 4
      modifies this
      ensures Valid() && regs == old(regs)[i := Or(old(regs)[i], lines)]
    {
      regs := regs[i := Or(regs[i], lines)];
    }

    method ClearIn(i: nat, lines: Word)
      requires Valid() && i < 4
      modifies this
      ensures Valid() && regs == old(regs)[i := And(old(regs)[i], Not(lines))]
    {
      regs := regs[i := And(regs[i], Not(lines))];
    }

    /** EXTI_Init with EXTI_LineCmd enabled: the selected lines leave both modes, enter one, and
        get exactly the triggers asked for. */
    method EnableLines(lines: Word, mode: nat, trigger: nat)
      requires Valid() && Legal(Enable(lines, mode, trigger))
      modifies this
      ensures Valid()
      ensures forall k :: 0 <= k < 32 ==> LineAt(k) == LineAfter(Enable(lines, mode, trigger), k, old(LineAt(k)))
      ensures forall k :: 0 <= k < 32 && lines[k] ==>
        && regs[0][k] == (mode == 0x00) && regs[1][k] == (mode == 0x04)
        && regs[2][k] == (trigger == 0x08 || trigger == 0x10) && regs[3][k] == (trigger == 0x0C || trigger == 0x10)
      ensures forall i, k :: 0 <= i < 4 && 0 <= k < 32 && !lines[k] ==> regs[i][k] == old(regs)[i][k]
      ensures regs[SWIER] == old(regs)[SWIER] && regs[PR] == old(regs)[PR]
    {
      ClearIn(IMR, lines);
      ClearIn(EMR, lines);
      SetIn(mode / 4, lines);
      SelectTrigger(lines, trigger);
    }

    method SelectTrigger(lines: Word, trigger: nat)
      requires Valid() && IsTrigger(trigger)
      modifies this
      ensures Valid() && regs == old(regs)[RTSR := regs[RTSR]][FTSR := regs[FTSR]]
      ensures forall k :: 0 <= k < 32 ==>
        regs[RTSR][k] == (if lines[k] then trigger != TRIGGER_FALLING else old(regs)[RTSR][k]) &&
        regs[FTSR][k] == (if lines[k] then trigger != TRIGGER_RISING else old(regs)[FTSR][k])
    {
      ClearIn(RTSR, lines);
      ClearIn(FTSR, lines);
      if trigger == TRIGGER_BOTH {
        SetIn(RTSR, lines);
        SetIn(FTSR, lines);
      } else {
        SetIn(trigger / 4, lines);
      }
    }

    /** EXTI_Init with EXTI_LineCmd disabled: only the one mode register changes. */
    method DisableLines(lines: Word, mode: nat)
      requires Valid() && Legal(Disable(lines, mode))
      modifies this
      ensures Valid() && forall k :: 0 <= k < 32 ==> LineAt(k) == LineAfter(Disable(lines, mode), k, old(LineAt(k)))
      ensures forall k :: 0 <= k < 32 && lines[k] ==> !regs[mode / 4][k]
      ensures forall i, k :: 0 <= i < 4 && 0 <= k < 32 && (i != mode / 4 || !lines[k]) ==> regs[i][k] == old(regs)[i][k]
      ensures regs[SWIER] == old(regs)[SWIER] && regs[PR] == old(regs)[PR]
    {
      ClearIn(mode / 4, lines);
    }

    /** A write of PR clears the bits that are written as ones. */
    method WritePR(v: Word)
      requires Valid()
      modifies this
      ensures Valid() && regs == old(regs)[PR := And(old(regs)[PR], Not(v))]
    {
      regs := regs[PR := And(regs[PR], Not(v))];
    }

    method DeInitialise()
      requires Valid()
      modifies this
      ensures Valid() && forall k :: 0 <= k < 32 ==> LineAt(k) == LineAfter(DeInit, k, old(LineAt(k)))
      ensures forall i, k :: 0 <= i < 4 && 0 <= k < 32 ==> !regs[i][k]
      ensures forall k :: 0 <= k < 32 ==> regs[PR][k] == (k >= 20 && old(regs)[PR][k])
    {
      regs := regs[IMR := Zeros(32)];
      regs := regs[EMR := Zeros(32)];
      regs := regs[RTSR := Zeros(32)];
      regs := regs[FTSR := Zeros(32)];
      WritePR(Mask(0, 20));
    }

    /** EXTI_GetITStatus: some named line is pending, and some named line is unmasked. */
    method GetITStatus(lines: Word) returns (set_: bool)
      requires Valid()
      ensures set_ <==> (exists k :: 0 <= k < 32 && lines[k] && regs[PR][k])
                        && (exists k :: 0 <= k < 32 && lines[k] && regs[IMR][k])
    {
      var enablestatus := And(regs[IMR], lines);
      SomeBit(regs[PR], lines);
      SomeBit(regs[IMR], lines);
      set_ := And(regs[PR], lines) != Zeros(32) && enablestatus != Zeros(32);
    }

    /** EXTI_ClearITPendingBit. */
    method ClearITPendingBit(lines: Word)
      requires Valid() && IsLines(lines)
      modifies this
      ensures Valid() && forall k :: 0 <= k < 32 ==> regs[PR][k] == (old(regs)[PR][k] && !lines[k])
      ensures forall k :: 0 <= k < 32 ==> LineAt(k) == old(LineAt(k))
    {
      WritePR(lines);
    }

    /** Any run of calls. */
    method Run(cs: seq<Command>)
      requires Valid() && forall c :: c in cs ==> Legal(c)
      modifies this
      ensures Valid() && forall k :: 0 <= k < 32 ==> LineAt(k) == LineRun(cs, k, old(LineAt(k)))
    {
      for i := 0 to |cs|
        invariant Valid() && forall k :: 0 <= k < 32 ==> LineAt(k) == LineRun(cs[..i], k, old(LineAt(k)))
      {
        assert cs[..i + 1][..i] == cs[..i];
        match cs[i] {
          case Enable(lines, mode, trigger) => EnableLines(lines, mode, trigger);
          case Disable(lines, mode) => DisableLines(lines, mode);
          case DeInit => DeInitialise();
        }
      }
      assert cs[..|cs|] == cs;
    }
  }

  lemma SomeBit(w: Word, lines: Word)
    ensures And(w, lines) != Zeros(32) <==> exists k :: 0 <= k < 32 && lines[k] && w[k]
  {
    if And(w, lines) == Zeros(32) {
      forall k | 0 <= k < 32 ensures !(lines[k] && w[k]) {
        assert !And(w, lines)[k];
      }
    }
  }

  /** A single named line is reported exactly when it is both pending and unmasked. */
  lemma StatusOfOneLine(imr: Word, pr: Word, line: nat)
    requires line < 20
    ensures (exists k :: 0 <= k < 32 && Mask(line, 1)[k] && pr[k])
            && (exists k :: 0 <= k < 32 && Mask(line, 1)[k] && imr[k])
            <==> pr[line] && imr[line]
  {
    assert Mask(line, 1)[line];
  }

  ghost function LineRun(cs: seq<Command>, k: nat, before: Line): Line
    requires k < 32
  {
    if cs == [] then before else LineAfter(cs[|cs| - 1], k, LineRun(cs[..|cs| - 1], k, before))
  }

  /** Not in both modes, and with a trigger if in either. */
  predicate Sane(l: Line) {
    !(l.interrupt && l.event) && (l.interrupt || l.event ==> l.rising || l.falling)
  }

  /** From reset, over every run, every line is sane. */
  lemma {:induction false} RunsStaySane(cs: seq<Command>, k: nat, before: Line)
    requires k < 32 && Sane(before) && forall c :: c in cs ==> Legal(c)
    ensures Sane(LineRun(cs, k, before))
    decreases |cs|
  {
    if cs != [] {
      assert cs[|cs| - 1] in cs;
      RunsStaySane(cs[..|cs| - 1], k, before);
    }
  }

  /** A line is enabled in a mode exactly when the last call that could have decided it (an enable
      or a disable of that line in that mode, an enable in the other mode, or a reset) enabled it. */
  lemma {:induction false} EnabledByLast(cs: seq<Command>, k: nat, before: Line, mode: nat)
    requires k < 32 && IsMode(mode) && forall c :: c in cs ==> Legal(c)
    ensures (if mode == MODE_INTERRUPT then LineRun(cs, k, before).interrupt else LineRun(cs, k, before).event) ==
            LastDecision(cs, k, mode, if mode == MODE_INTERRUPT then before.interrupt else before.event)
    decreases |cs|
  {
    if cs != [] {
      assert cs[|cs| - 1] in cs;
      EnabledByLast(cs[..|cs| - 1], k, before, mode);
    }
  }

  ghost function LastDecision(cs: seq<Command>, k: nat, mode: nat, before: bool): bool
    requires k < 32
  {
    if cs == [] then before
    else
      var c, rest := cs[|cs| - 1], cs[..|cs| - 1];
      match c
      case DeInit => false
      case Enable(lines, m, _) => if lines[k] then m == mode else LastDecision(rest, k, mode, before)
      case Disable(lines, m) => if lines[k] && m == mode then false else LastDecision(rest, k, mode, before)
  }

  /** The triggers of a line are those of the last enable that names it, unless a reset came later. */
  lemma {:induction false} TriggersByLast(cs: seq<Command>, k: nat, before: Line)
    requires k < 32 && forall c :: c in cs ==> Legal(c)
    ensures LineRun(cs, k, before).rising == LastTrigger(cs, k, 0x08, before.rising)
    ensures LineRun(cs, k, before).falling == LastTrigger(cs, k, 0x0C, before.falling)
    decreases |cs|
  {
    if cs != [] {
      assert cs[|cs| - 1] in cs;
      TriggersByLast(cs[..|cs| - 1], k, before);
    }
  }

  ghost function LastTrigger(cs: seq<Command>, k: nat, edge: nat, before: bool): bool
    requires k < 32
  {
    if cs == [] then before
    else
      var c, rest := cs[|cs| - 1], cs[..|cs| - 1];
      match c
      case DeInit => false
      case Enable(lines, _, trigger) =>
        if lines[k] then trigger == edge || trigger == 0x10 else LastTrigger(rest, k, edge, before)
      case Disable(_, _) => LastTrigger(rest, k, edge, before)
  }
}
