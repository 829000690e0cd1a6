/**
 * What the execution engine guarantees: the effect of each supported
 * opcode, the state invariant of a run, progress and termination when no
 * jump wraps, independence of the bound on the number of steps, and where
 * decisions come from.
 */
module InterpreterFacts {
  import opened BpfTypes
  import opened ActionDecoder
  import opened Interpreter

  /** With distinct case labels each label selects its own case. */
  lemma ClassifyLabels(t: OpcodeTable)
    requires t.Distinct()
    ensures Classify(t, t.ldWAbs) == LdWAbs
    ensures Classify(t, t.ja) == Ja
    ensures Classify(t, t.jeqK) == JeqK
    ensures Classify(t, t.jgtK) == JgtK
    ensures Classify(t, t.jgeK) == JgeK
    ensures Classify(t, t.retK) == RetK
  {
  }

  // ---------------------------------------------------------------- one step

  /** `LD|W|ABS` loads record byte k when k is in range (so acc <= 255); otherwise it is an ERANGE error at this instruction and reads nothing. */
  lemma LoadStep(cfg: Config, prog: seq<Instr>, rec: seq<u8>, m: Machine)
    requires ValidRecord(cfg, rec) && m.ip < |prog|
    requires Classify(cfg.ops, prog[m.ip].op) == LdWAbs
    ensures LoadInRange(cfg, prog[m.ip].k) ==>
              prog[m.ip].k < |rec| &&
              Step(cfg, prog, rec, m) == Continue(Machine(Add32(m.ip, 1), m.ip, rec[prog[m.ip].k], m.scratch)) &&
              Step(cfg, prog, rec, m).next.acc < Two8
    ensures !LoadInRange(cfg, prog[m.ip].k) ==>
              forall rec' | ValidRecord(cfg, rec') :: Step(cfg, prog, rec', m) == Stop(Error(ERANGE, m.ip))
  {
  }

  /** `JA` continues at ip_c + 1 + k, modulo 2^32. */
  lemma JaStep(cfg: Config, prog: seq<Instr>, rec: seq<u8>, m: Machine)
    requires ValidRecord(cfg, rec) && m.ip < |prog|
    requires Classify(cfg.ops, prog[m.ip].op) == Ja
    ensures Step(cfg, prog, rec, m).Continue?
    ensures Step(cfg, prog, rec, m).next == Machine((m.ip + 1 + prog[m.ip].k) % Two32, m.ip, m.acc, m.scratch)
  {
  }

  /** The condition of a conditional jump, immediate on the left. */
  predicate JumpCondition(c: Opcode, k: u32, acc: u32)
    requires c == JeqK || c == JgtK || c == JgeK
  {
    match c
    case JeqK => k == acc
    case JgtK => k > acc
    case JgeK => k >= acc
  }

  /** A conditional jump continues at ip_c+1+jt when its condition holds and at ip_c+1+jf otherwise; acc is unchanged. */
  lemma CondJumpStep(cfg: Config, prog: seq<Instr>, rec: seq<u8>, m: Machine)
    requires ValidRecord(cfg, rec) && m.ip < |prog|
    requires Classify(cfg.ops, prog[m.ip].op) in {JeqK, JgtK, JgeK}
    ensures Step(cfg, prog, rec, m).Continue?
    ensures var c := Classify(cfg.ops, prog[m.ip].op);
            var ins := prog[m.ip];
            Step(cfg, prog, rec, m).next ==
              Machine((m.ip + 1 + (if JumpCondition(c, ins.k, m.acc) then ins.jt else ins.jf)) % Two32,
                      m.ip, m.acc, m.scratch)
  {
  }

  /** `JGT` compares `k > acc`: equality takes `jf`, a larger immediate takes `jt`. */
  lemma JgtExamples(cfg: Config, m: Machine, rec: seq<u8>)
    requires ValidRecord(cfg, rec) && cfg.ops.Distinct()
    requires m.ip == 0 && m.acc == 5
    ensures Step(cfg, [Instr(cfg.ops.jgtK, 3, 7, 5)], rec, m).next.ip == 8
    ensures Step(cfg, [Instr(cfg.ops.jgtK, 3, 7, 10)], rec, m).next.ip == 4
  {
    ClassifyLabels(cfg.ops);
  }

  /** `RET|K` ends the run with the decoding of k at this instruction, whatever acc, the scratch words and the record are. */
  lemma RetStep(cfg: Config, prog: seq<Instr>, rec: seq<u8>, m: Machine)
    requires ValidRecord(cfg, rec) && m.ip < |prog|
    requires Classify(cfg.ops, prog[m.ip].op) == RetK
    ensures forall rec': seq<u8>, m': Machine | ValidRecord(cfg, rec') && m'.ip == m.ip ::
              Step(cfg, prog, rec', m') == Stop(EndAction(prog[m.ip].k, m.ip))
  {
  }

  /** Any opcode outside the six cases is a fault. */
  lemma UnsupportedStep(cfg: Config, prog: seq<Instr>, rec: seq<u8>, m: Machine)
    requires ValidRecord(cfg, rec) && m.ip < |prog|
    requires Classify(cfg.ops, prog[m.ip].op) == Unsupported
    ensures Step(cfg, prog, rec, m) == Stop(Fault(EOPNOTSUPP))
  {
  }

  // ------------------------------------------------------- state invariant

  /** What holds of every state of a run: acc holds a byte, and the scratch words are still all zero. */
  predicate SimInvariant(cfg: Config, m: Machine) {
    m.acc < Two8 && m.scratch == Init(cfg).scratch
  }

  /** A run starts in the invariant. */
  lemma InitInvariant(cfg: Config)
    ensures SimInvariant(cfg, Init(cfg))
  {
  }

  /** No supported opcode writes the scratch words, and acc only ever receives a record byte; `ipC` records the executed instruction. */
  lemma StepPreservesInvariant(cfg: Config, prog: seq<Instr>, rec: seq<u8>, m: Machine)
    requires ValidRecord(cfg, rec) && m.ip < |prog|
    requires SimInvariant(cfg, m)
    ensures Step(cfg, prog, rec, m).Continue? ==>
              SimInvariant(cfg, Step(cfg, prog, rec, m).next) &&
              Step(cfg, prog, rec, m).next.ipC == m.ip &&
              Step(cfg, prog, rec, m).next.scratch == m.scratch
  {
  }

  // ------------------------------------------------ progress and termination

  /** The largest amount an instruction adds to ip_c + 1. */
  function MaxOffset(c: Opcode, ins: Instr): (n: nat) {
    match c
    case Ja => ins.k
    case JeqK => if ins.jt < ins.jf then ins.jf else ins.jt
    case JgtK => if ins.jt < ins.jf then ins.jf else ins.jt
    case JgeK => if ins.jt < ins.jf then ins.jf else ins.jt
    case _ => 0
  }

  /** No instruction's successor wraps around 2^32. */
  predicate NoWrap(t: OpcodeTable, prog: seq<Instr>) {
    forall i :: 0 <= i < |prog| ==> i + 1 + MaxOffset(Classify(t, prog[i].op), prog[i]) < Two32
  }

  /** `LD` and conditional-jump steps always move forward by at least one, in a program shorter than 2^32 - 256. */
  lemma ForwardStep(cfg: Config, prog: seq<Instr>, rec: seq<u8>, m: Machine)
    requires ValidRecord(cfg, rec) && m.ip < |prog| && |prog| + Two8 <= Two32
    requires Classify(cfg.ops, prog[m.ip].op) in {LdWAbs, JeqK, JgtK, JgeK}
    ensures Step(cfg, prog, rec, m).Continue? ==> Step(cfg, prog, rec, m).next.ip > m.ip
  {
  }

  /** When no jump wraps, every step that continues strictly increases ip. */
  lemma NoWrapAdvances(cfg: Config, prog: seq<Instr>, rec: seq<u8>, m: Machine)
    requires ValidRecord(cfg, rec) && m.ip < |prog|
    requires NoWrap(cfg.ops, prog)
    ensures Step(cfg, prog, rec, m).Continue? ==> Step(cfg, prog, rec, m).next.ip > m.ip
  {
    var i: int := m.ip;
    assert i + 1 + MaxOffset(Classify(cfg.ops, prog[i].op), prog[i]) < Two32;
  }

  /** When no jump wraps, a run from ip ends within |prog| - ip instructions. */
  lemma {:induction false} NoWrapTerminates(cfg: Config, prog: seq<Instr>, rec: seq<u8>, m: Machine, fuel: nat)
    requires ValidRecord(cfg, rec)
    requires NoWrap(cfg.ops, prog)
    requires m.ip + fuel >= |prog|
    ensures Run(cfg, prog, rec, m, fuel).Some?
    decreases fuel
  {
    if m.ip < |prog| {
      NoWrapAdvances(cfg, prog, rec, m);
      match Step(cfg, prog, rec, m)
      case Stop(o) =>
      case Continue(m') => NoWrapTerminates(cfg, prog, rec, m', fuel - 1);
    }
  }

  /** In particular a whole run of such a program finishes within |prog| instructions. */
  lemma NoWrapRunFinishes(cfg: Config, prog: seq<Instr>, rec: seq<u8>)
    requires ValidRecord(cfg, rec)
    requires NoWrap(cfg.ops, prog)
    ensures Run(cfg, prog, rec, Init(cfg), |prog|).Some?
  {
    NoWrapTerminates(cfg, prog, rec, Init(cfg), |prog|);
  }

  /** A program the loader accepts (fewer than 4096 instructions) cannot wrap unless some `JA` jumps by 2^32 - 4096 or more. */
  lemma SmallProgramNoWrap(t: OpcodeTable, prog: seq<Instr>)
    requires |prog| < 4096
    requires forall i :: 0 <= i < |prog| && Classify(t, prog[i].op) == Ja ==> prog[i].k < Two32 - 4096
    ensures NoWrap(t, prog)
  {
    forall i | 0 <= i < |prog|
      ensures i + 1 + MaxOffset(Classify(t, prog[i].op), prog[i]) < Two32
    {
      if Classify(t, prog[i].op) == Ja {
        assert prog[i].k < Two32 - 4096;
      }
    }
  }

  /** An outcome, once reached, is the same with any larger bound: the bound only cuts runs short. */
  lemma {:induction false} RunFuelMonotone(cfg: Config, prog: seq<Instr>, rec: seq<u8>, m: Machine, fuel: nat, more: nat)
    requires ValidRecord(cfg, rec)
    requires Run(cfg, prog, rec, m, fuel).Some?
    requires fuel <= more
    ensures Run(cfg, prog, rec, m, more) == Run(cfg, prog, rec, m, fuel)
    decreases fuel
  {
    if m.ip < |prog| {
      match Step(cfg, prog, rec, m)
      case Stop(o) =>
      case Continue(m') => RunFuelMonotone(cfg, prog, rec, m', fuel - 1, more - 1);
    }
  }

  // ------------------------------------------------------ where outcomes come from

  /** A decision is only ever produced by a `RET|K` instruction, decoding that instruction's k at its index. */
  lemma {:induction false} ActionFromRet(cfg: Config, prog: seq<Instr>, rec: seq<u8>, m: Machine, fuel: nat, d: Decision)
    requires ValidRecord(cfg, rec)
    requires Run(cfg, prog, rec, m, fuel) == Some(Action(d))
    ensures exists i :: 0 <= i < |prog| && i < Two32 && Classify(cfg.ops, prog[i].op) == RetK && EndAction(prog[i].k, i) == Action(d)
    decreases fuel
  {
    var i: int := m.ip;
    match Step(cfg, prog, rec, m)
    case Stop(o) =>
      assert Classify(cfg.ops, prog[i].op) == RetK && EndAction(prog[i].k, i) == Action(d);
    case Continue(m') => ActionFromRet(cfg, prog, rec, m', fuel - 1, d);
  }

  /** Running off the end of the program (or starting past it) is an ERANGE error at the last executed instruction. */
  lemma RunOffEnd(cfg: Config, prog: seq<Instr>, rec: seq<u8>, m: Machine, fuel: nat)
    requires ValidRecord(cfg, rec) && m.ip >= |prog|
    ensures Run(cfg, prog, rec, m, fuel) == Some(Error(ERANGE, m.ipC))
  {
  }

  /** An error's line is the index of an executed instruction (0 for the empty program). */
  lemma {:induction false} ErrorLineExecuted(cfg: Config, prog: seq<Instr>, rec: seq<u8>, m: Machine, fuel: nat,
                                             code: ErrCode, line: u32)
    requires ValidRecord(cfg, rec)
    requires m.ipC < |prog| || m.ipC == 0
    requires Run(cfg, prog, rec, m, fuel) == Some(Error(code, line))
    ensures line < |prog| || (line == 0 && |prog| == 0)
    decreases fuel
  {
    if m.ip < |prog| {
      match Step(cfg, prog, rec, m)
      case Stop(o) =>
      case Continue(m') => ErrorLineExecuted(cfg, prog, rec, m', fuel - 1, code, line);
    }
  }

  /** The syscall record is read only by `LD|W|ABS`: a program without one has the same outcome for every record. */
  lemma {:induction false} RecordOnlyReadByLoad(cfg: Config, prog: seq<Instr>, rec1: seq<u8>, rec2: seq<u8>,
                                                m: Machine, fuel: nat)
    requires ValidRecord(cfg, rec1) && ValidRecord(cfg, rec2)
    requires forall i :: 0 <= i < |prog| ==> Classify(cfg.ops, prog[i].op) != LdWAbs
    ensures Run(cfg, prog, rec1, m, fuel) == Run(cfg, prog, rec2, m, fuel)
    decreases fuel
  {
    if m.ip < |prog| && fuel > 0 {
      var i: int := m.ip;
      assert Classify(cfg.ops, prog[i].op) != LdWAbs;
      assert Step(cfg, prog, rec1, m) == Step(cfg, prog, rec2, m);
      match Step(cfg, prog, rec1, m)
      case Stop(o) =>
      case Continue(m') => RecordOnlyReadByLoad(cfg, prog, rec1, rec2, m', fuel - 1);
    }
  }

  // ------------------------------------------------------------ small programs

  /** An empty program is an ERANGE error at instruction 0. */
  lemma EmptyProgram(cfg: Config, rec: seq<u8>, fuel: nat)
    requires ValidRecord(cfg, rec)
    ensures Run(cfg, [], rec, Init(cfg), fuel) == Some(Error(ERANGE, 0))
  {
  }

  /** `[RET 0x7fff0000]` yields ALLOW for every record. */
  lemma RetAllowProgram(cfg: Config, rec: seq<u8>, fuel: nat)
    requires ValidRecord(cfg, rec) && cfg.ops.Distinct() && fuel >= 1
    ensures Run(cfg, [Instr(cfg.ops.retK, 0, 0, ActAllow)], rec, Init(cfg), fuel) == Some(Action(Allow))
  {
    ClassifyLabels(cfg.ops);
  }

  /** `[LD k, RET 0x7fff0000]` yields ALLOW whatever byte was loaded, or ERANGE at instruction 0 when k is out of range. */
  lemma LoadThenAllow(cfg: Config, rec: seq<u8>, k: u32, fuel: nat)
    requires ValidRecord(cfg, rec) && cfg.ops.Distinct() && fuel >= 2
    ensures var prog := [Instr(cfg.ops.ldWAbs, 0, 0, k), Instr(cfg.ops.retK, 0, 0, ActAllow)];
            Run(cfg, prog, rec, Init(cfg), fuel) ==
              if k < cfg.SysMax() then Some(Action(Allow)) else Some(Error(ERANGE, 0))
  {
    ClassifyLabels(cfg.ops);
  }

  /** `[LD k]` with k in range runs off the end: ERANGE at instruction 0, never a decision. */
  lemma LoadWithoutRet(cfg: Config, rec: seq<u8>, k: u32, fuel: nat)
    requires ValidRecord(cfg, rec) && cfg.ops.Distinct() && fuel >= 1 && k < cfg.SysMax()
    ensures Run(cfg, [Instr(cfg.ops.ldWAbs, 0, 0, k)], rec, Init(cfg), fuel) == Some(Error(ERANGE, 0))
  {
    ClassifyLabels(cfg.ops);
  }

  /** A zero-offset `JA` just falls through to the next instruction. */
  lemma JaZeroFallsThrough(cfg: Config, rec: seq<u8>, fuel: nat)
    requires ValidRecord(cfg, rec) && cfg.ops.Distinct() && fuel >= 2
    ensures Run(cfg, [Instr(cfg.ops.ja, 0, 0, 0), Instr(cfg.ops.retK, 0, 0, ActKill)], rec, Init(cfg), fuel)
            == Some(Action(Kill))
  {
    ClassifyLabels(cfg.ops);
  }

  /** `JA 0xffffffff` wraps ip back to itself: no bound on the steps is ever enough. */
  lemma {:induction false} JaWrapLoops(cfg: Config, rec: seq<u8>, fuel: nat)
    requires ValidRecord(cfg, rec) && cfg.ops.Distinct()
    ensures Run(cfg, [Instr(cfg.ops.ja, 0, 0, Two32 - 1)], rec, Init(cfg), fuel) == None
    decreases fuel
  {
    ClassifyLabels(cfg.ops);
    if fuel > 0 {
      var prog := [Instr(cfg.ops.ja, 0, 0, Two32 - 1)];
      assert Step(cfg, prog, rec, Init(cfg)) == Continue(Init(cfg));
      JaWrapLoops(cfg, rec, fuel - 1);
    }
  }

  /** The two-instruction program `[JA 0, JA 0xfffffffe]`: the first jump falls through, the second wraps back to index 0. */
  function WrapPair(t: OpcodeTable): (prog: seq<Instr>)
    ensures |prog| == 2
  {
    [Instr(t.ja, 0, 0, 0), Instr(t.ja, 0, 0, Two32 - 2)]
  }

  /** From either instruction of `WrapPair`, no bound on the steps is enough. */
  lemma {:induction false} WrapPairLoopsFrom(cfg: Config, rec: seq<u8>, m: Machine, fuel: nat)
    requires ValidRecord(cfg, rec) && cfg.ops.Distinct()
    requires m.ip <= 1
    ensures Run(cfg, WrapPair(cfg.ops), rec, m, fuel) == None
    decreases fuel
  {
    ClassifyLabels(cfg.ops);
    if fuel > 0 {
      var prog := WrapPair(cfg.ops);
      var m' := Step(cfg, prog, rec, m).next;
      assert m'.ip == (m.ip + 1 + prog[m.ip].k) % Two32;
      assert m'.ip <= 1;
      WrapPairLoopsFrom(cfg, rec, m', fuel - 1);
    }
  }

  /** `[JA 0, JA 0xfffffffe]` never reaches an outcome: a wrapping jump back to an earlier index loops too. */
  lemma JaWrapPairLoops(cfg: Config, rec: seq<u8>, fuel: nat)
    requires ValidRecord(cfg, rec) && cfg.ops.Distinct()
    ensures Run(cfg, [Instr(cfg.ops.ja, 0, 0, 0), Instr(cfg.ops.ja, 0, 0, Two32 - 2)], rec, Init(cfg), fuel) == None
  {
    WrapPairLoopsFrom(cfg, rec, Init(cfg), fuel);
  }
}
