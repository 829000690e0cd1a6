/**
 * The execution engine: the fetch/dispatch loop of the simulator over a
 * loaded program and a syscall record.
 *
 * `Step` and `Run` give the meaning of one instruction and of a whole run;
 * `BpfExecute` is the loop itself, proved to compute `Run`.  A run can
 * loop forever (an unconditional jump whose offset wraps `ip` back), so
 * `Run` and `BpfExecute` take a bound on the number of instructions to
 * execute and answer `None` when it is used up.
 */
module Interpreter {
  import opened BpfTypes
  import opened ActionDecoder

  /** The case of the switch an opcode falls into. */
  datatype Opcode = LdWAbs | Ja | JeqK | JgtK | JgeK | RetK | Unsupported

  /** The case label an opcode matches, in the order of the switch; any other value is the default case. */
  function Classify(t: OpcodeTable, op: u16): (c: Opcode)
    ensures c == LdWAbs ==> op == t.ldWAbs
    ensures c == Ja ==> op == t.ja
    ensures c == JeqK ==> op == t.jeqK
    ensures c == JgtK ==> op == t.jgtK
    ensures c == JgeK ==> op == t.jgeK
    ensures c == RetK ==> op == t.retK
    ensures c == Unsupported <==>
            op != t.ldWAbs && op != t.ja && op != t.jeqK && op != t.jgtK && op != t.jgeK && op != t.retK
  {
    if op == t.ldWAbs then LdWAbs
    else if op == t.ja then Ja
    else if op == t.jeqK then JeqK
    else if op == t.jgtK then JgtK
    else if op == t.jgeK then JgeK
    else if op == t.retK then RetK
    else Unsupported
  }

  /**
   * The simulator's state: the instruction pointer `ip`, the index `ipC`
   * of the instruction being executed, and `sim_state` (the accumulator and
   * the scratch words).
   */
  datatype Machine = Machine(ip: u32, ipC: u32, acc: u32, scratch: seq<u32>)

  /** The state a run starts in: both indices zero and `sim_state` cleared. */
  function Init(cfg: Config): (m: Machine)
    ensures m.ip == 0 && m.ipC == 0 && m.acc == 0
    ensures |m.scratch| == cfg.scratchSize
    ensures forall i :: 0 <= i < |m.scratch| ==> m.scratch[i] == 0
  {
    Machine(0, 0, 0, seq(cfg.scratchSize, _ => 0))
  }

  /** The bounds test of `LD|W|ABS`: the offset is below the maximum of the selected width. */
  predicate LoadInRange(cfg: Config, k: u32)
    ensures LoadInRange(cfg, k) <==> k < cfg.SysMax()
  {
    (cfg.width == W32 && k < cfg.sysMax32) || (cfg.width == W64 && k < cfg.sysMax64)
  }

  /** The result of executing one instruction. */
  datatype StepResult = Continue(next: Machine) | Stop(out: Outcome)

  /** The branch a conditional jump takes: `jt` when its condition holds, else `jf`. */
  function JumpOffset(cond: bool, ins: Instr): (off: u8) {
    if cond then ins.jt else ins.jf
  }

  /** Fetch the instruction at `ip`, bump `ip`, and dispatch on its opcode. */
  function Step(cfg: Config, prog: seq<Instr>, rec: seq<u8>, m: Machine): (s: StepResult)
    requires ValidRecord(cfg, rec) && m.ip < |prog|
  {
    var ins := prog[m.ip];
    var here := m.ip;
    var ip := Add32(m.ip, 1);
    match Classify(cfg.ops, ins.op)
    case LdWAbs =>
      if LoadInRange(cfg, ins.k) then Continue(Machine(ip, here, rec[ins.k], m.scratch))
      else Stop(Error(ERANGE, here))
    case Ja => Continue(Machine(Add32(ip, ins.k), here, m.acc, m.scratch))
    case JeqK => Continue(Machine(Add32(ip, JumpOffset(ins.k == m.acc, ins)), here, m.acc, m.scratch))
    case JgtK => Continue(Machine(Add32(ip, JumpOffset(ins.k > m.acc, ins)), here, m.acc, m.scratch))
    case JgeK => Continue(Machine(Add32(ip, JumpOffset(ins.k >= m.acc, ins)), here, m.acc, m.scratch))
    case RetK => Stop(EndAction(ins.k, here))
    case Unsupported => Stop(Fault(EOPNOTSUPP))
  }

  /**
   * The outcome of running from `m` for at most `fuel` instructions, or
   * `None` when `fuel` instructions ran without reaching an outcome.
   * Leaving the program is an ERANGE error at the last executed instruction.
   */
  function Run(cfg: Config, prog: seq<Instr>, rec: seq<u8>, m: Machine, fuel: nat): (r: Option<Outcome>)
    requires ValidRecord(cfg, rec)
    decreases fuel
  {
    if m.ip >= |prog| then Some(Error(ERANGE, m.ipC))
    else if fuel == 0 then None
    else
      match Step(cfg, prog, rec, m)
      case Stop(o) => Some(o)
      case Continue(m') => Run(cfg, prog, rec, m', fuel - 1)
  }

  /** The simulator's execution loop, bounded to `fuel` instructions. */
  method BpfExecute(cfg: Config, prog: seq<Instr>, rec: seq<u8>, fuel: nat) returns (r: Option<Outcome>)
    requires ValidRecord(cfg, rec)
    ensures r == Run(cfg, prog, rec, Init(cfg), fuel)
  {
    var ip: u32 := 0;
    var ipC: u32 := 0;
    var acc: u32 := 0;
    var temp: seq<u32> := seq(cfg.scratchSize, _ => 0);
    var steps: nat := 0;
    while ip < |prog|
      invariant steps <= fuel
      invariant Run(cfg, prog, rec, Init(cfg), fuel) == Run(cfg, prog, rec, Machine(ip, ipC, acc, temp), fuel - steps)
      decreases fuel - steps
    {
      if steps == fuel {
        return None;
      }
      steps := steps + 1;
      ipC := ip;
      var ins := prog[ip];
      ip := Add32(ip, 1);
      if ins.op == cfg.ops.ldWAbs {
        if cfg.width == W32 && ins.k < cfg.sysMax32 {
          acc := rec[ins.k];
        } else if cfg.width == W64 && ins.k < cfg.sysMax64 {
          acc := rec[ins.k];
        } else {
          return Some(Error(ERANGE, ipC));
        }
      } else if ins.op == cfg.ops.ja {
        ip := Add32(ip, ins.k);
      } else if ins.op == cfg.ops.jeqK {
        if ins.k == acc {
          ip := Add32(ip, ins.jt);
        } else {
          ip := Add32(ip, ins.jf);
        }
      } else if ins.op == cfg.ops.jgtK {
        if ins.k > acc {
          ip := Add32(ip, ins.jt);
        } else {
          ip := Add32(ip, ins.jf);
        }
      } else if ins.op == cfg.ops.jgeK {
        if ins.k >= acc {
          ip := Add32(ip, ins.jt);
        } else {
          ip := Add32(ip, ins.jf);
        }
      } else if ins.op == cfg.ops.retK {
        return Some(EndAction(ins.k, ipC));
      } else {
        return Some(Fault(EOPNOTSUPP));
      }
    }
    return Some(Error(ERANGE, ipC));
  }
}
