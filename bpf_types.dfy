/**
 * Values shared by the simulator's components: machine words, the classic
 * BPF instruction record, the simulator configuration and the outcome of
 * one run.
 *
 * Constants that the simulator takes from its BPF header (the opcode
 * numbers, BPF_SYSCALL_MAX_32/64 and BPF_SCRATCH_SIZE) are not fixed here:
 * they are fields of `Config`, so every result holds for any choice of them.
 */
module BpfTypes {

  const Two8: int := 0x100
  const Two16: int := 0x1_0000
  const Two32: int := 0x1_0000_0000

  type u8 = x: int | 0 <= x < Two8
  type u16 = x: int | 0 <= x < Two16
  type u32 = x: int | 0 <= x < Two32

  /** Unsigned 32-bit addition, as C's `unsigned int` `+=`: wraps modulo 2^32. */
  function Add32(a: u32, b: u32): (r: u32)
    ensures a + b < Two32 ==> r == a + b
    ensures a + b >= Two32 ==> r == a + b - Two32
  {
    (a + b) % Two32
  }

  /** One classic BPF instruction: 16-bit opcode, two 8-bit jump offsets, 32-bit immediate. */
  datatype Instr = Instr(op: u16, jt: u8, jf: u8, k: u32)

  /** The opcode values of the six cases of the interpreter's switch. */
  datatype OpcodeTable = OpcodeTable(
    ldWAbs: u16,  // BPF_LD+BPF_W+BPF_ABS
    ja: u16,      // BPF_JMP+BPF_JA
    jeqK: u16,    // BPF_JMP+BPF_JEQ+BPF_K
    jgtK: u16,    // BPF_JMP+BPF_JGT+BPF_K
    jgeK: u16,    // BPF_JMP+BPF_JGE+BPF_K
    retK: u16)    // BPF_RET+BPF_K
  {
    /** The case labels of a C switch are pairwise distinct. */
    predicate Distinct() {
      ldWAbs != ja && ldWAbs != jeqK && ldWAbs != jgtK && ldWAbs != jgeK && ldWAbs != retK &&
      ja != jeqK && ja != jgtK && ja != jgeK && ja != retK &&
      jeqK != jgtK && jeqK != jgeK && jeqK != retK &&
      jgtK != jgeK && jgtK != retK &&
      jgeK != retK
    }
  }

  /** The machine width chosen with `-m`; the command line admits only 32 and 64. */
  datatype Width = W32 | W64

  /** Everything outside the instruction stream and the record that a run depends on. */
  datatype Config = Config(
    ops: OpcodeTable,
    sysMax32: nat,      // BPF_SYSCALL_MAX_32
    sysMax64: nat,      // BPF_SYSCALL_MAX_64
    scratchSize: nat,   // BPF_SCRATCH_SIZE
    width: Width)
  {
    /** The bound that `LD|W|ABS` checks its offset against for this width. */
    function SysMax(): (max: nat) {
      match width
      case W32 => sysMax32
      case W64 => sysMax64
    }
  }

  /** The syscall record, seen as bytes, covers every offset `LD|W|ABS` may read. */
  predicate ValidRecord(cfg: Config, rec: seq<u8>) {
    |rec| >= cfg.SysMax()
  }

  /** The errno values the simulator reports. */
  datatype ErrCode = EDOM | ERANGE | EOPNOTSUPP | E2BIG

  /** The closed set of filter decisions. */
  datatype Decision = Kill | Trap | Errno(n: u16) | Allow

  /**
   * The single result of a run: a decision printed on stdout, a program
   * error (errno and instruction index), or a simulator fault.
   */
  datatype Outcome = Action(d: Decision) | Error(code: ErrCode, line: u32) | Fault(fcode: ErrCode)

  datatype Option<T> = None | Some(value: T)
}
