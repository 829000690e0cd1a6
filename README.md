# Classic BPF (seccomp filter) simulator — execution engine

A Dafny model of the execution engine of libseccomp's BPF simulator
(`tools/bpf_sim.c`). The model has three parts:

- **`bpf_execute`.** The fetch/dispatch loop runs a filter program against a syscall record. It has an instruction pointer `ip`, the index `ip_c` of the instruction being executed, and `sim_state`, which is a 32-bit accumulator plus scratch words. It supports the opcodes `LD|W|ABS`, `JA`, `JEQ|K`, `JGT|K`, `JGE|K` and `RET|K`. Any other opcode is a fault.
- **`end_action`.** The decoder maps a return value onto KILL, TRAP, ERRNO(n) or ALLOW, or onto an EDOM program error.
- **The record-counting rule of the program loader in `main`.** It is modelled as a function of the file's length in bytes.

Every `exit()` of the C code becomes a returned value:
`Outcome = Action(Decision) | Error(code, line) | Fault(code)`.

Files:

- `bpf_types.dfy` (module `BpfTypes`) holds the shared types:
  - 8-, 16- and 32-bit words as integer subset types, and `Add32`, which wraps addition modulo 2^32.
  - The instruction record, with a 16-bit op, 8-bit `jt` and `jf`, and a 32-bit `k`.
  - The configuration, the error codes, the decisions and the outcomes.
- `end_action.dfy` (module `ActionDecoder`) holds the decoder. Its partner is `ActionValue`, the encoding of each decision.
- `interpreter.dfy` (module `Interpreter`) defines `Step`, the meaning of one instruction, and `Run`, the meaning of a whole run. It also holds the loop `BpfExecute`, which is proved to compute `Run`.
- `interpreter_facts.dfy` (module `InterpreterFacts`) holds the lemmas about each opcode, the state invariant, progress and termination, and some small programs.
- `loader.dfy` (module `Loader`) holds the load loop `CountRecords` and its closed form `LoadCount`.

Constants the simulator takes from its BPF header are fields of `Config`, so every result holds for any choice of their values:
- the six opcode values;
- `BPF_SYSCALL_MAX_32` and `BPF_SYSCALL_MAX_64`;
- `BPF_SCRATCH_SIZE`.

The machine width is part of `Config` too, as `W32 | W64`. The syscall record is a byte sequence. Its only requirement is that it covers the bound for the selected width. `Run` and `BpfExecute` take a bound on the number of instructions to execute, because a run need not end. They answer `None` when that bound is used up. `RunFuelMonotone` shows that the bound never changes an outcome that has been reached.

Three behaviours of the code worth noting:

- **Program capacity.** The loader faults as soon as the count reaches 4096 (`tools/bpf_sim.c:316-317`), so a file of exactly 4096 records is rejected and a loaded program has at most 4095 instructions (`CapExamples`).
- **Non-termination.** `JA 0` falls through to the next instruction (`JaZeroFallsThrough`). The one-instruction self-loop is `JA 0xffffffff`, whose `ip_c + 1 + k` wraps back to `ip_c` (`JaWrapLoops`). In general a `JA` whose target wraps back to an index at or before its own can loop (`JaWrapPairLoops` shows one with two instructions); this is exactly what `NoWrap` excludes.
- **Running off the end of the program.** This is reported as a program error, `exit_error(ERANGE, ip_c)` (`tools/bpf_sim.c:197`), modelled as `Error(ERANGE, ipC)`, not as a simulator fault.

## Model

| member | source | states |
|---|---|---|
| BpfTypes.Add32 | tools/bpf_sim.c:164 | `ip += k` on `unsigned int`: the exact sum below 2^32, the sum minus 2^32 otherwise |
| ActionDecoder.EndAction | tools/bpf_sim.c:110-123 | the result is a decision or `Error(EDOM, line)`; an ERRNO decision carries the low 16 bits and occurs only when the high half is 0x0003 |
| ActionDecoder.DecodeEncode | tools/bpf_sim.c:112-119 | decoding the value of any decision gives back that decision, at any line |
| ActionDecoder.DecodeExact | tools/bpf_sim.c:112-119 | both directions: the decoder yields decision d exactly when the value is d's encoding (0, 0x00020000, 0x0003nnnn, 0x7fff0000) |
| ActionDecoder.DecodeError | tools/bpf_sim.c:112-121 | both directions: the value is an EDOM error at the given line exactly when it matches none of the four patterns |
| ActionDecoder.ActionValueInjective | tools/bpf_sim.c:112-119 | the four cases are disjoint: distinct decisions have distinct values |
| ActionDecoder.DecodeConstants | tools/bpf_sim.c:112-121 | KILL, TRAP, ALLOW, ERRNO(1), ERRNO(65535) decode as documented; 0x00010000 and 0x7fff0001 are EDOM errors |
| Interpreter.Classify | tools/bpf_sim.c:152-193 | an opcode falls into a case only if it equals that case's label, and into the default case exactly when it equals none |
| Interpreter.Init | tools/bpf_sim.c:141-144 | a run starts with ip = 0, ip_c = 0, acc = 0 and every scratch word zero |
| Interpreter.LoadInRange | tools/bpf_sim.c:154-158 | the width-dependent bounds test holds exactly when k is below the selected width's maximum |
| Interpreter.BpfExecute | tools/bpf_sim.c:133-198 | the fetch/dispatch loop returns exactly the outcome `Run` gives from the initial state within the same step bound |
| InterpreterFacts.ClassifyLabels | tools/bpf_sim.c:152-193 | with distinct case labels, each label selects its own case |
| InterpreterFacts.LoadStep | tools/bpf_sim.c:153-161 | in range: acc becomes record byte k (so acc < 256) and ip becomes ip_c + 1; out of range: `Error(ERANGE, ip_c)` whatever the record holds |
| InterpreterFacts.JaStep | tools/bpf_sim.c:163-165 | `JA` continues at (ip_c + 1 + k) mod 2^32 with acc and scratch unchanged |
| InterpreterFacts.CondJumpStep | tools/bpf_sim.c:166-183 | JEQ/JGT/JGE continue at ip_c+1+jt when k == acc, k > acc or k >= acc respectively (immediate on the left), else at ip_c+1+jf; acc unchanged |
| InterpreterFacts.JgtExamples | tools/bpf_sim.c:172-176 | `JGT k=5` with acc 5 takes jf; `JGT k=10` with acc 5 takes jt |
| InterpreterFacts.RetStep | tools/bpf_sim.c:184-185 | `RET` stops with the decoding of k at line ip_c, independent of acc, scratch and the record |
| InterpreterFacts.UnsupportedStep | tools/bpf_sim.c:187-192 | any other opcode yields `Fault(EOPNOTSUPP)` |
| InterpreterFacts.InitInvariant | tools/bpf_sim.c:141-144 | the initial state satisfies the run invariant (acc a byte, scratch all zero) |
| InterpreterFacts.StepPreservesInvariant | tools/bpf_sim.c:149-193 | every continuing step keeps acc a byte, leaves the scratch words unchanged (no opcode writes them) and records the executed index in ip_c |
| InterpreterFacts.ForwardStep | tools/bpf_sim.c:150-182 | `LD` and conditional-jump steps strictly increase ip when the program is shorter than 2^32 - 256 |
| InterpreterFacts.NoWrapAdvances | tools/bpf_sim.c:147-193 | when no instruction's successor wraps past 2^32, every continuing step strictly increases ip |
| InterpreterFacts.NoWrapTerminates | tools/bpf_sim.c:147-194 | when nothing wraps, a run from ip reaches an outcome within (program length - ip) instructions |
| InterpreterFacts.NoWrapRunFinishes | tools/bpf_sim.c:147-194 | when nothing wraps, a whole run reaches an outcome within as many instructions as the program has |
| InterpreterFacts.SmallProgramNoWrap | tools/bpf_sim.c:163-165 | a program under 4096 instructions whose `JA` offsets are below 2^32 - 4096 never wraps |
| InterpreterFacts.RunFuelMonotone | tools/bpf_sim.c:147-194 | an outcome reached within some step bound is the same under any larger bound |
| InterpreterFacts.ActionFromRet | tools/bpf_sim.c:184-185 | a decision only ever comes from a `RET` instruction of the program, decoding its k at its own index |
| InterpreterFacts.RunOffEnd | tools/bpf_sim.c:196-197 | leaving the program is `Error(ERANGE, ip_c)` of the last executed instruction, never a decision |
| InterpreterFacts.ErrorLineExecuted | tools/bpf_sim.c:147-197 | the line of an ERANGE or EDOM error is the index of an instruction of the program, or 0 when the program is empty |
| InterpreterFacts.RecordOnlyReadByLoad | tools/bpf_sim.c:152-193 | only `LD` reads the syscall record: a program without `LD` has the same outcome for every record |
| InterpreterFacts.EmptyProgram | tools/bpf_sim.c:142-197 | the empty program yields `Error(ERANGE, 0)` |
| InterpreterFacts.RetAllowProgram | tools/bpf_sim.c:184-185 | `[RET 0x7fff0000]` yields ALLOW for every record |
| InterpreterFacts.LoadThenAllow | tools/bpf_sim.c:153-185 | `[LD k, RET 0x7fff0000]` yields ALLOW whatever byte is loaded when k is in range, `Error(ERANGE, 0)` otherwise |
| InterpreterFacts.LoadWithoutRet | tools/bpf_sim.c:153-197 | `[LD k]` with k in range falls off the end: `Error(ERANGE, 0)` |
| InterpreterFacts.JaZeroFallsThrough | tools/bpf_sim.c:163-165 | `JA 0` continues with the next instruction |
| InterpreterFacts.JaWrapLoops | tools/bpf_sim.c:163-165 | `[JA 0xffffffff]` never reaches an outcome, whatever the bound |
| InterpreterFacts.WrapPairLoopsFrom | tools/bpf_sim.c:147-165 | from either instruction of `[JA 0, JA 0xfffffffe]`, whatever acc and the scratch words hold, no step bound reaches an outcome |
| InterpreterFacts.JaWrapPairLoops | tools/bpf_sim.c:163-165 | `[JA 0, JA 0xfffffffe]` never reaches an outcome, whatever the bound: the second jump wraps back to the first instruction |
| Loader.CountRecords | tools/bpf_sim.c:308-318 | the do-while load loop yields exactly `LoadCount` of the file length |
| Loader.LoadedBounds | tools/bpf_sim.c:308-318 | a loaded count is below 4096 and is the number of whole 8-byte records in the file |
| Loader.PartialRecordDropped | tools/bpf_sim.c:310-313 | a trailing partial record changes nothing: it is not counted and raises no error |
| Loader.FaultAtCap | tools/bpf_sim.c:315-317 | both directions: loading faults with E2BIG exactly when the file holds 4096 or more whole records |
| Loader.CapExamples | tools/bpf_sim.c:312-317 | 4095 records (with or without 7 trailing bytes) load; 4096 records fault |

## Left out

- Command-line parsing (`getopt`, `strtol`, the rule that `-m` must come before an argument flag) and usage errors: these are command-line plumbing.
- Building the syscall record from `-s` and `-0`..`-5`. The record layout belongs to the BPF header, which is not part of this model. The record is an input byte sequence.
- File `open`/`read`/`close`, short reads on a non-regular file, and `calloc` failure. These are I/O and allocation. The loader is modelled only as counting over the byte length, with each read returning min(remaining, 8) bytes.
- Loader: the model does not store the records it counts. Turning bytes into `Instr` values depends on the header's struct layout and the host byte order.
- The printed text, the verbose flag and the process exit statuses (`exit_usage`, `exit_fault`, `exit_error`, `exit(0)`). Only the returned outcome and its codes are modelled. `main`'s final `exit_fault(EFAULT)` cannot be reached, because every path through `bpf_execute` exits.
- The numeric values of the `BPF_*` opcodes, `BPF_SYSCALL_MAX_32/64` and `BPF_SCRATCH_SIZE`. They come from the header and are symbolic fields of `Config`.
- Interpreter.BpfExecute: execution is bounded by a step count. `None` means the bound was used up, which is not an outcome of the C program. That program simply keeps running. `RunFuelMonotone` and `NoWrapTerminates` say when the bound makes no difference.
- ActionDecoder.EndAction: the tests `action & 0xffff0000` and `action & 0x0000ffff` are modelled as division and remainder by 2^16 on unbounded integers. No bit-vector proof ties the two forms together.
- The scratch words of `sim_state` are an immutable sequence in the state, not an array. No opcode writes them, so no update in place is left uncaptured.
