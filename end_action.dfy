/**
 * The action decoder: the value of a `RET|K` instruction is turned into one
 * of the four decisions, or into an EDOM program error at that instruction.
 */
module ActionDecoder {
  import opened BpfTypes

  const ActKill: u32 := 0x0000_0000
  const ActTrap: u32 := 0x0002_0000
  const ActErrnoHigh: int := 0x0003
  const ActAllow: u32 := 0x7fff_0000

  /** The upper 16 bits of a word, i.e. `(w & 0xffff0000) >> 16`. */
  function HighHalf(w: u32): (h: u16) { w / Two16 }

  /** The lower 16 bits of a word, i.e. `w & 0x0000ffff`. */
  function LowHalf(w: u32): (l: u16) { w % Two16 }

  /** The decoding of `action`, reported against instruction `line`. */
  function EndAction(action: u32, line: u32): (r: Outcome)
    ensures r.Action? || r == Error(EDOM, line)
    ensures r.Action? && r.d.Errno? ==> HighHalf(action) == ActErrnoHigh && r.d.n == LowHalf(action)
  {
    if action == ActKill then Action(Kill)
    else if action == ActTrap then Action(Trap)
    else if HighHalf(action) == ActErrnoHigh then Action(Errno(LowHalf(action)))
    else if action == ActAllow then Action(Allow)
    else Error(EDOM, line)
  }

  /** The value a filter returns for each decision: the inverse of the decoder. */
  function ActionValue(d: Decision): (w: u32)
  {
    match d
    case Kill => ActKill
    case Trap => ActTrap
    case Errno(n) => ActErrnoHigh * Two16 + n
    case Allow => ActAllow
  }

  /** Decoding the value of a decision gives back that decision, whatever the line. */
  lemma DecodeEncode(d: Decision, line: u32)
    ensures EndAction(ActionValue(d), line) == Action(d)
  {
    if d.Errno? {
      var w := ActionValue(d);
      assert HighHalf(w) == ActErrnoHigh && LowHalf(w) == d.n;
    }
  }

  /** A decision comes out of the decoder exactly for that decision's value. */
  lemma DecodeExact(action: u32, line: u32, d: Decision)
    ensures EndAction(action, line) == Action(d) <==> action == ActionValue(d)
  {
    if action == ActionValue(d) {
      DecodeEncode(d, line);
    }
    if EndAction(action, line) == Action(d) && d.Errno? {
      assert action == HighHalf(action) * Two16 + LowHalf(action);
    }
  }

  /** Values outside the four patterns are an EDOM error at the given line, never a decision. */
  lemma DecodeError(action: u32, line: u32)
    ensures EndAction(action, line) == Error(EDOM, line) <==>
            (action != ActKill && action != ActTrap && action != ActAllow && HighHalf(action) != ActErrnoHigh)
  {
  }

  /** The four cases are disjoint: distinct decisions have distinct values. */
  lemma ActionValueInjective(d1: Decision, d2: Decision)
    ensures ActionValue(d1) == ActionValue(d2) ==> d1 == d2
  {
    if ActionValue(d1) == ActionValue(d2) {
      DecodeEncode(d1, 0);
      DecodeEncode(d2, 0);
    }
  }

  /** The constants of the filter language decode as documented. */
  lemma DecodeConstants(line: u32)
    ensures EndAction(0x0000_0000, line) == Action(Kill)
    ensures EndAction(0x0002_0000, line) == Action(Trap)
    ensures EndAction(0x7fff_0000, line) == Action(Allow)
    ensures EndAction(0x0003_0001, line) == Action(Errno(1))
    ensures EndAction(0x0003_ffff, line) == Action(Errno(0xffff))
    ensures EndAction(0x0001_0000, line) == Error(EDOM, line)
    ensures EndAction(0x7fff_0001, line) == Error(EDOM, line)
  {
  }
}
