/**
 * The instruction-counting rule of the program loader, as a function of the
 * length in bytes of the program file.  Each `read` is taken to return
 * min(remaining bytes, record size), as it does on a regular file; a read
 * that returns a full record is counted, a shorter one is not.
 */
module Loader {
  import opened BpfTypes

  /** sizeof(struct bpf_instr) for the classic layout: 2 + 1 + 1 + 4 bytes. */
  const InstrSize: nat := 8

  /** BPF_PRG_MAX_LEN, the capacity of the instruction buffer. */
  const PrgMaxLen: nat := 4096

  datatype LoadResult = Loaded(count: nat) | Failed(fault: Outcome)

  /** Reference definition: the number of whole records, or E2BIG once that number reaches the capacity. */
  function LoadCount(len: nat): (r: LoadResult) {
    if len / InstrSize >= PrgMaxLen then Failed(Fault(E2BIG)) else Loaded(len / InstrSize)
  }

  /** The do-while load loop of the simulator, counting instead of storing records. */
  method CountRecords(len: nat) returns (r: LoadResult)
    ensures r == LoadCount(len)
  {
    var count: nat := 0;
    var remaining := len;
    var readLen: nat := 0;
    var more := true;
    while more
      invariant count < PrgMaxLen && count <= len / InstrSize
      invariant remaining == len - count * InstrSize || (remaining == 0 && count == len / InstrSize)
      invariant !more ==> remaining == 0 && count == len / InstrSize
      decreases remaining + (if more then 1 else 0)
    {
      readLen := if remaining < InstrSize then remaining else InstrSize;
      remaining := remaining - readLen;
      if readLen == InstrSize {
        count := count + 1;
      }
      if count == PrgMaxLen {
        return Failed(Fault(E2BIG));
      }
      more := readLen > 0;
    }
    return Loaded(count);
  }

  /** A loaded program always has fewer than 4096 instructions, and the count covers the whole records of the file. */
  lemma LoadedBounds(len: nat)
    ensures LoadCount(len).Loaded? ==>
              LoadCount(len).count < PrgMaxLen &&
              LoadCount(len).count * InstrSize <= len < (LoadCount(len).count + 1) * InstrSize
  {
  }

  /** A trailing partial record is neither counted nor an error. */
  lemma PartialRecordDropped(records: nat, extra: nat)
    requires extra < InstrSize
    ensures LoadCount(records * InstrSize + extra) == LoadCount(records * InstrSize)
  {
  }

  /** Loading faults with E2BIG exactly when the file holds 4096 or more whole records. */
  lemma FaultAtCap(len: nat)
    ensures LoadCount(len) == Failed(Fault(E2BIG)) <==> len >= PrgMaxLen * InstrSize
  {
  }

  /** 4095 records load; a 4096th already faults. */
  lemma CapExamples()
    ensures LoadCount(4095 * InstrSize) == Loaded(4095)
    ensures LoadCount(4095 * InstrSize + 7) == Loaded(4095)
    ensures LoadCount(4096 * InstrSize) == Failed(Fault(E2BIG))
  {
  }
}
