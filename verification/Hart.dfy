/** The state of the hart, as a value. */
module Hart {
  import opened Memory
  import opened PageTable
  import opened Tlb
  import opened CsrFile
  import opened Bits

  datatype Exception =
    | NoException
    | InstructionAddressMisaligned
    | InstructionAccessFault
    | IllegalInstruction
    | Breakpoint
    | LoadAccessFault
    | StoreAccessFault
    | ECallUMode
    | ECallSMode
    | ECallMMode
    | InstructionPageFault
    | LoadPageFault
    | StorePageFault

  function ExceptionCode(e: Exception): BitIndex
  {
    match e
    case NoException => 63
    case InstructionAddressMisaligned => 0
    case InstructionAccessFault => 1
    case IllegalInstruction => 2
    case Breakpoint => 3
    case LoadAccessFault => 5
    case StoreAccessFault => 7
    case ECallUMode => 8
    case ECallSMode => 9
    case ECallMMode => 11
    case InstructionPageFault => 12
    case LoadPageFault => 13
    case StorePageFault => 15
  }

  const REGS := 32

  type IntRegs = r: seq<bv64> | |r| == REGS witness seq(REGS, _ => 0)

  type Cache = t: seq<Entry> | |t| == TLB_ENTRIES witness FLUSHED

  /** `cached` tells whether the emulator was built with the translation cache. */
  datatype State = State(
    regs: IntRegs, pc: bv64, mode: Priv, csr: Regs, cached: bool, tlb: Cache, root: Root, mem: Mem,
    exc: Exception, excData: bv64, sleep: bool, reservations: set<bv64>)

  function Raise(s: State, e: Exception, data: bv64): State
  {
    s.(exc := e, excData := data)
  }
}
