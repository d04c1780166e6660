/**
 Breakpoint and tracepoint events of the debugger shell, and the conditions under which
 their instrumentation finds them true.
 */
module ShellEvents {
  import opened Options

  datatype Trigger =
    | At(pc: nat)
    | StoreTo(ea: nat)
    | StoreValueTo(ea: nat, value: nat)
    | LoadFrom(ea: nat)
    | LoadValueFrom(ea: nat, value: nat)
    | AtIcount(count: nat, tid: nat)
    | AtMcount(count: nat, tid: nat)
    | JumpTo(pc: nat)
    | RegIs(pc: nat, reg: nat, value: nat)

  datatype Kind = Breakpoint | Tracepoint

  /** An event; the register, the deletion mark and the switch belong to tracepoints. */
  datatype Event = Event(kind: Kind, trigger: Trigger, triggerMsg: string, reg: Option<nat>, deleted: bool, enabled: bool)

  /** Events by number; numbers below the bound are looked at in ascending order. */
  type Events = map<nat, Event>

  /** What is fixed about an instruction; a size of 0 means that it does not access memory that way. */
  datatype Ins = Ins(pc: nat, readSize: nat, writeSize: nat, branchOrCall: bool, fallThrough: bool, prefetch: bool, realRep: bool)

  /** How control leaves an instruction: past its end, through its branch, or neither. */
  datatype Exit = FallsThrough | TakesBranch | Leaves

  /** One execution of an instruction: the addresses, values and registers that its checks can see. */
  datatype Instance = Instance(ins: Ins, readEa: nat, readValue: nat, writeEa: nat, written: nat,
                               target: nat, regs: nat -> nat, regsAfter: nat -> nat, executing: bool, exit: Exit)

  /** Settings of the client. */
  datatype Config = Config(countInstructions: bool, countPrefetch: bool, countZeroRep: bool)

  /** A value is compared only where it fits the size of the access. */
  predicate Fits(value: nat, size: nat) {
    (size == 1 && value < 0x100) || (size == 2 && value < 0x1_0000)
    || (size == 4 && value < 0x1_0000_0000) || (size == 8 && value < 0x1_0000_0000_0000_0000)
  }

  predicate AccessesMemory(ins: Ins) {
    ins.readSize > 0 || ins.writeSize > 0
  }

  /** A repeated access that may access nothing. */
  predicate MayAccessNothing(c: Config, ins: Ins) {
    ins.realRep && !c.countZeroRep
  }

  /** The condition checked before the instruction, for a thread that has counted so far. */
  predicate HoldsBefore(c: Config, t: Trigger, x: Instance, tid: nat, icount: nat, mcount: nat) {
    match t
    case At(pc) => x.ins.pc == pc
    case StoreTo(ea) => x.ins.writeSize > 0 && x.writeEa == ea
    case LoadFrom(ea) => x.ins.readSize > 0 && x.readEa == ea
    case LoadValueFrom(ea, value) => Fits(value, x.ins.readSize) && x.readEa == ea && x.readValue == value
    case AtIcount(n, t) => icount == n && tid == t
    case AtMcount(n, t) =>
      AccessesMemory(x.ins) && (MayAccessNothing(c, x.ins) ==> x.executing) && mcount == n && tid == t
    case JumpTo(pc) => x.ins.branchOrCall && x.target == pc
    case RegIs(pc, reg, value) => x.ins.pc == pc && x.regs(reg) == value
    case StoreValueTo(_, _) => false
  }

  /** Control leaves in an instrumented way: behind an instruction that falls through, or at a taken branch. */
  predicate LeavesInstrumented(x: Instance) {
    (x.exit.FallsThrough? && x.ins.fallThrough) || (x.exit.TakesBranch? && x.ins.branchOrCall)
  }

  /** The condition checked after the instruction. */
  predicate HoldsAfter(t: Trigger, x: Instance) {
    t.StoreValueTo? && LeavesInstrumented(x) && Fits(t.value, x.ins.writeSize) && x.writeEa == t.ea && x.written == t.value
  }

  predicate IsCount(t: Trigger) {
    t.AtIcount? || t.AtMcount?
  }

  /** Counts are for breakpoints only, and a breakpoint is never on a bare address. */
  predicate IsStopper(e: Event) {
    e.kind == Breakpoint && !e.trigger.At?
  }

  predicate IsTracer(e: Event) {
    e.kind == Tracepoint && !e.deleted && e.enabled && !IsCount(e.trigger)
  }

  /** Whether a breakpoint makes the instruction clear the skip register behind it. */
  predicate MayStop(e: Event, ins: Ins) {
    IsStopper(e) && match e.trigger
      case AtIcount(_, _) => true
      case AtMcount(_, _) => AccessesMemory(ins)
      case LoadFrom(_) => ins.readSize > 0
      case LoadValueFrom(_, _) => ins.readSize > 0
      case StoreTo(_) => ins.writeSize > 0
      case JumpTo(_) => ins.branchOrCall
      case RegIs(pc, _, _) => ins.pc == pc
      case At(_) => false
      case StoreValueTo(_, _) => false
  }
}
