/**
 Block calls as a state machine: registers, the call stack, and what a call and the exit of
 a block do to them. Instructions other than calls, jumps and register changes do not
 affect this state; a run may execute any instructions in any order.
 */
module CallMachine {
  import opened Bytes
  import opened Offset
  import opened Options
  import opened LStack

  datatype Regs = Regs(db: int, di: int, ar2: nat)

  /** A code block: how many instructions it has, whether it is an FB, and its own L-stack bytes. */
  datatype Block = Block(nrInsns: nat, isFB: bool, tempAllocation: nat)

  /**
   A call stack element: where the block is, the registers saved at its call, and the widths of
   the scratch space it has allocated in its L-stack since then.
   */
  datatype Frame = Frame(block: Block, ip: nat, isRawCall: bool, instanceDb: Option<int>,
                         prevDb: int, prevDi: int, prevAr2: nat, requests: seq<nat>)

  datatype State = State(regs: Regs, stack: seq<Frame>)

  /**
   How a block is called: an FC, an FB with an instance DB, an FB that is a multi-instance of
   the calling FB at an offset, or unconditionally without parameters (UC/CC).
   */
  datatype Callee = CallFC | CallFB(db: int) | CallMulti(offset: Offset) | RawFC | RawFB

  /** The DBs and blocks that exist, and the size of an L-stack. */
  datatype Config = Config(dbs: set<int>, blocks: set<Block>, nrLocalbytes: nat)

  /**
   `openedDb` is the DB that evaluating the parameters of a call has opened, if any; `requests`
   are the widths of the parameters that are copied to the caller's L-stack.
   */
  datatype Insn =
    | Call(callee: Callee, block: Block, openedDb: Option<int>, requests: seq<nat>)
    | BlockEnd
    | OpenDb(db: int, asDi: bool)
    | SwapDbs
    | SetAr2(value: nat)
    | Jump(target: nat)
    | OtherInsn

  const AREA_DB: nat := 0x8400_0000

  /** The instance base that a call puts into AR2, if it sets one. */
  function InstanceBase(r: Regs, callee: Callee): Option<Offset> {
    match callee
    case CallFB(_) => Some(ZERO)
    case CallMulti(o) => Some(Add(FromPointer(r.ar2), o))
    case _ => None
  }

  function InstanceDb(r: Regs, callee: Callee): Option<int> {
    match callee
    case CallFC | RawFC => None
    case CallFB(db) => Some(db)
    case CallMulti(_) | RawFB => Some(r.di)
  }

  predicate IsRaw(callee: Callee) {
    callee.RawFC? || callee.RawFB?
  }

  /** The new call stack element. */
  function NewFrame(r: Regs, callee: Callee, block: Block): Frame {
    Frame(block, 0, IsRaw(callee), InstanceDb(r, callee), r.db, r.di, r.ar2, [])
  }

  /** The registers the called block starts with. */
  function RegsAtEntry(r: Regs, callee: Callee, openedDb: Option<int>): Regs {
    var db := if openedDb.Some? then openedDb.value else r.db;
    var base := InstanceBase(r, callee);
    var ar2 := if base.Some? then AREA_DB + PointerBits(base.value) else r.ar2;
    match callee
    case CallFB(idb) => Regs(r.di, idb, ar2)
    case CallMulti(_) => Regs(r.di, r.di, ar2)
    case _ => Regs(db, r.di, ar2)
  }

  /** The registers after the exit of a block. */
  function RegsAtExit(r: Regs, f: Frame): Regs {
    if f.isRawCall then r
    else if f.block.isFB then Regs(if f.instanceDb.Some? then f.instanceDb.value else r.db, f.prevDi, f.prevAr2)
    else Regs(f.prevDb, f.prevDi, f.prevAr2)
  }

  // ----- the L-stack of a block

  /** The L-stack of a block that starts: only the block's own bytes are taken. */
  function FreshStack(cfg: Config, block: Block): AllocState {
    AllocState(cfg.nrLocalbytes, block.tempAllocation, 0)
  }

  /** The L-stack of a block after its scratch allocations. */
  function StackOf(cfg: Config, f: Frame): Option<AllocState> {
    Advanced(FreshStack(cfg, f.block), f.requests)
  }

  function Requesting(f: Frame, requests: seq<nat>): Frame {
    f.(requests := f.requests + requests)
  }

  // ----- the base of an instance

  /** The called FB finds the base of its instance in AR2. */
  lemma BaseIsInAr2(r: Regs, callee: Callee, openedDb: Option<int>)
    requires InstanceBase(r, callee).Some? && InstanceBase(r, callee).value.byteOffset < 0x1_0000
    ensures FromPointer(RegsAtEntry(r, callee, openedDb).ar2) == InstanceBase(r, callee).value
  {
    hide *;
    var base := InstanceBase(r, callee).value;
    BaseIsNormal(r, callee);
    BaseAtEntry(r, callee, openedDb);
    AreaLeavesOffset(PointerBits(base));
    PointerRoundTrip(base);
  }

  lemma BaseIsNormal(r: Regs, callee: Callee)
    requires InstanceBase(r, callee).Some?
    ensures Normal(InstanceBase(r, callee).value)
  {
    hide FromPointer;
    if callee.CallMulti? {
      AddCountsBits(FromPointer(r.ar2), callee.offset);
    }
  }

  lemma BaseAtEntry(r: Regs, callee: Callee, openedDb: Option<int>)
    requires InstanceBase(r, callee).Some?
    ensures RegsAtEntry(r, callee, openedDb).ar2 == AREA_DB + PointerBits(InstanceBase(r, callee).value)
  {
    hide FromPointer, PointerBits, InstanceBase;
  }

  lemma AreaLeavesOffset(bits: nat)
    ensures FromPointer(AREA_DB + bits) == FromPointer(bits)
  {
    var q, r := bits / 0x8_0000, bits % 0x8_0000;
    DivModUnique(AREA_DB + bits, 0x8_0000, 0x1080 + q, r);
    DivModUnique(AREA_DB + bits, 8, 0x1080_0000 + bits / 8, bits % 8);
  }

  // ----- steps

  /** A call names a block of its own kind, raw calls pass no parameters, and only calls of FCs copy some. */
  predicate WellFormedCall(insn: Insn)
    requires insn.Call?
  {
    && (insn.block.isFB <==> !insn.callee.CallFC? && !insn.callee.RawFC?)
    && (insn.openedDb.Some? ==> !IsRaw(insn.callee))
    && (insn.requests != [] ==> insn.callee.CallFC?)
  }

  /** The block and the instance DB of a call. */
  predicate TargetExists(cfg: Config, insn: Insn)
    requires insn.Call?
  {
    insn.block in cfg.blocks && (insn.callee.CallFB? ==> insn.callee.db in cfg.dbs)
  }

  predicate CallAllowed(cfg: Config, insn: Insn)
    requires insn.Call?
  {
    && WellFormedCall(insn) && TargetExists(cfg, insn)
    && (insn.openedDb.Some? ==> insn.openedDb.value in cfg.dbs)
  }

  /** The scratch space of the parameters fits into the L-stack of the executing block. */
  predicate ScratchFits(cfg: Config, s: State, insn: Insn)
    requires insn.Call? && s.stack != []
  {
    StackOf(cfg, Requesting(s.stack[|s.stack| - 1], insn.requests)).Some?
  }

  predicate Enabled(cfg: Config, s: State, insn: Insn) {
    && s.stack != [] && s.stack[|s.stack| - 1].ip < s.stack[|s.stack| - 1].block.nrInsns
    && match insn
       case Call(_, _, _, _) => CallAllowed(cfg, insn) && ScratchFits(cfg, s, insn)
       case OpenDb(db, _) => db in cfg.dbs
       case Jump(target) => target < s.stack[|s.stack| - 1].block.nrInsns
       case _ => true
  }

  /** The element of the executing block after an instruction. */
  function Moved(f: Frame, insn: Insn): Frame {
    match insn
    case Call(_, _, _, requests) => Requesting(f, requests).(ip := f.ip + 1)
    case BlockEnd => f.(ip := f.block.nrInsns)
    case Jump(target) => f.(ip := target)
    case _ => f.(ip := f.ip + 1)
  }

  /** Execute one instruction of the topmost block. */
  function Execute(s: State, insn: Insn): State
    requires s.stack != []
  {
    var top := |s.stack| - 1;
    var moved := s.stack[top := Moved(s.stack[top], insn)];
    match insn
    case Call(callee, block, openedDb, _) =>
      State(RegsAtEntry(s.regs, callee, openedDb), moved + [NewFrame(s.regs, callee, block)])
    case OpenDb(db, asDi) => State(if asDi then s.regs.(di := db) else s.regs.(db := db), moved)
    case SwapDbs => State(s.regs.(db := s.regs.di, di := s.regs.db), moved)
    case SetAr2(v) => State(s.regs.(ar2 := v), moved)
    case _ => s.(stack := moved)
  }

  /** What each instruction does to the place and the scratch space of its block, and to the registers. */
  lemma ExecuteMoves(cfg: Config, s: State, insn: Insn)
    requires Enabled(cfg, s, insn)
    ensures var top, s' := |s.stack| - 1, Execute(s, insn);
            var f, g := s.stack[top], s'.stack[top];
            && |s'.stack| == (if insn.Call? then top + 2 else top + 1) && s'.stack[..top] == s.stack[..top]
            && g == f.(ip := g.ip, requests := g.requests)
            && g.requests == (if insn.Call? then f.requests + insn.requests else f.requests)
            && g.ip == (match insn
                        case BlockEnd => f.block.nrInsns
                        case Jump(target) => target
                        case _ => f.ip + 1)
            && (match insn
                case Call(_, _, _, _) => true
                case OpenDb(db, asDi) =>
                  s'.regs == if asDi then Regs(s.regs.db, db, s.regs.ar2) else Regs(db, s.regs.di, s.regs.ar2)
                case SwapDbs => s'.regs == Regs(s.regs.di, s.regs.db, s.regs.ar2)
                case SetAr2(v) => s'.regs == Regs(s.regs.db, s.regs.di, v)
                case _ => s'.regs == s.regs)
  {
    hide RegsAtEntry, NewFrame, StackOf, WellFormedCall, TargetExists;
  }

  /**
   The registers and the element that each kind of call starts with: an FB has the caller's DI as
   DB and the DB of its instance as DI, and the place of the instance in AR2.
   */
  lemma EntryByCallee(r: Regs, callee: Callee, block: Block, openedDb: Option<int>)
    ensures var e, f := RegsAtEntry(r, callee, openedDb), NewFrame(r, callee, block);
            && f.block == block && f.ip == 0 && f.requests == []
            && f.prevDb == r.db && f.prevDi == r.di && f.prevAr2 == r.ar2
            && (match callee
                case CallFC | RawFC =>
                  e == Regs(if openedDb.Some? then openedDb.value else r.db, r.di, r.ar2) && f.instanceDb == None
                case RawFB =>
                  e == Regs(if openedDb.Some? then openedDb.value else r.db, r.di, r.ar2) && f.instanceDb == Some(r.di)
                case CallFB(db) => e.db == r.di && e.di == db && e.ar2 == 0x8400_0000 && f.instanceDb == Some(db)
                case CallMulti(o) => e.db == r.di && e.di == r.di && f.instanceDb == Some(r.di))
            && (f.isRawCall <==> callee.RawFC? || callee.RawFB?)
  {
    hide FromPointer, PointerBits, Add;
    PointerOfZero();
  }

  lemma PointerOfZero()
    ensures PointerBits(ZERO) == 0
  {
  }

  /** The base of a multi-instance counts the bits of the caller's base and of its own offset. */
  lemma MultiInstanceBase(r: Regs, o: Offset, openedDb: Option<int>)
    requires InstanceBase(r, CallMulti(o)).value.byteOffset < 0x1_0000
    ensures var base := FromPointer(RegsAtEntry(r, CallMulti(o), openedDb).ar2);
            ToBitOffset(base) == ToBitOffset(FromPointer(r.ar2)) + ToBitOffset(o)
  {
    BaseIsInAr2(r, CallMulti(o), openedDb);
    AddCountsBits(FromPointer(r.ar2), o);
    hide FromPointer, PointerBits, RegsAtEntry, Add, ToBitOffset;
  }

  predicate AtBlockEnd(s: State) {
    s.stack != [] && s.stack[|s.stack| - 1].ip >= s.stack[|s.stack| - 1].block.nrInsns
  }

  /** Leave the topmost block. */
  function ExitBlock(s: State): State
    requires s.stack != []
  {
    var top := |s.stack| - 1;
    State(RegsAtExit(s.regs, s.stack[top]), s.stack[..top])
  }

  ghost predicate Step(cfg: Config, s: State, s': State) {
    || (exists insn :: Enabled(cfg, s, insn) && s' == Execute(s, insn))
    || (AtBlockEnd(s) && s' == ExitBlock(s))
  }

  ghost predicate IsRun(cfg: Config, trace: seq<State>) {
    forall k :: 0 <= k < |trace| - 1 ==> Step(cfg, trace[k], trace[k + 1])
  }

  // ----- calls over whole runs

  /** The element `f` of a live block later in its life is `g`: it may have moved, and allocated more. */
  predicate SameCall(f: Frame, g: Frame) {
    g == f.(ip := g.ip, requests := g.requests) && f.requests <= g.requests
  }

  /** A step of a block above depth `d` leaves the elements below it alone. */
  lemma StepKeepsLower(cfg: Config, s: State, s': State, d: nat)
    requires Step(cfg, s, s') && d < |s.stack| && d < |s'.stack|
    ensures s'.stack[..d] == s.stack[..d] && SameCall(s.stack[d], s'.stack[d])
    ensures d < |s.stack| - 1 ==> s'.stack[d] == s.stack[d]
  {
    hide RegsAtEntry, NewFrame, RegsAtExit, ScratchFits, CallAllowed;
  }

  /** As long as the block called at depth `d` has not exited, its caller's elements stay as they are. */
  lemma {:induction false} CallerIsFrozen(cfg: Config, trace: seq<State>, d: nat, k: nat)
    requires IsRun(cfg, trace) && k < |trace|
    requires forall i :: 0 <= i <= k ==> d < |trace[i].stack|
    ensures trace[k].stack[..d] == trace[0].stack[..d] && SameCall(trace[0].stack[d], trace[k].stack[d])
    decreases k
  {
    if k > 0 {
      CallerIsFrozen(cfg, trace, d, k - 1);
      assert Step(cfg, trace[k - 1], trace[k]);
      hide Step;
      StepKeepsLower(cfg, trace[k - 1], trace[k], d);
    }
  }

  /** Depth changes by at most one per step, and falls only at the exit of a block. */
  lemma StepChangesDepthByOne(cfg: Config, s: State, s': State)
    requires Step(cfg, s, s')
    ensures |s.stack| - 1 <= |s'.stack| <= |s.stack| + 1
    ensures |s'.stack| < |s.stack| ==> s.stack != [] && s' == ExitBlock(s)
  {
    hide RegsAtEntry, NewFrame, RegsAtExit, ScratchFits, CallAllowed;
  }

  /** `trace` begins with `call` and ends with the state in which the called block has just exited. */
  ghost predicate CallAndReturn(cfg: Config, trace: seq<State>, call: Insn) {
    && call.Call? && |trace| >= 3 && IsRun(cfg, trace)
    && Enabled(cfg, trace[0], call) && trace[1] == Execute(trace[0], call)
    && (forall k :: 1 <= k < |trace| - 1 ==> |trace[k].stack| > |trace[0].stack|)
    && |trace[|trace| - 1].stack| == |trace[0].stack|
  }

  /** The state in which the called block exits has its element on top, above the caller as the call left it. */
  lemma CalleeExits(cfg: Config, trace: seq<State>, call: Insn)
    requires CallAndReturn(cfg, trace, call)
    ensures var before, last, d := trace[0], trace[|trace| - 2], |trace[0].stack|;
            && last.stack != [] && trace[|trace| - 1] == ExitBlock(last)
            && last.stack[..|last.stack| - 1] == before.stack[d - 1 := Moved(before.stack[d - 1], call)]
            && SameCall(NewFrame(before.regs, call.callee, call.block), last.stack[|last.stack| - 1])
  {
    var d, last := |trace[0].stack|, |trace| - 2;
    var inside := trace[1..last + 1];
    assert Step(cfg, trace[last], trace[last + 1]);
    CallPushes(trace[0], call);
    hide Step, Execute, ExitBlock, Moved, NewFrame, SameCall, Enabled;
    InsideIsRun(cfg, trace, 1, last + 1);
    CallerIsFrozen(cfg, inside, d, |inside| - 1);
    assert inside[|inside| - 1] == trace[last] && inside[0] == trace[1];
    StepChangesDepthByOne(cfg, trace[last], trace[last + 1]);
  }

  lemma CallPushes(s: State, call: Insn)
    requires s.stack != [] && call.Call?
    ensures var s', d := Execute(s, call), |s.stack|;
            && |s'.stack| == d + 1 && s'.stack[..d] == s.stack[d - 1 := Moved(s.stack[d - 1], call)]
            && s'.stack[d] == NewFrame(s.regs, call.callee, call.block)
  {
    hide Moved, NewFrame, RegsAtEntry;
  }

  /**
   Whatever the called block does, and whatever it calls, a call that is not raw comes back to
   the instruction behind it with AR2 and DI as they were. DB is as it was after an FC, and the
   instance DB after an FB. The caller's L-stack has the scratch space of the call, and no other.
   */
  lemma CallRestoresRegisters(cfg: Config, trace: seq<State>, call: Insn)
    requires CallAndReturn(cfg, trace, call) && !IsRaw(call.callee)
    ensures var before, after, top := trace[0], trace[|trace| - 1], |trace[0].stack| - 1;
            var caller := before.stack[top];
            && after.stack == before.stack[top := caller.(ip := caller.ip + 1,
                                                          requests := caller.requests + call.requests)]
            && after.regs.ar2 == before.regs.ar2 && after.regs.di == before.regs.di
            && after.regs.db == match call.callee
                                case CallFC => before.regs.db
                                case CallFB(db) => db
                                case _ => before.regs.di
  {
    CalleeExits(cfg, trace, call);
    hide IsRun;
  }

  /** A raw call keeps the caller's place, and hands the registers on as the called block leaves them. */
  lemma RawCallKeepsRegisters(cfg: Config, trace: seq<State>, call: Insn)
    requires CallAndReturn(cfg, trace, call) && IsRaw(call.callee)
    ensures var before, after, top := trace[0], trace[|trace| - 1], |trace[0].stack| - 1;
            && after.stack == before.stack[top := before.stack[top].(ip := before.stack[top].ip + 1)]
            && after.regs == trace[|trace| - 2].regs && trace[1].regs == before.regs
  {
    CalleeExits(cfg, trace, call);
    assert trace[0].stack[|trace[0].stack| - 1].requests + [] == trace[0].stack[|trace[0].stack| - 1].requests;
    hide IsRun;
  }

  lemma InsideIsRun(cfg: Config, trace: seq<State>, from: nat, to: nat)
    requires IsRun(cfg, trace) && from <= to <= |trace|
    ensures IsRun(cfg, trace[from..to])
  {
    var t := trace[from..to];
    hide Step;
    forall k | 0 <= k < |t| - 1
      ensures Step(cfg, t[k], t[k + 1])
    {
      assert Step(cfg, trace[from + k], trace[from + k + 1]);
    }
  }

  // ----- scratch space over whole runs

  /** All scratch space that the live blocks have requested was granted. */
  ghost predicate Granted(cfg: Config, s: State) {
    forall d :: 0 <= d < |s.stack| ==> StackOf(cfg, s.stack[d]).Some?
  }

  lemma StepKeepsGranted(cfg: Config, s: State, s': State)
    requires Step(cfg, s, s') && Granted(cfg, s)
    ensures Granted(cfg, s')
  {
    hide RegsAtEntry, RegsAtExit, Advanced, InstanceDb;
    if AtBlockEnd(s) && s' == ExitBlock(s) {
    } else {
      var insn :| Enabled(cfg, s, insn) && s' == Execute(s, insn);
      var top := |s.stack| - 1;
      assert StackOf(cfg, Moved(s.stack[top], insn)).Some?;
      if insn.Call? {
        NothingRequested(FreshStack(cfg, insn.block));
      }
    }
  }

  lemma NothingRequested(st: AllocState)
    ensures Advanced(st, []) == Some(st)
  {
  }

  lemma {:induction false} RunKeepsGranted(cfg: Config, trace: seq<State>, k: nat)
    requires IsRun(cfg, trace) && k < |trace| && Granted(cfg, trace[0])
    ensures Granted(cfg, trace[k])
  {
    hide Granted, Step;
    if k > 0 {
      RunKeepsGranted(cfg, trace, k - 1);
      assert Step(cfg, trace[k - 1], trace[k]);
      StepKeepsGranted(cfg, trace[k - 1], trace[k]);
    }
  }

  /** The scratch regions of a live block. */
  function ScratchOf(cfg: Config, f: Frame): seq<Region> {
    Regions(FreshStack(cfg, f.block), f.requests)
  }

  /**
   In every state of every run, the scratch regions of each live block are pairwise disjoint,
   inside the L-stack, and above every access the block makes to its own variables.
   */
  lemma ScratchIsSafe(cfg: Config, trace: seq<State>, k: nat, d: nat)
    requires IsRun(cfg, trace) && k < |trace| && d < |trace[k].stack| && Granted(cfg, trace[0])
    ensures var f := trace[k].stack[d];
            var rs := ScratchOf(cfg, f);
            && |rs| == |f.requests| && (forall i :: 0 <= i < |rs| ==> rs[i].width == f.requests[i])
            && Separate(rs) && Within(rs, 8 * f.block.tempAllocation, cfg.nrLocalbytes)
            && forall op: Operand, i :: op.LAccess? && DirectEnd(op) <= f.block.tempAllocation && 0 <= i < |rs| ==>
                 ToBitOffset(op.offset) + op.width <= RegionLo(rs[i])
  {
    var f := trace[k].stack[d];
    hide Step, Advanced, Regions, Separate, DirectEnd, RegionLo, RegionHi, ToBitOffset;
    RunKeepsGranted(cfg, trace, k);
    GrantedRegions(FreshStack(cfg, f.block), f.requests, []);
    RegionsAreSeparate(FreshStack(cfg, f.block), f.requests);
    forall op: Operand, i | op.LAccess? && DirectEnd(op) <= f.block.tempAllocation && 0 <= i < |ScratchOf(cfg, f)|
      ensures ToBitOffset(op.offset) + op.width <= RegionLo(ScratchOf(cfg, f)[i])
    {
      DirectEndCovers(op.offset, op.width);
    }
  }

  /** A block keeps its scratch regions as long as it lives, and all blocks below it keep theirs. */
  lemma ScratchStays(cfg: Config, trace: seq<State>, d: nat, k: nat)
    requires IsRun(cfg, trace) && k < |trace| && Granted(cfg, trace[0])
    requires forall i :: 0 <= i <= k ==> d < |trace[i].stack|
    ensures ScratchOf(cfg, trace[0].stack[d]) <= ScratchOf(cfg, trace[k].stack[d])
    ensures forall i :: 0 <= i < d ==> ScratchOf(cfg, trace[k].stack[i]) == ScratchOf(cfg, trace[0].stack[i])
  {
    hide Step, Advanced, Regions;
    CallerIsFrozen(cfg, trace, d, k);
    var f, g := trace[0].stack[d], trace[k].stack[d];
    assert g.requests == f.requests + g.requests[|f.requests|..];
    GrantedRegions(FreshStack(cfg, f.block), f.requests, g.requests[|f.requests|..]);
    forall i | 0 <= i < d
      ensures trace[k].stack[i] == trace[0].stack[i]
    {
      assert trace[k].stack[i] == trace[k].stack[..d][i] == trace[0].stack[..d][i];
    }
  }

  // ----- what registers and elements name, over whole runs

  /** A call is enabled exactly if its block and all DBs it names exist, and its caller has room for the parameters. */
  lemma CallIsEnabled(cfg: Config, s: State, call: Insn)
    requires call.Call? && WellFormedCall(call) && s.stack != []
    ensures var f := s.stack[|s.stack| - 1];
            Enabled(cfg, s, call)
            <==> && f.ip < f.block.nrInsns && call.block in cfg.blocks
                 && (call.callee.CallFB? ==> call.callee.db in cfg.dbs)
                 && (call.openedDb.Some? ==> call.openedDb.value in cfg.dbs)
                 && Advanced(AllocState(cfg.nrLocalbytes, f.block.tempAllocation, 0), f.requests + call.requests).Some?
  {
    hide Advanced;
  }

  predicate SavedExist(cfg: Config, f: Frame) {
    f.prevDb in cfg.dbs && f.prevDi in cfg.dbs && (f.instanceDb.Some? ==> f.instanceDb.value in cfg.dbs)
  }

  /** The registers, and those that are saved for later, name DBs that exist, and all called blocks exist. */
  ghost predicate AllExist(cfg: Config, s: State) {
    && s.regs.db in cfg.dbs && s.regs.di in cfg.dbs
    && forall d :: 0 <= d < |s.stack| ==> SavedExist(cfg, s.stack[d]) && (d > 0 ==> s.stack[d].block in cfg.blocks)
  }

  lemma StepKeepsExisting(cfg: Config, s: State, s': State)
    requires AllExist(cfg, s) && Step(cfg, s, s')
    ensures AllExist(cfg, s')
  {
    hide StackOf, FromPointer, PointerBits, Add;
    if AtBlockEnd(s) && s' == ExitBlock(s) {
      assert SavedExist(cfg, s.stack[|s.stack| - 1]);
    } else {
      var insn :| Enabled(cfg, s, insn) && s' == Execute(s, insn);
      InsnKeepsExisting(cfg, s, insn);
    }
  }

  lemma InsnKeepsExisting(cfg: Config, s: State, insn: Insn)
    requires AllExist(cfg, s) && Enabled(cfg, s, insn)
    ensures AllExist(cfg, Execute(s, insn))
  {
    hide StackOf, InstanceBase, PointerBits;
    var t, top := Execute(s, insn), |s.stack| - 1;
    assert SavedExist(cfg, s.stack[top]);
    forall d | 0 <= d < |t.stack|
      ensures SavedExist(cfg, t.stack[d]) && (d > 0 ==> t.stack[d].block in cfg.blocks)
    {
      if d <= top {
        assert SavedExist(cfg, s.stack[d]) && (d > 0 ==> s.stack[d].block in cfg.blocks);
      }
    }
  }

  /** No state of any run names a DB or a called block that does not exist. */
  lemma {:induction false} RunKeepsExisting(cfg: Config, trace: seq<State>, k: nat)
    requires IsRun(cfg, trace) && k < |trace| && AllExist(cfg, trace[0])
    ensures AllExist(cfg, trace[k])
    decreases k
  {
    hide Step, AllExist;
    if k > 0 {
      RunKeepsExisting(cfg, trace, k - 1);
      StepKeepsExisting(cfg, trace[k - 1], trace[k]);
    }
  }
}
