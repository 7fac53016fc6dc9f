/**
 The CPU's call handling (`S7CPU`, `CallStackElem`): registers and call stack updated in
 place, and one L-stack per live block, taken from a pool.
 */
module Cpu {
  import opened Offset
  import opened Options
  import opened LStack
  import opened CallMachine

  /** No two L-stacks share their memory. */
  ghost predicate DataApart(ls: set<LStackAllocator>) {
    forall l, m :: l in ls && m in ls && l != m ==> l.localdata.data != m.localdata.data
  }

  /** The L-stacks of the live blocks, and those in the pool. */
  datatype Pools = Pools(live: seq<LStackAllocator>, cached: seq<LStackAllocator>)

  ghost function AllOf(p: Pools): set<LStackAllocator> {
    (set l | l in p.live) + (set l | l in p.cached)
  }

  /** No two live blocks share an L-stack or its memory, and none of them uses one that is in the pool. */
  ghost predicate Apart(p: Pools) {
    && (forall i, j :: 0 <= i < j < |p.live| ==> p.live[i] != p.live[j])
    && (forall i, j :: 0 <= i < j < |p.cached| ==> p.cached[i] != p.cached[j])
    && (forall l :: l in p.live ==> l !in p.cached)
    && DataApart(AllOf(p))
  }

  class S7Cpu {
    const cfg: Config
    const lallocCache: ObjectCache
    var dbRegister: int
    var diRegister: int
    var ar2: nat
    var callStack: seq<Frame>
    var lstacks: seq<LStackAllocator>
    var relativeJump: int

    /** The state of the call machine. */
    function Abstract(): State
      reads this
    {
      State(Regs(dbRegister, diRegister, ar2), callStack)
    }

    ghost function Stacks(): Pools
      reads this`lstacks, lallocCache
    {
      Pools(lstacks, lallocCache.cache)
    }

    /** The L-stack of each live block is as its scratch allocations have left it. */
    ghost predicate StacksMatch()
      reads this`callStack, this`lstacks, lstacks
    {
      && |lstacks| == |callStack|
      && forall i :: 0 <= i < |lstacks| ==> lstacks[i].Valid() && StackOf(cfg, callStack[i]) == Some(lstacks[i].State())
    }

    ghost predicate Valid()
      reads this`callStack, this`lstacks, lallocCache, lstacks
    {
      StacksMatch() && lallocCache.Valid() && Apart(Stacks()) && 0 in cfg.dbs
    }

    constructor (cfg: Config)
      requires 0 in cfg.dbs
      ensures Valid() && callStack == [] && this.cfg == cfg
      ensures fresh(lallocCache)
    {
      this.cfg := cfg;
      dbRegister, diRegister, ar2, relativeJump := 0, 0, 0, 1;
      callStack, lstacks := [], [];
      lallocCache := new ObjectCache();
    }

    /** Take an L-stack for a block that is called; only the block's own bytes are taken on it. */
    method TakeStack(block: Block) returns (l: LStackAllocator)
      requires Valid()
      modifies lallocCache, lallocCache.cache
      ensures Valid() && l.Valid() && l.State() == FreshStack(cfg, block)
      ensures Apart(Pools(lstacks + [l], lallocCache.cache))
      ensures if old(lallocCache.cache) != [] then old(lallocCache.cache) == lallocCache.cache + [l]
              else lallocCache.cache == [] && fresh(l)
      ensures fresh({l} - AllOf(old(Stacks()))) && AllOf(Stacks()) <= AllOf(old(Stacks()))
      ensures l !in lstacks
    {
      l := lallocCache.Get(cfg.nrLocalbytes);
      if old(lallocCache.cache) != [] {
        TakenIsApart(old(Stacks()), Stacks(), l);
      } else {
        assert forall m :: m in AllOf(old(Stacks())) ==> m.localdata.data != l.localdata.data;
        NewIsApart(old(Stacks()), l);
        assert Stacks() == old(Stacks());
      }
      l.Reset(cfg.nrLocalbytes, block.tempAllocation);
      assert forall m :: m in lstacks ==> m != l;
    }

    method RunAuf(db: int, asDi: bool) returns (ok: bool)
      modifies this`dbRegister, this`diRegister
      ensures ok <==> db in cfg.dbs
      ensures ok ==> Abstract().regs
                     == if asDi then old(Abstract().regs).(di := db) else old(Abstract().regs).(db := db)
      ensures !ok ==> Abstract() == old(Abstract())
    {
      if db !in cfg.dbs {
        return false;
      }
      if asDi {
        diRegister := db;
      } else {
        dbRegister := db;
      }
      return true;
    }

    method RunTdb()
      modifies this`dbRegister, this`diRegister
      ensures Abstract().regs == old(Abstract().regs).(db := old(diRegister), di := old(dbRegister))
    {
      diRegister, dbRegister := dbRegister, diRegister;
    }

    method RunBe()
      requires callStack != []
      modifies this`relativeJump
      ensures relativeJump == callStack[|callStack| - 1].block.nrInsns - callStack[|callStack| - 1].ip
    {
      var cse := callStack[|callStack| - 1];
      relativeJump := cse.block.nrInsns - cse.ip;
    }

    method JumpTo(target: nat)
      requires callStack != []
      modifies this`relativeJump
      ensures relativeJump == target - callStack[|callStack| - 1].ip
    {
      relativeJump := target - callStack[|callStack| - 1].ip;
    }

    /** Allocate scratch space on the L-stack of the executing block, for one copied parameter. */
    method AllocOne(nrBits: nat) returns (ok: bool)
      requires Valid() && callStack != []
      modifies this`callStack, lstacks[|lstacks| - 1]
      ensures Valid() && |callStack| == |old(callStack)|
      ensures ok <==> StackOf(cfg, Requesting(old(callStack[|callStack| - 1]), [nrBits])).Some?
      ensures callStack == if ok then WithRequests(old(callStack), [nrBits]) else old(callStack)
    {
      hide Advanced, DataApart, Allocated;
      var top := |callStack| - 1;
      AdvancedOnce(FreshStack(cfg, callStack[top].block), callStack[top].requests, nrBits);
      var offset := lstacks[top].Alloc(nrBits);
      ok := offset.Some?;
      if ok {
        callStack := callStack[top := Requesting(callStack[top], [nrBits])];
      }
    }

    /**
     Allocate scratch space for one copied parameter after the other. The first one that does not
     fit stops the CPU; those before it stay allocated.
     */
    method AllocScratch(requests: seq<nat>) returns (ok: bool)
      requires Valid() && callStack != []
      modifies this`callStack, lstacks[|lstacks| - 1]
      ensures Valid() && |callStack| == |old(callStack)|
      ensures ok <==> StackOf(cfg, Requesting(old(callStack[|callStack| - 1]), requests)).Some?
      ensures ok ==> callStack == WithRequests(old(callStack), requests)
      ensures !ok ==> PartlyRequested(old(callStack), callStack, requests)
    {
      hide StackOf, Valid;
      var top, i := |callStack| - 1, 0;
      ghost var f := callStack[top];
      assert Requesting(f, requests[..0]) == f;
      TopIsGranted();
      while i < |requests|
        invariant i <= |requests| && Valid() && |callStack| == top + 1
        invariant RequestedOf(old(callStack), callStack, requests, i) && StackOf(cfg, callStack[top]).Some?
      {
        RequestsAddUp(cfg, f, requests, i);
        ok := AllocOne(requests[i]);
        if !ok {
          return;
        }
        i := i + 1;
      }
      assert requests[..i] == requests;
      ok := true;
    }

    lemma TopIsGranted()
      requires Valid() && callStack != []
      ensures |lstacks| == |callStack| && StackOf(cfg, callStack[|callStack| - 1]).Some?
    {
      hide StackOf, Apart;
    }

    /**
     Call a block: save the registers, evaluate the parameters, then set the registers for it. The
     CPU stops if a block or DB is missing, or if there is no room for the copied parameters.
     */
    method RunCall(insn: Insn) returns (ok: bool)
      requires Valid() && callStack != [] && insn.Call? && WellFormedCall(insn)
      modifies this`dbRegister, this`diRegister, this`ar2, this`callStack, this`lstacks, lallocCache, lallocCache.cache,
               lstacks[|lstacks| - 1]
      ensures Valid() && (ok <==> CallAllowed(cfg, insn) && ScratchFits(cfg, old(Abstract()), insn))
      ensures !TargetExists(cfg, insn) ==> Abstract() == old(Abstract()) && Stacks() == old(Stacks())
      ensures |old(lstacks)| <= |lstacks| && lstacks[..|old(lstacks)|] == old(lstacks)
      ensures fresh(AllOf(Stacks()) - AllOf(old(Stacks())))
      ensures ok ==> Abstract().regs == RegsAtEntry(old(Abstract().regs), insn.callee, insn.openedDb)
      ensures ok ==> callStack == WithRequests(old(callStack), insn.requests)
                                  + [NewFrame(old(Abstract().regs), insn.callee, insn.block)]
      ensures !ok ==> PartlyRequested(old(callStack), callStack, insn.requests)
    {
      hide StackOf, Apart, PartlyRequested, InstanceBase, RegsAtEntry, WellFormedCall, TargetExists, StacksMatch;
      TopIsGranted();
      if !TargetExists(cfg, insn) {
        NothingRequestedYet(callStack, insn.requests);
        return false;
      }
      var cse, base := SaveRegisters(insn.callee, insn.block);
      var lalloc;
      ok, lalloc := PrepareStacks(insn.block, insn.requests, insn.openedDb.None? || insn.openedDb.value in cfg.dbs);
      if ok {
        SetRegisters(insn, base);
        Push(cse, lalloc);
      }
    }

    /** Take an L-stack for the block that is called, and then copy the parameters to that of its caller. */
    method PrepareStacks(block: Block, requests: seq<nat>, dbExists: bool) returns (ok: bool, lalloc: LStackAllocator)
      requires Valid() && callStack != []
      modifies this`callStack, lallocCache, lallocCache.cache, lstacks[|lstacks| - 1]
      ensures Valid() && lalloc.Valid() && lalloc.State() == FreshStack(cfg, block)
      ensures Apart(Pools(lstacks + [lalloc], lallocCache.cache))
      ensures fresh({lalloc} - AllOf(old(Stacks()))) && AllOf(Stacks()) <= AllOf(old(Stacks()))
      ensures ok <==> dbExists && StackOf(cfg, Requesting(old(callStack[|callStack| - 1]), requests)).Some?
      ensures ok ==> callStack == WithRequests(old(callStack), requests)
      ensures !ok ==> PartlyRequested(old(callStack), callStack, requests)
    {
      hide StackOf, Apart, PartlyRequested, StacksMatch;
      TopIsGranted();
      lalloc := TakeStack(block);
      if !dbExists {
        NothingRequestedYet(callStack, requests);
        return false, lalloc;
      }
      ok := AllocScratch(requests);
    }

    /** The call stack element of a block that is called, and the base of its instance. */
    method SaveRegisters(callee: Callee, block: Block) returns (cse: Frame, base: Option<Offset>)
      ensures cse == NewFrame(Abstract().regs, callee, block) && base == InstanceBase(Abstract().regs, callee)
    {
      hide FromPointer, Add;
      var instanceDb := match callee
        case CallFC | RawFC => None
        case CallFB(db) => Some(db)
        case CallMulti(_) | RawFB => Some(diRegister);
      base := match callee
        case CallFB(_) => Some(ZERO)
        case CallMulti(o) => Some(Add(FromPointer(ar2), o))
        case _ => None;
      cse := Frame(block, 0, callee.RawFC? || callee.RawFB?, instanceDb, dbRegister, diRegister, ar2, []);
    }

    /** Open the DB that the parameters name, and then set the registers for the called block. */
    method SetRegisters(insn: Insn, base: Option<Offset>)
      requires insn.Call? && CallAllowed(cfg, insn) && base == InstanceBase(Abstract().regs, insn.callee)
      modifies this`dbRegister, this`diRegister, this`ar2
      ensures Abstract().regs == RegsAtEntry(old(Abstract().regs), insn.callee, insn.openedDb)
    {
      hide InstanceBase, PointerBits;
      if insn.openedDb.Some? {
        var _ := RunAuf(insn.openedDb.value, false);
      }
      if base.Some? {
        ar2 := AREA_DB + PointerBits(base.value);
      }
      match insn.callee {
        case CallFB(db) =>
          dbRegister, diRegister := diRegister, db;
        case CallMulti(_) =>
          dbRegister := diRegister;
        case _ =>
      }
    }

    method Push(cse: Frame, lalloc: LStackAllocator)
      requires Valid() && Apart(Pools(lstacks + [lalloc], lallocCache.cache))
      requires lalloc.Valid() && cse.requests == [] && lalloc.State() == FreshStack(cfg, cse.block)
      modifies this`callStack, this`lstacks
      ensures Valid() && callStack == old(callStack) + [cse] && lstacks == old(lstacks) + [lalloc]
    {
      hide Advanced, Apart;
      NothingRequested(FreshStack(cfg, cse.block));
      callStack, lstacks := callStack + [cse], lstacks + [lalloc];
    }

    /** Run one instruction; it fails if a block, a DB or the room for copied parameters is missing. */
    method RunInsn(insn: Insn) returns (ok: bool)
      requires Valid() && callStack != [] && callStack[|callStack| - 1].ip < callStack[|callStack| - 1].block.nrInsns
      requires insn.OpenDb? || (insn.Call? && WellFormedCall(insn)) || Enabled(cfg, Abstract(), insn)
      modifies this, lallocCache, lallocCache.cache, lstacks[|lstacks| - 1]
      ensures Valid() && (ok <==> Enabled(cfg, old(Abstract()), insn))
      ensures ok ==> Abstract() == Execute(old(Abstract()), insn)
      ensures ok ==> var top, f := |old(callStack)| - 1, old(callStack)[|old(callStack)| - 1];
                     && top < |callStack|
                     && callStack[top].ip == (match insn
                                              case BlockEnd => f.block.nrInsns
                                              case Jump(target) => target
                                              case _ => f.ip + 1)
                     && callStack[top].requests == if insn.Call? then f.requests + insn.requests else f.requests
      ensures !ok && insn.OpenDb? ==> Abstract() == old(Abstract())
      ensures !ok && insn.Call? ==> PartlyRequested(old(callStack), callStack, insn.requests)
      ensures |old(lstacks)| <= |lstacks| && lstacks[..|old(lstacks)|] == old(lstacks)
      ensures fresh(AllOf(Stacks()) - AllOf(old(Stacks())))
    {
      hide RegsAtEntry, NewFrame, StackOf, Apart, PartlyRequested, WellFormedCall, StacksMatch;
      TopIsGranted();
      var top := |callStack| - 1;
      relativeJump := 1;
      assert Stacks() == old(Stacks());
      if insn.Call? {
        ok := RunCall(insn);
      } else {
        ok := RunWithoutCall(insn);
      }
      if ok {
        Advance(top);
      }
    }

    /** Move the instruction pointer of a block. */
    method Advance(top: nat)
      requires top < |callStack| && callStack[top].ip + relativeJump >= 0 && Valid()
      modifies this`callStack
      ensures Valid() && Stacks() == old(Stacks())
      ensures callStack == old(callStack)[top := old(callStack)[top].(ip := old(callStack)[top].ip + relativeJump)]
    {
      hide Apart, Advanced;
      callStack := callStack[top := callStack[top].(ip := callStack[top].ip + relativeJump)];
    }

    /** Run an instruction that calls no block. */
    method RunWithoutCall(insn: Insn) returns (ok: bool)
      requires callStack != [] && !insn.Call? && relativeJump == 1
      modifies this`dbRegister, this`diRegister, this`ar2, this`relativeJump
      ensures ok <==> (insn.OpenDb? ==> insn.db in cfg.dbs)
      ensures var f := callStack[|callStack| - 1];
              f.ip + relativeJump >= 0 && Moved(f, insn) == f.(ip := f.ip + relativeJump)
      ensures Abstract().regs == if ok then Execute(old(Abstract()), insn).regs else old(Abstract().regs)
    {
      ok := true;
      match insn {
        case BlockEnd => RunBe();
        case OpenDb(db, asDi) => ok := RunAuf(db, asDi);
        case SwapDbs => RunTdb();
        case SetAr2(v) => ar2 := v;
        case Jump(target) => JumpTo(target);
        case OtherInsn =>
      }
    }

    /** Restore the registers that the exit of a block restores. */
    method RestoreRegisters(prevCse: Frame)
      modifies this`dbRegister, this`diRegister, this`ar2
      ensures Abstract() == State(RegsAtExit(old(Abstract().regs), prevCse), old(callStack))
    {
      if !prevCse.isRawCall {
        ar2 := prevCse.prevAr2;
        if prevCse.block.isFB {
          dbRegister := if prevCse.instanceDb.Some? then prevCse.instanceDb.value else dbRegister;
          diRegister := prevCse.prevDi;
        } else {
          dbRegister, diRegister := prevCse.prevDb, prevCse.prevDi;
        }
      }
    }

    /** Leave the topmost block: restore the registers and give its L-stack back. */
    method BlockExit()
      requires Valid() && callStack != []
      modifies this`dbRegister, this`diRegister, this`ar2, this`callStack, this`lstacks, lallocCache
      ensures Valid() && Abstract() == ExitBlock(old(Abstract()))
      ensures lstacks == old(lstacks)[..|old(lstacks)| - 1]
      ensures var l := old(lstacks)[|old(lstacks)| - 1];
              lallocCache.cache
              == old(lallocCache.cache) + (if l.localdata.data.Length == cfg.nrLocalbytes then [l] else [])
      ensures AllOf(Stacks()) <= AllOf(old(Stacks()))
    {
      hide StackOf, Apart, AllOf, RegsAtExit;
      var top := |callStack| - 1;
      var prevCse, lalloc := callStack[top], lstacks[top];
      GivenBackIsApart(Stacks());
      callStack, lstacks := callStack[..top], lstacks[..top];
      RestoreRegisters(prevCse);
      if lalloc.localdata.data.Length == cfg.nrLocalbytes {
        lallocCache.Put(lalloc);
      }
    }

    /** Reset the registers and start an organization block on an empty call stack. */
    method StartOb(block: Block)
      requires Valid()
      modifies this, lallocCache, lallocCache.cache
      ensures Valid() && Abstract() == Started(block)
      ensures fresh(AllOf(Stacks()) - old(AllOf(Pools([], lallocCache.cache))))
    {
      dbRegister, diRegister, ar2 := 0, 0, 0;
      callStack, lstacks := [], [];
      var lalloc := TakeStack(block);
      Push(Frame(block, 0, true, None, dbRegister, diRegister, ar2, []), lalloc);
    }

    /**
     Run an organization block with the given instructions, one after the other, until its stack
     is empty, the instructions end, or the next one cannot be executed. Every state on the way is
     a state of the call machine, and in each of them the live blocks' L-stacks are apart.
     */
    method RunOb(block: Block, insns: seq<Insn>) returns (ok: bool, ghost trace: seq<State>, ghost pools: seq<Pools>)
      requires Valid()
      modifies this, lallocCache, lallocCache.cache
      ensures Valid() && Recorded(cfg, block, trace, pools) && trace != [] && |pools| == |trace|
      ensures ok ==> trace[|trace| - 1] == Abstract() && pools[|trace| - 1] == Stacks()
      ensures InOrder(cfg, insns, trace)
      ensures var last, n := trace[|trace| - 1], Used(trace[..|trace| - 1]);
              if ok then last.stack == [] || (!AtBlockEnd(last) && n == |insns|)
              else n < |insns| && !AtBlockEnd(last) && !Enabled(cfg, last, insns[n])
    {
      hide Recorded, InOrder, RunSoFar, Apart, StackOf, StacksMatch, Step, TurnIs, Used, Execute, Enabled, ExitBlock,
        Started;
      StartOb(block);
      trace, pools := [Abstract()], [Stacks()];
      OneStackEach();
      FirstRecorded(cfg, block, insns, Abstract(), Stacks());
      ok := true;
      var n := 0;
      while callStack != []
        invariant Valid() && fresh(AllOf(Stacks()) - old(AllOf(Pools([], lallocCache.cache))))
        invariant n <= |insns| && RunSoFar(cfg, block, insns, trace, pools, n)
        invariant ok && trace != [] && |pools| == |trace|
        invariant trace[|trace| - 1] == Abstract() && pools[|trace| - 1] == Stacks()
        decreases |insns| - n, |callStack|
      {
        ghost var before := Abstract();
        var atEnd := callStack[|callStack| - 1].ip >= callStack[|callStack| - 1].block.nrInsns;
        EndByPlace(before);
        SoFar(cfg, block, insns, trace, pools, n);
        if !atEnd && n == |insns| {
          return;
        }
        ok := Turn(if atEnd then None else Some(insns[n]));
        if !ok {
          return;
        }
        TurnIsStep(cfg, before, insns, n, Abstract());
        RecordedExtends(cfg, block, insns, trace, pools, n, Abstract(), Stacks());
        trace, pools := trace + [Abstract()], pools + [Stacks()];
        n := if atEnd then n else n + 1;
      }
      SoFar(cfg, block, insns, trace, pools, n);
    }

    /** Run an instruction of the executing block, or leave it if it has none left. */
    method Turn(insn: Option<Insn>) returns (ok: bool)
      requires Valid() && callStack != []
      requires insn.None? <==> callStack[|callStack| - 1].ip >= callStack[|callStack| - 1].block.nrInsns
      modifies this, lallocCache, lallocCache.cache, lstacks
      ensures Valid() && |Stacks().live| == |Abstract().stack| && Apart(Stacks())
      ensures ok && insn.None? ==> Abstract() == ExitBlock(old(Abstract()))
      ensures ok && insn.Some? ==> Enabled(cfg, old(Abstract()), insn.value)
                                   && Abstract() == Execute(old(Abstract()), insn.value)
      ensures !ok ==> insn.Some? && !Enabled(cfg, old(Abstract()), insn.value)
      ensures insn.None? ==> |callStack| < |old(callStack)|
      ensures fresh(AllOf(Stacks()) - AllOf(old(Stacks())))
    {
      hide Step, Execute, Enabled, ExitBlock, Apart, StackOf, StacksMatch, WellFormedCall;
      ghost var before := Abstract();
      TopIsGranted();
      if insn.None? {
        BlockExit();
        DepthFalls(before);
        ok := true;
      } else {
        ok := insn.value.OpenDb? || (insn.value.Call? && WellFormedCall(insn.value))
              || Enabled(cfg, Abstract(), insn.value);
        if ok {
          ok := RunInsn(insn.value);
        }
      }
      OneStackEach();
    }

    lemma OneStackEach()
      requires Valid()
      ensures |Stacks().live| == |Abstract().stack| && Apart(Stacks())
    {
      hide Apart, StackOf;
    }
  }

  /** How many of the states are followed by an instruction, and not by the end of a block. */
  function Used(states: seq<State>): nat {
    if states == [] then 0
    else Used(states[..|states| - 1]) + (if AtBlockEnd(states[|states| - 1]) then 0 else 1)
  }

  /** A block that has reached its end is left, and otherwise instruction `n` is executed. */
  predicate TurnIs(cfg: Config, s: State, insns: seq<Insn>, n: nat, t: State) {
    && s.stack != []
    && if AtBlockEnd(s) then t == ExitBlock(s)
       else n < |insns| && Enabled(cfg, s, insns[n]) && t == Execute(s, insns[n])
  }

  /** The instructions are executed one after the other, and none is left out. */
  ghost predicate InOrder(cfg: Config, insns: seq<Insn>, trace: seq<State>) {
    forall k :: 0 <= k < |trace| - 1 ==> TurnIs(cfg, trace[k], insns, Used(trace[..k]), trace[k + 1])
  }

  lemma EndByPlace(s: State)
    requires s.stack != []
    ensures AtBlockEnd(s) <==> s.stack[|s.stack| - 1].ip >= s.stack[|s.stack| - 1].block.nrInsns
  {
  }

  lemma NoTurnYet(cfg: Config, insns: seq<Insn>, s: State)
    ensures InOrder(cfg, insns, [s]) && Used([s][..|[s]| - 1]) == 0
  {
  }

  lemma InOrderExtends(cfg: Config, insns: seq<Insn>, trace: seq<State>, t: State)
    requires trace != [] && InOrder(cfg, insns, trace)
    requires TurnIs(cfg, trace[|trace| - 1], insns, Used(trace[..|trace| - 1]), t)
    ensures InOrder(cfg, insns, trace + [t])
    ensures Used((trace + [t])[..|trace + [t]| - 1])
            == Used(trace[..|trace| - 1]) + (if AtBlockEnd(trace[|trace| - 1]) then 0 else 1)
  {
    hide TurnIs, AtBlockEnd;
    var all := trace + [t];
    assert all[..|all| - 1] == trace;
    forall k | 0 <= k < |all| - 1
      ensures TurnIs(cfg, all[k], insns, Used(all[..k]), all[k + 1])
    {
      assert all[..k] == trace[..k];
    }
  }

  /** A run of an organization block, and the L-stacks in each of its states. */
  ghost predicate Recorded(cfg: Config, block: Block, trace: seq<State>, pools: seq<Pools>) {
    && trace != [] && trace[0] == Started(block) && IsRun(cfg, trace) && |pools| == |trace|
    && forall k :: 0 <= k < |trace| ==> Apart(pools[k]) && |pools[k].live| == |trace[k].stack|
  }

  /** A run in which the first `n` instructions have been executed. */
  ghost predicate RunSoFar(cfg: Config, block: Block, insns: seq<Insn>, trace: seq<State>, pools: seq<Pools>, n: nat) {
    Recorded(cfg, block, trace, pools) && InOrder(cfg, insns, trace) && trace != [] && n == Used(trace[..|trace| - 1])
  }

  lemma SoFar(cfg: Config, block: Block, insns: seq<Insn>, trace: seq<State>, pools: seq<Pools>, n: nat)
    requires RunSoFar(cfg, block, insns, trace, pools, n)
    ensures Recorded(cfg, block, trace, pools) && InOrder(cfg, insns, trace) && trace != []
    ensures n == Used(trace[..|trace| - 1])
  {
    hide Recorded, InOrder;
  }

  lemma FirstRecorded(cfg: Config, block: Block, insns: seq<Insn>, s: State, p: Pools)
    requires s == Started(block) && Apart(p) && |p.live| == |s.stack|
    ensures RunSoFar(cfg, block, insns, [s], [p], 0)
  {
    hide Apart;
    NoTurnYet(cfg, insns, s);
  }

  lemma RecordedExtends(cfg: Config, block: Block, insns: seq<Insn>, trace: seq<State>, pools: seq<Pools>, n: nat,
                        s: State, p: Pools)
    requires RunSoFar(cfg, block, insns, trace, pools, n) && trace != [] && Apart(p) && |p.live| == |s.stack|
    requires TurnIs(cfg, trace[|trace| - 1], insns, n, s) && Step(cfg, trace[|trace| - 1], s)
    ensures RunSoFar(cfg, block, insns, trace + [s], pools + [p],
                     if AtBlockEnd(trace[|trace| - 1]) then n else n + 1)
  {
    hide Step, Apart, IsRun, InOrder, TurnIs, AtBlockEnd;
    RunExtends(cfg, trace, s);
    InOrderExtends(cfg, insns, trace, s);
  }

  /** The executing block has made these requests in addition. */
  function WithRequests(stack: seq<Frame>, requests: seq<nat>): seq<Frame>
    requires stack != []
  {
    stack[|stack| - 1 := Requesting(stack[|stack| - 1], requests)]
  }

  /** The executing block has allocated the first `n` of these requests. */
  ghost predicate RequestedOf(before: seq<Frame>, after: seq<Frame>, requests: seq<nat>, n: nat) {
    && before != [] && n <= |requests|
    && after == WithRequests(before, requests[..n])
  }

  /** If a request is not granted, those behind it do not matter. */
  lemma RequestsAddUp(cfg: Config, f: Frame, requests: seq<nat>, i: nat)
    requires i < |requests|
    ensures Requesting(Requesting(f, requests[..i]), [requests[i]]) == Requesting(f, requests[..i + 1])
    ensures StackOf(cfg, Requesting(f, requests[..i + 1])).None? ==> StackOf(cfg, Requesting(f, requests)).None?
  {
    hide Advanced;
    assert requests[..i] + [requests[i]] == requests[..i + 1];
    assert f.requests + requests[..i] + [requests[i]] == f.requests + requests[..i + 1];
    assert f.requests + requests[..i + 1] + requests[i + 1..] == f.requests + requests;
    AdvancedBy(FreshStack(cfg, f.block), f.requests + requests[..i + 1], requests[i + 1..]);
  }

  ghost predicate PartlyRequested(before: seq<Frame>, after: seq<Frame>, requests: seq<nat>) {
    exists n :: 0 <= n <= |requests| && RequestedOf(before, after, requests, n)
  }

  lemma NothingRequestedYet(stack: seq<Frame>, requests: seq<nat>)
    requires stack != []
    ensures PartlyRequested(stack, stack, requests)
  {
    assert stack[|stack| - 1].requests + requests[..0] == stack[|stack| - 1].requests;
    assert RequestedOf(stack, stack, requests, 0);
  }

  /** An organization block that starts. */
  function Started(block: Block): State {
    State(Regs(0, 0, 0), [Frame(block, 0, true, None, 0, 0, 0, [])])
  }

  /**
   In every state of a run, the L-stacks of two live blocks share no memory; and in its own L-stack
   each block has all scratch regions it has requested, which lie apart and above its own accesses.
   */
  lemma LiveBlocksAreSafe(cfg: Config, block: Block, trace: seq<State>, pools: seq<Pools>, k: nat, d: nat)
    requires Recorded(cfg, block, trace, pools) && k < |trace| && d < |trace[k].stack|
    ensures k < |pools| && |pools[k].live| == |trace[k].stack|
    ensures forall e :: 0 <= e < |pools[k].live| && e != d ==>
              pools[k].live[e].localdata.data != pools[k].live[d].localdata.data
    ensures var f := trace[k].stack[d];
            var rs := ScratchOf(cfg, f);
            && |rs| == |f.requests| && Separate(rs) && Within(rs, 8 * f.block.tempAllocation, cfg.nrLocalbytes)
            && forall op: Operand, i :: op.LAccess? && DirectEnd(op) <= f.block.tempAllocation && 0 <= i < |rs| ==>
                 ToBitOffset(op.offset) + op.width <= RegionLo(rs[i])
  {
    assert trace[0] == Started(block);
    NothingRequested(FreshStack(cfg, block));
    assert Granted(cfg, trace[0]);
    forall e | 0 <= e < |pools[k].live| && e != d
      ensures pools[k].live[e].localdata.data != pools[k].live[d].localdata.data
    {
      assert pools[k].live[e] in AllOf(pools[k]) && pools[k].live[d] in AllOf(pools[k]);
    }
    hide *;
    ScratchIsSafe(cfg, trace, k, d);
  }

  // ----- L-stacks that change hands

  lemma TakenIsApart(before: Pools, after: Pools, l: LStackAllocator)
    requires Apart(before) && after.live == before.live && before.cached == after.cached + [l]
    ensures Apart(after) && Apart(Pools(after.live + [l], after.cached)) && AllOf(after) <= AllOf(before)
    ensures l in AllOf(before) && l !in after.cached && l !in after.live
  {
    var n := |after.cached|;
    assert l == before.cached[n] && l in before.cached;
    assert forall i :: 0 <= i < n ==> after.cached[i] == before.cached[i];
    assert forall m :: m in after.cached ==> m in before.cached;
    assert forall m :: m in after.live ==> m in before.live;
    assert AllOf(Pools(after.live + [l], after.cached)) <= AllOf(before);
  }

  lemma NewIsApart(p: Pools, l: LStackAllocator)
    requires Apart(p) && l !in AllOf(p) && (forall m :: m in AllOf(p) ==> m.localdata.data != l.localdata.data)
    ensures Apart(Pools(p.live + [l], p.cached))
  {
    assert AllOf(Pools(p.live + [l], p.cached)) == AllOf(p) + {l};
  }

  lemma GivenBackIsApart(p: Pools)
    requires Apart(p) && p.live != []
    ensures var l, rest := p.live[|p.live| - 1], p.live[..|p.live| - 1];
            && l !in p.cached && Apart(Pools(rest, p.cached)) && Apart(Pools(rest, p.cached + [l]))
            && AllOf(Pools(rest, p.cached)) <= AllOf(p) && AllOf(Pools(rest, p.cached + [l])) == AllOf(p)
  {
    var l, rest := p.live[|p.live| - 1], p.live[..|p.live| - 1];
    forall m | m in p.live
      ensures m in rest || m == l
    {
      var i :| 0 <= i < |p.live| && p.live[i] == m;
      assert i < |rest| ==> rest[i] == m;
    }
    forall m | m in rest
      ensures m != l
    {
      var i :| 0 <= i < |rest| && rest[i] == m;
      assert p.live[i] == m;
    }
    assert l !in p.cached;
    assert AllOf(Pools(rest, p.cached + [l])) == AllOf(p);
  }

  // ----- steps

  lemma TurnIsStep(cfg: Config, s: State, insns: seq<Insn>, n: nat, t: State)
    requires s.stack != []
    requires AtBlockEnd(s) ==> t == ExitBlock(s)
    requires !AtBlockEnd(s) ==> n < |insns| && Enabled(cfg, s, insns[n]) && t == Execute(s, insns[n])
    ensures TurnIs(cfg, s, insns, n, t) && Step(cfg, s, t)
  {
    hide ExitBlock, Execute, Enabled;
  }

  /** An organization block is started as a raw call: its end leaves the registers as its instructions have. */
  lemma ObKeepsRegisters(cfg: Config, block: Block, trace: seq<State>, pools: seq<Pools>, k: nat)
    requires Recorded(cfg, block, trace, pools) && 0 < k < |trace| && trace[k].stack == []
    ensures trace[k].regs == trace[k - 1].regs && |trace[k - 1].stack| == 1
  {
    hide IsRun, Apart, RegsAtEntry, NewFrame, StackOf;
    forall i | 0 <= i <= k - 1
      ensures 0 < |trace[i].stack|
    {
      StepHasStack(cfg, trace, i);
    }
    CallerIsFrozen(cfg, trace, 0, k - 1);
    LastStepEnds(cfg, trace, k);
  }

  lemma StepHasStack(cfg: Config, trace: seq<State>, i: nat)
    requires IsRun(cfg, trace) && i + 1 < |trace|
    ensures trace[i].stack != []
  {
    assert Step(cfg, trace[i], trace[i + 1]);
    hide Execute, ExitBlock, StackOf;
  }

  lemma LastStepEnds(cfg: Config, trace: seq<State>, k: nat)
    requires IsRun(cfg, trace) && 0 < k < |trace| && trace[k].stack == []
    ensures trace[k - 1].stack != [] && trace[k] == ExitBlock(trace[k - 1])
  {
    assert Step(cfg, trace[k - 1], trace[k - 1 + 1]);
    hide ExitBlock, StackOf, RegsAtEntry, NewFrame;
  }

  lemma DepthFalls(s: State)
    requires s.stack != []
    ensures |ExitBlock(s).stack| < |s.stack|
  {
  }

  lemma RunExtends(cfg: Config, trace: seq<State>, s: State)
    requires trace != [] && IsRun(cfg, trace) && Step(cfg, trace[|trace| - 1], s)
    ensures IsRun(cfg, trace + [s])
  {
    var t := trace + [s];
    forall k | 0 <= k < |t| - 1
      ensures Step(cfg, t[k], t[k + 1])
    {
      if k < |trace| - 1 {
        assert Step(cfg, trace[k], trace[k + 1]);
      }
    }
  }
}
