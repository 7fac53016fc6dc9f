/**
 Passing the parameters of an FC is the part of a call step that concerns the caller: the
 scratch space that is allocated, and the DB that is opened.
 */
module FcCalls {
  import opened Options
  import opened LStack
  import opened FcParams
  import CallMachine

  /** The widths of the parameters that are copied, in the order in which space is allocated for them. */
  function CopiedWidths(c: Ctx, ps: seq<Param>): seq<nat> {
    if ps == [] then []
    else
      var front, op := CopiedWidths(c, ps[..|ps| - 1]), ps[|ps| - 1].op;
      if Copied(c, op) then front + [DirectOr0(c, op).width] else front
  }

  /** The DB that the parameters name last, if any. */
  function NamedDb(ps: seq<Param>): Option<int> {
    if ps == [] then None
    else
      var op := ps[|ps| - 1].op;
      if op.DbVar? && op.number.Some? then op.number else NamedDb(ps[..|ps| - 1])
  }

  lemma {:induction false} DbIsNamed(db: int, ps: seq<Param>)
    ensures DbAfter(db, ps) == if NamedDb(ps).Some? then NamedDb(ps).value else db
  {
    if ps != [] {
      DbIsNamed(db, ps[..|ps| - 1]);
    }
  }

  lemma PassedAllocates(c: Ctx, s: Passing, p: Param)
    requires Passed(c, s, p).Some?
    ensures var t := Passed(c, s, p).value;
            && t.db == OpenedBy(s.db, p.op)
            && if Copied(c, p.op)
               then Allocated(s.alloc, DirectOr0(c, p.op).width).Some?
                    && t.alloc == Allocated(s.alloc, DirectOr0(c, p.op).width).value.1
               else t.alloc == s.alloc
  {
    hide Allocated, StoreAt, ValueOf;
  }

  /** Passing all parameters is what all requests for scratch space do to the caller's L-stack. */
  lemma {:induction false} AllPassedAllocates(c: Ctx, s0: Passing, ps: seq<Param>)
    requires AllPassed(c, s0, ps).Some?
    ensures Advanced(s0.alloc, CopiedWidths(c, ps)) == Some(AllPassed(c, s0, ps).value.alloc)
    ensures AllPassed(c, s0, ps).value.db == DbAfter(s0.db, ps)
  {
    hide Passed, Copied, DirectOr0, Advanced, Allocated, OpenedBy;
    if ps == [] {
      CallMachine.NothingRequested(s0.alloc);
    } else {
      var front, p := ps[..|ps| - 1], ps[|ps| - 1];
      AllPassedAllocates(c, s0, front);
      PassedAllocates(c, AllPassed(c, s0, front).value, p);
      AdvancedOnce(s0.alloc, CopiedWidths(c, front), DirectOr0(c, p.op).width);
    }
  }

  /** The instruction that calls an FC with these parameters. */
  function CallInsn(c: Ctx, block: CallMachine.Block, ps: seq<Param>): CallMachine.Insn {
    CallMachine.Call(CallMachine.CallFC, block, NamedDb(ps), CopiedWidths(c, ps))
  }

  lemma FcCallStep(cfg: CallMachine.Config, s: CallMachine.State, block: CallMachine.Block, named: Option<int>,
                   requests: seq<nat>)
    requires s.stack != [] && !block.isFB && block in cfg.blocks && (named.Some? ==> named.value in cfg.dbs)
    requires s.stack[|s.stack| - 1].ip < s.stack[|s.stack| - 1].block.nrInsns
    ensures var insn := CallMachine.Call(CallMachine.CallFC, block, named, requests);
            var top, s' := s.stack[|s.stack| - 1], CallMachine.Execute(s, insn);
            && (CallMachine.Enabled(cfg, s, insn)
                <==> CallMachine.StackOf(cfg, CallMachine.Requesting(top, requests)).Some?)
            && s'.regs.db == (if named.Some? then named.value else s.regs.db) && |s'.stack| > |s.stack|
            && CallMachine.StackOf(cfg, s'.stack[|s.stack| - 1])
               == CallMachine.StackOf(cfg, CallMachine.Requesting(top, requests))
  {
    hide Advanced;
  }

  /**
   If the parameters can be passed, the call step of the machine is enabled, and leaves the
   caller's L-stack and the DB register as the passing of the parameters does. If there is no
   space for a parameter, the call step is not enabled.
   */
  lemma PassingIsCallStep(cfg: CallMachine.Config, s: CallMachine.State, c: Ctx, s0: Passing, ps: seq<Param>,
                          block: CallMachine.Block)
    requires s.stack != [] && !block.isFB && block in cfg.blocks
    requires NamedDb(ps).Some? ==> NamedDb(ps).value in cfg.dbs
    requires var top := s.stack[|s.stack| - 1];
             top.ip < top.block.nrInsns && CallMachine.StackOf(cfg, top) == Some(s0.alloc) && s.regs.db == s0.db
    ensures CallMachine.Enabled(cfg, s, CallInsn(c, block, ps)) <==> Advanced(s0.alloc, CopiedWidths(c, ps)).Some?
    ensures AllPassed(c, s0, ps).Some? ==>
              var t, s' := AllPassed(c, s0, ps).value, CallMachine.Execute(s, CallInsn(c, block, ps));
              && CallMachine.Enabled(cfg, s, CallInsn(c, block, ps))
              && s'.regs.db == t.db && CallMachine.StackOf(cfg, s'.stack[|s.stack| - 1]) == Some(t.alloc)
  {
    var top := s.stack[|s.stack| - 1];
    hide AllPassed, Advanced, CopiedWidths, NamedDb, DbAfter, CallMachine.Execute, CallMachine.Enabled;
    FcCallStep(cfg, s, block, NamedDb(ps), CopiedWidths(c, ps));
    AdvancedBy(CallMachine.FreshStack(cfg, top.block), top.requests, CopiedWidths(c, ps));
    if AllPassed(c, s0, ps).Some? {
      AllPassedAllocates(c, s0, ps);
      DbIsNamed(s0.db, ps);
    }
  }
}
