/**
 How each kind of actual parameter reaches an FC, said by the operand itself: inputs, outputs,
 flags, the caller's own temporary data and data of the open DB are handed on; constants, data
 of the caller's caller, instance data, data of a named DB and forwarded DB data are copied.
 */
module FcKinds {
  import opened Offset
  import opened Memory
  import opened Options
  import LStack
  import opened FcParams

  /** The operand behind an actual parameter; an FC's own parameter stands for what it was called with. */
  function Behind(c: Ctx, op: Operand): (d: Operand)
    requires Direct(c, op).Some?
  {
    Direct(c, op).value
  }

  lemma CopiedByKind(c: Ctx, op: Operand)
    requires Direct(c, op).Some?
    ensures Copied(c, op)
            <==> match Behind(c, op)
                 case EVar(_, _) | AVar(_, _) | MVar(_, _) | LVar(_, _) => false
                 case DbVar(number, _, _) => number.Some? || op.Named?
                 case _ => true
  {
  }

  /** Only outbound parameters that are copied are stored at the exit, and constants never are. */
  lemma CopiedBackByKind(c: Ctx, p: Param)
    requires Direct(c, p.op).Some?
    ensures CopiedBack(c, p)
            <==> p.outbound && match Behind(c, p.op)
                               case VLVar(_, _) | DiVar(_, _) => true
                               case DbVar(number, _, _) => number.Some? || p.op.Named?
                               case _ => false
  {
  }

  /** The operands that are handed on: `d` is `op` itself, or what an FC's own parameter stands for. */
  predicate HandedOn(op: Operand, d: Operand) {
    d.EVar? || d.AVar? || d.MVar? || d.LVar? || (d.DbVar? && d.number.None? && !op.Named?)
  }

  /** Handing on a parameter takes no space, changes no memory, and opens no DB. */
  lemma HandedOnTakesNothing(c: Ctx, s: Passing, p: Param)
    requires Direct(c, p.op).Some? && HandedOn(p.op, Behind(c, p.op))
    ensures var t := Passed(c, s, p);
            && t.Some? && t.value.alloc == s.alloc && t.value.mem == s.mem && t.value.db == s.db
            && t.value.outs == s.outs && t.value.scratch == s.scratch
  {
  }

  /** Where an actual parameter that is handed on is, while the FC has `db` open. */
  function ActualPlace(c: Ctx, db: int, d: Operand): Place
    requires HandedOn(d, d)
  {
    match d
    case EVar(o, w) => Place(Inputs, o, w)
    case AVar(o, w) => Place(Outputs, o, w)
    case MVar(o, w) => Place(Flags, o, w)
    case LVar(o, w) => Place(LocalData(c.depth), o, w)
    case DbVar(_, o, w) => Place(DataBlock(db), o, w)
  }

  lemma HandedOnPlace(c: Ctx, s0: Passing, ps: seq<Param>, r: Running, i: nat)
    requires ValidCtx(c) && ValidParams(ps) && LStack.ValidState(s0.alloc) && AllPassed(c, s0, ps).Some?
    requires i < |ps| && Direct(c, ps[i].op).Some? && HandedOn(ps[i].op, Behind(c, ps[i].op))
    ensures Locate(Callee(c, AllPassed(c, s0, ps).value.refs, r), Named(ps[i].field))
            == Some(ActualPlace(c, r.db, Behind(c, ps[i].op)))
    ensures SlotAt(ActualPlace(c, r.db, Behind(c, ps[i].op)))
  {
    assert ValidOperand(ps[i].op);
    hide AllPassed, Add, LStack.Mark, ValidParams, ValidCtx, ByReference;
    CopiedByKind(c, ps[i].op);
    ReferenceMeansActual(c, s0, ps, r, i);
    PlaceByKind(c.(db := r.db), ps[i].op);
  }

  lemma SumWithZero(o: Offset)
    requires Normal(o)
    ensures Add(ZERO, o) == o
  {
    hide *;
    AddCountsBits(ZERO, o);
    ZeroCountsNothing();
    BitsDetermineOffset(Add(ZERO, o), o);
  }

  lemma PlaceByKind(c: Ctx, op: Operand)
    requires ValidCtx(c) && ValidOperand(op) && Direct(c, op).Some? && HandedOn(op, Behind(c, op))
    ensures Locate(c, op) == Some(ActualPlace(c, c.db, Behind(c, op)))
    ensures SlotAt(ActualPlace(c, c.db, Behind(c, op)))
  {
    hide Add, FromPointer;
    var d := Behind(c, op);
    if d.DbVar? {
      SumWithZero(d.offset);
    }
  }

  /**
   Whatever the FC has done before, its next store to a parameter that was handed on changes the
   actual parameter at once, and its next access reads the actual parameter.
   */
  lemma HandedOnIsActual(c: Ctx, s0: Passing, ps: seq<Param>, r: Running, i: nat, n: int)
    requires ValidCtx(c) && ValidParams(ps) && LStack.ValidState(s0.alloc) && AllPassed(c, s0, ps).Some?
    requires i < |ps| && Direct(c, ps[i].op).Some? && HandedOn(ps[i].op, Behind(c, ps[i].op))
    ensures var refs, at := AllPassed(c, s0, ps).value.refs, ActualPlace(c, r.db, Behind(c, ps[i].op));
            && ValueOf(Callee(c, refs, r), r.mem, Named(ps[i].field)) == FetchAt(r.mem, at)
            && (Happened(c, refs, r, StoreParam(ps[i].field, n)).Some? ==>
                  FetchAt(Happened(c, refs, r, StoreParam(ps[i].field, n)).value.mem, at) == Some(Kept(at.width, n)))
  {
    var refs, at := AllPassed(c, s0, ps).value.refs, ActualPlace(c, r.db, Behind(c, ps[i].op));
    HandedOnPlace(c, s0, ps, r, i);
    hide AllPassed, Callee, Locate, StoreAt, FetchAt, Kept, ActualPlace, ValidParams, ValidCtx;
    if StoreAt(r.mem, at, n).Some? {
      FetchAfterStore(r.mem, at, n);
    }
  }

  /** The operands that are copied, behind a parameter or an FC's own parameter. */
  predicate IsCopied(op: Operand, d: Operand) {
    d.Imm? || d.VLVar? || d.DiVar? || (d.DbVar? && (d.number.Some? || op.Named?))
  }

  /**
   Passing a parameter that is copied, and every store of the FC to it, leaves everything alone
   that is not in the caller's own L-stack, and so the actual parameter.
   */
  lemma CopiedStaysBehind(c: Ctx, s0: Passing, ps: seq<Param>, r: Running, i: nat, n: int, q: Place)
    requires ValidCtx(c) && ValidParams(ps) && LStack.ValidState(s0.alloc) && AllPassed(c, s0, ps).Some?
    requires i < |ps| && Direct(c, ps[i].op).Some? && IsCopied(ps[i].op, Behind(c, ps[i].op))
    requires q.space != LocalData(c.depth)
    ensures var s := AllPassed(c, s0, ps).value;
            && FetchAt(s.mem, q) == FetchAt(s0.mem, q)
            && (Happened(c, s.refs, r, StoreParam(ps[i].field, n)).Some? ==>
                  FetchAt(Happened(c, s.refs, r, StoreParam(ps[i].field, n)).value.mem, q) == FetchAt(r.mem, q))
  {
    var s := AllPassed(c, s0, ps).value;
    AllPassedIsSetUp(c, s0, ps);
    CopiedByKind(c, ps[i].op);
    SetUpParts(c, s0, ps, s);
    hide AllPassed, EachSetUp, InOrder, SetUp, ValidParams, ValidCtx, Copied, LStack.Mark;
    ScratchIsSlot(c, s0, ps, s, i);
    CopyPlace(c, s.refs, ps[i].field, r);
    hide StoreAt, Locate, ScratchPlace, FetchAt, Callee;
    SpaceOfScratch(c, s.refs[ps[i].field]);
    FetchOutside(s0.mem, s.mem, LocalData(c.depth), q);
    var at := ScratchPlace(c, s.refs[ps[i].field]);
    if StoreAt(r.mem, at, n).Some? {
      StoreStaysInside(r.mem, at, n);
      FetchOutside(r.mem, StoreAt(r.mem, at, n).value, LocalData(c.depth), q);
    }
  }

  lemma SpaceOfScratch(c: Ctx, k: Operand)
    requires k.VLVar?
    ensures ScratchPlace(c, k).space == LocalData(c.depth)
  {
  }

  lemma FetchOutside(m: Mem, t: Mem, space: Space, q: Place)
    requires SameOutside(m, t, space) && q.space != space
    ensures FetchAt(t, q) == FetchAt(m, q)
  {
    hide Fetched;
  }

  /** Where the actual parameters are that are copied: never in the caller's own L-stack. */
  lemma CopiedPlace(c: Ctx, op: Operand)
    requires ValidCtx(c) && ValidOperand(op)
    requires Direct(c, op).Some? && IsCopied(op, Behind(c, op)) && Locate(c, op).Some?
    ensures Locate(c, op).value.space != LocalData(c.depth)
    ensures match Behind(c, op)
            case VLVar(o, w) => c.depth > 0 && Locate(c, op) == Some(Place(LocalData(c.depth - 1), o, w))
            case DbVar(number, o, w) =>
              Locate(c, op) == Some(Place(DataBlock(if number.Some? then number.value else c.db), o, w))
            case DiVar(o, w) =>
              var at := Locate(c, op).value;
              && at.space == DataBlock(c.di) && at.width == w && Normal(at.offset)
              && ToBitOffset(at.offset) == (if c.isFB then c.ar2 % 0x8_0000 else 0) + ToBitOffset(o)
            case _ => false
  {
    var d := Behind(c, op);
    hide Add, FromPointer, ToBitOffset;
    if d.DbVar? {
      SumWithZero(d.offset);
    } else if d.DiVar? {
      InstanceOffset(c.isFB, c.ar2, d.offset);
    }
  }

  /** Instance data is addressed relative to AR2, but only in an FB. */
  lemma InstanceOffset(isFB: bool, ar2: nat, o: Offset)
    ensures var at := Add(if isFB then FromPointer(ar2) else ZERO, o);
            Normal(at) && ToBitOffset(at) == (if isFB then ar2 % 0x8_0000 else 0) + ToBitOffset(o)
  {
    hide *;
    if isFB {
      PointerCountsBits(ar2);
      AddCountsBits(FromPointer(ar2), o);
    } else {
      ZeroCountsNothing();
      AddCountsBits(ZERO, o);
    }
  }

  /** A qualified DB operand names its DB. */
  predicate NamesDb(op: Operand) {
    op.DbVar? && op.number.Some?
  }

  /** Passing leaves the DB open that the last qualified operand names, or the one that was open before. */
  lemma LastNamedIsOpen(c: Ctx, s0: Passing, ps: seq<Param>, k: nat)
    requires ValidCtx(c) && ValidParams(ps) && LStack.ValidState(s0.alloc) && AllPassed(c, s0, ps).Some?
    requires k <= |ps| && forall i :: k <= i < |ps| ==> !NamesDb(ps[i].op)
    ensures k == 0 ==> AllPassed(c, s0, ps).value.db == s0.db
    ensures k > 0 && NamesDb(ps[k - 1].op) ==> AllPassed(c, s0, ps).value.db == ps[k - 1].op.number.value
  {
    hide AllPassed, SetUp, EachSetUp, InOrder, ValidParams, ValidCtx, LStack.Mark, DbAfter;
    AllPassedIsSetUp(c, s0, ps);
    SetUpParts(c, s0, ps, AllPassed(c, s0, ps).value);
    LastNamed(s0.db, ps, k);
  }

  lemma {:induction false} LastNamed(db: int, ps: seq<Param>, k: nat)
    requires k <= |ps| && forall i :: k <= i < |ps| ==> !NamesDb(ps[i].op)
    ensures k == 0 ==> DbAfter(db, ps) == db
    ensures k > 0 && NamesDb(ps[k - 1].op) ==> DbAfter(db, ps) == ps[k - 1].op.number.value
    decreases |ps|
  {
    if k < |ps| {
      LastNamed(db, ps[..|ps| - 1], k);
    }
  }
}
