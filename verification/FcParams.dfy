/**
 Parameters of a CALL to an FC (`CallStackElem`): an actual parameter is either handed on by
 reference, or copied to scratch space in the caller's L-stack at the call and copied back
 from there at the exit of the block.

 Only basic data types are modelled: 1, 8, 16 and 32 bits.
 */
module FcParams {
  import opened Bytes
  import opened Offset
  import opened Memory
  import opened Options
  import opened LStack

  datatype Space = Inputs | Outputs | Flags | DataBlock(number: int) | LocalData(depth: nat)

  type Mem = map<Space, seq<byte>>

  datatype Place = Place(space: Space, offset: Offset, width: nat)

  /** `LVar` is in the block's own L-stack, `VLVar` in its caller's; `Named` is an FC's own parameter. */
  datatype Operand =
    | Imm(n: int, width: nat)
    | EVar(offset: Offset, width: nat)
    | AVar(offset: Offset, width: nat)
    | MVar(offset: Offset, width: nat)
    | LVar(offset: Offset, width: nat)
    | VLVar(offset: Offset, width: nat)
    | DbVar(number: Option<int>, offset: Offset, width: nat)
    | DiVar(offset: Offset, width: nat)
    | Named(field: nat)

  /** What the meaning of an operand depends on: the topmost block and the registers. */
  datatype Ctx = Ctx(depth: nat, isFB: bool, db: int, di: int, ar2: nat, refs: map<nat, Operand>)

  predicate BasicWidth(w: nat) {
    w in {1, 8, 16, 32}
  }

  predicate Basic(op: Operand) {
    !op.Named? && BasicWidth(op.width) && (op.Imm? || Slot(op.offset, op.width))
  }

  /** An FC's own parameters refer to memory, never to its own L-stack and never to a named DB. */
  predicate ValidRef(op: Operand) {
    Basic(op) && (op.EVar? || op.AVar? || op.MVar? || op.VLVar? || (op.DbVar? && op.number.None?))
  }

  ghost predicate ValidCtx(c: Ctx) {
    forall f :: f in c.refs ==> ValidRef(c.refs[f])
  }

  predicate ValidOperand(op: Operand) {
    op.Named? || Basic(op)
  }

  // ----- what an operand means

  /** The operand behind a name. */
  function Direct(c: Ctx, op: Operand): (r: Option<Operand>)
    ensures r.Some? ==> !r.value.Named?
  {
    if !op.Named? then Some(op)
    else if op.field in c.refs && !c.refs[op.field].Named? then Some(c.refs[op.field])
    else None
  }

  /** Where a direct operand is. */
  function PlaceOf(c: Ctx, op: Operand): Option<Place> {
    match op
    case EVar(o, w) => Some(Place(Inputs, o, w))
    case AVar(o, w) => Some(Place(Outputs, o, w))
    case MVar(o, w) => Some(Place(Flags, o, w))
    case LVar(o, w) => Some(Place(LocalData(c.depth), o, w))
    case VLVar(o, w) => if c.depth == 0 then None else Some(Place(LocalData(c.depth - 1), o, w))
    case DbVar(n, o, w) => Some(Place(DataBlock(if n.Some? then n.value else c.db), Add(ZERO, o), w))
    case DiVar(o, w) => Some(Place(DataBlock(c.di), Add(if c.isFB then FromPointer(c.ar2) else ZERO, o), w))
    case _ => None
  }

  function Locate(c: Ctx, op: Operand): Option<Place> {
    var d := Direct(c, op);
    if d.None? then None else PlaceOf(c, d.value)
  }

  predicate Usable(p: Place) {
    BasicWidth(p.width) && (p.width == 1 ==> p.offset.bitOffset < 8)
  }

  function FetchAt(m: Mem, p: Place): Option<int> {
    if !Usable(p) || p.space !in m then None
    else
      match Fetched(m[p.space], p.offset, p.width)
      case None => None
      case Some(v) => Some(v.n)
  }

  /** Integers are what instructions store. */
  function StoreAt(m: Mem, p: Place, n: int): Option<Mem> {
    if !Usable(p) || p.space !in m || !StoreFits(m[p.space], p.offset, p.width, IntVal(n)) then None
    else Some(m[p.space := Stored(m[p.space], p.offset, p.width, IntVal(n))])
  }

  /** The value of an operand. */
  function ValueOf(c: Ctx, m: Mem, op: Operand): Option<int> {
    if op.Imm? then Some(op.n)
    else
      match Locate(c, op)
      case None => None
      case Some(p) => FetchAt(m, p)
  }

  /** What remains of an integer in a region of that width. */
  function Kept(width: nat, n: int): int {
    if width == 1 then (if n != 0 then 1 else 0) else n % Pow256(width / 8)
  }

  // ----- single stores

  predicate SlotAt(p: Place) {
    BasicWidth(p.width) && Slot(p.offset, p.width)
  }

  predicate Apart(p: Place, q: Place) {
    p.space != q.space || Disjoint(p.offset, p.width, q.offset, q.width)
  }

  lemma FetchAfterStore(m: Mem, p: Place, n: int)
    requires SlotAt(p) && StoreAt(m, p, n).Some?
    ensures FetchAt(StoreAt(m, p, n).value, p) == Some(Kept(p.width, n))
  {
    hide Stored, Fetched;
    FetchOfStore(m[p.space], p.offset, p.width, IntVal(n));
  }

  lemma FetchAfterOtherStore(m: Mem, p: Place, n: int, q: Place)
    requires SlotAt(q) && StoreAt(m, p, n).Some? && Apart(p, q)
    requires p.space == q.space ==> SlotAt(p)
    ensures FetchAt(StoreAt(m, p, n).value, q) == FetchAt(m, q)
  {
    hide Stored, Fetched;
    if p.space == q.space {
      FetchOfDisjointStore(m[p.space], p.offset, p.width, IntVal(n), q.offset, q.width);
    }
  }

  /** The same memories, with the same sizes, and the same contents outside one of them. */
  ghost predicate SameOutside(m: Mem, t: Mem, space: Space) {
    && m.Keys == t.Keys
    && (forall sp :: sp in m ==> |t[sp]| == |m[sp]|)
    && (forall sp :: sp in m && sp != space ==> t[sp] == m[sp])
  }

  lemma StoreStaysInside(m: Mem, p: Place, n: int)
    requires StoreAt(m, p, n).Some?
    ensures SameOutside(m, StoreAt(m, p, n).value, p.space)
  {
    hide Fetched, Bit;
  }

  // ----- the call

  /** A parameter assignment: which object it is, the field it assigns, and the actual parameter. */
  datatype Param = Param(id: nat, field: nat, op: Operand, outbound: bool)

  datatype Scratch = Scratch(offset: Offset, width: nat)

  /** While parameters are passed: memory, the caller's L-stack, its DB register, and what was set up so far. */
  datatype Passing = Passing(mem: Mem, alloc: AllocState, db: int, refs: map<nat, Operand>,
                             outs: seq<Param>, scratch: map<nat, Scratch>)

  ghost predicate ValidParams(ps: seq<Param>) {
    && (forall i :: 0 <= i < |ps| ==> ValidOperand(ps[i].op))
    && (forall i, j :: 0 <= i < j < |ps| ==> ps[i].field != ps[j].field && ps[i].id != ps[j].id)
  }

  /** The operand the called FC gets if the actual parameter is handed on by reference. */
  function ByReference(c: Ctx, op: Operand): Option<Operand> {
    var d := Direct(c, op);
    if d.None? then None
    else
      match d.value
      case EVar(_, _) | AVar(_, _) | MVar(_, _) => d
      case LVar(o, w) => Some(VLVar(o, w))
      case DbVar(n, _, _) => if n.None? && !op.Named? then d else None
      case _ => None
  }

  /** A parameter that names a DB opens that DB. */
  function OpenedBy(db: int, op: Operand): int {
    if op.DbVar? && op.number.Some? then op.number.value else db
  }

  /** Pass one parameter. */
  function Passed(c: Ctx, s: Passing, p: Param): Option<Passing> {
    var d, ref := Direct(c, p.op), ByReference(c, p.op);
    if d.None? then None
    else if ref.Some? then Some(s.(refs := s.refs[p.field := ref.value]))
    else CopiedToVL(c, s.(db := OpenedBy(s.db, p.op)), p, d.value)
  }

  function CopiedToVL(c: Ctx, s: Passing, p: Param, op: Operand): Option<Passing>
    requires !op.Named?
  {
    match Allocated(s.alloc, op.width)
    case None => None
    case Some((offset, next)) =>
      match ValueOf(c.(db := s.db), s.mem, op)
      case None => None
      case Some(n) =>
        match StoreAt(s.mem, Place(LocalData(c.depth), offset, op.width), n)
        case None => None
        case Some(m) =>
          var back := p.outbound && !op.Imm?;
          Some(Passing(m, next, s.db, s.refs[p.field := VLVar(offset, op.width)],
                       if back then s.outs + [p] else s.outs,
                       if back then s.scratch[p.id := Scratch(offset, op.width)] else s.scratch))
  }

  function AllPassed(c: Ctx, s: Passing, ps: seq<Param>): Option<Passing>
    decreases |ps|
  {
    if ps == [] then Some(s)
    else
      match AllPassed(c, s, ps[..|ps| - 1])
      case None => None
      case Some(t) => Passed(c, t, ps[|ps| - 1])
  }

  // ----- the exit

  /** Copy one outbound parameter back; `c` is the caller with the registers at the exit. */
  function CopiedOut(c: Ctx, m: Mem, p: Param, scratch: map<nat, Scratch>): Option<Mem> {
    if p.id !in scratch then None
    else
      var n := ValueOf(c, m, LVar(scratch[p.id].offset, scratch[p.id].width));
      if n.None? then None else Delivered1(m, Locate(c, p.op), n.value)
  }

  function Delivered1(m: Mem, at: Option<Place>, n: int): Option<Mem> {
    if at.None? then None else StoreAt(m, at.value, n)
  }

  /** Copy the outbound parameters back, in their order. */
  function WrittenBack(c: Ctx, m: Mem, outs: seq<Param>, scratch: map<nat, Scratch>): Option<Mem>
    decreases |outs|
  {
    if outs == [] then Some(m)
    else
      match WrittenBack(c, m, outs[..|outs| - 1], scratch)
      case None => None
      case Some(t) => CopiedOut(c, t, outs[|outs| - 1], scratch)
  }

  // ----- what is set up when all parameters have been passed

  /** The DB that is open when the parameters have been evaluated. */
  function DbAfter(db: int, ps: seq<Param>): int {
    if ps == [] then db else OpenedBy(DbAfter(db, ps[..|ps| - 1]), ps[|ps| - 1].op)
  }

  function DirectOr0(c: Ctx, op: Operand): (r: Operand)
    ensures !r.Named?
  {
    if Direct(c, op).Some? then Direct(c, op).value else Imm(0, 1)
  }

  predicate Copied(c: Ctx, op: Operand) {
    ByReference(c, op).None?
  }

  predicate CopiedBack(c: Ctx, p: Param) {
    Copied(c, p.op) && p.outbound && !DirectOr0(c, p.op).Imm?
  }

  /** The value of parameter `i` at the call. */
  function AtCall(c: Ctx, s0: Passing, ps: seq<Param>, i: nat): Option<int>
    requires i < |ps|
  {
    ValueOf(c.(db := DbAfter(s0.db, ps[..i + 1])), s0.mem, DirectOr0(c, ps[i].op))
  }

  function Outs(c: Ctx, ps: seq<Param>): seq<Param> {
    if ps == [] then []
    else if CopiedBack(c, ps[|ps| - 1]) then Outs(c, ps[..|ps| - 1]) + [ps[|ps| - 1]]
    else Outs(c, ps[..|ps| - 1])
  }

  function Lo(k: Operand): nat
    requires k.VLVar?
  {
    ToBitOffset(k.offset)
  }

  function Hi(k: Operand): nat
    requires k.VLVar?
  {
    ToBitOffset(k.offset) + k.width
  }

  /** A copied parameter has its own scratch space, which holds the value of the actual parameter. */
  ghost predicate CopySetUp(c: Ctx, s0: Passing, s: Passing, p: Param, value: Option<int>) {
    var w := DirectOr0(c, p.op).width;
    && p.field in s.refs
    && var k := s.refs[p.field];
       && k.VLVar? && k.width == w && BasicWidth(w) && Slot(k.offset, w)
       && Mark(s0.alloc) <= Lo(k) && Hi(k) <= Mark(s.alloc)
       && value.Some? && FetchAt(s.mem, Place(LocalData(c.depth), k.offset, w)) == Some(Kept(w, value.value))
       && (CopiedBack(c, p) ==> p.id in s.scratch && s.scratch[p.id] == Scratch(k.offset, w))
  }

  ghost predicate Framed(c: Ctx, s0: Passing, ps: seq<Param>, s: Passing) {
    && ValidState(s.alloc) && Mark(s0.alloc) <= Mark(s.alloc)
    && SameOutside(s0.mem, s.mem, LocalData(c.depth))
    && s.db == DbAfter(s0.db, ps) && s.outs == s0.outs + Outs(c, ps)
  }

  ghost predicate EachSetUp(c: Ctx, s0: Passing, ps: seq<Param>, s: Passing) {
    forall i :: 0 <= i < |ps| ==>
      if Copied(c, ps[i].op) then CopySetUp(c, s0, s, ps[i], AtCall(c, s0, ps, i))
      else ps[i].field in s.refs && Some(s.refs[ps[i].field]) == ByReference(c, ps[i].op)
  }

  /** The scratch spaces lie one behind the other. */
  ghost predicate InOrder(c: Ctx, ps: seq<Param>, refs: map<nat, Operand>) {
    forall i, j :: 0 <= i < j < |ps| && Copied(c, ps[i].op) && Copied(c, ps[j].op) ==>
      && ps[i].field in refs && refs[ps[i].field].VLVar? && ps[j].field in refs && refs[ps[j].field].VLVar?
      && Hi(refs[ps[i].field]) <= Lo(refs[ps[j].field])
  }

  ghost predicate SetUp(c: Ctx, s0: Passing, ps: seq<Param>, s: Passing) {
    Framed(c, s0, ps, s) && EachSetUp(c, s0, ps, s) && InOrder(c, ps, s.refs)
  }

  /** A copied operand is never in the caller's own L-stack. */
  lemma CopiedIsElsewhere(c: Ctx, db: int, op: Operand, m: Mem, t: Mem)
    requires ValidCtx(c) && ValidOperand(op) && Direct(c, op).Some? && Copied(c, op)
    requires SameOutside(m, t, LocalData(c.depth))
    ensures var d := DirectOr0(c, op);
            && (PlaceOf(c.(db := db), d).Some? ==> PlaceOf(c.(db := db), d).value.space != LocalData(c.depth))
            && ValueOf(c.(db := db), m, d) == ValueOf(c.(db := db), t, d)
  {
    hide Fetched, FromPointer, Add;
  }

  /** What a copy to the caller's L-stack does. */
  lemma CopyIsFresh(c: Ctx, t: Passing, p: Param, op: Operand, s: Passing)
    requires !op.Named? && BasicWidth(op.width) && ValidState(t.alloc) && CopiedToVL(c, t, p, op) == Some(s)
    ensures p.field in s.refs
    ensures var k, n, back := s.refs[p.field], ValueOf(c.(db := t.db), t.mem, op), p.outbound && !op.Imm?;
            && ValidState(s.alloc) && k.VLVar? && k.width == op.width && Slot(k.offset, op.width)
            && Mark(t.alloc) <= Lo(k) && Hi(k) <= Mark(s.alloc) && n.Some?
            && StoreAt(t.mem, Place(LocalData(c.depth), k.offset, op.width), n.value) == Some(s.mem)
            && s.db == t.db && s.refs == t.refs[p.field := k] && s.outs == (if back then t.outs + [p] else t.outs)
            && s.scratch == (if back then t.scratch[p.id := Scratch(k.offset, op.width)] else t.scratch)
  {
    hide Stored, StoreFits, Fetched, ValueOf, Allocated, StoreAt;
    AllocatedIsFresh(t.alloc, op.width);
  }

  /** A store behind the scratch space of a parameter leaves it set up. */
  lemma OlderCopyStays(c: Ctx, s0: Passing, t: Passing, s: Passing, q: Param, value: Option<int>, at: Place, n: int)
    requires CopySetUp(c, s0, t, q, value)
    requires q.field in s.refs && s.refs[q.field] == t.refs[q.field]
    requires q.id in t.scratch ==> q.id in s.scratch && s.scratch[q.id] == t.scratch[q.id]
    requires Mark(t.alloc) <= Mark(s.alloc)
    requires SlotAt(at) && at.space == LocalData(c.depth) && Mark(t.alloc) <= ToBitOffset(at.offset)
    requires StoreAt(t.mem, at, n) == Some(s.mem)
    ensures CopySetUp(c, s0, s, q, value)
  {
    hide StoreAt, FetchAt, Mark, CopiedBack, DirectOr0;
    var k := t.refs[q.field];
    FetchAfterOtherStore(t.mem, at, n, Place(LocalData(c.depth), k.offset, k.width));
  }

  /** A new parameter that is copied is set up. */
  lemma NewCopyIsSetUp(c: Ctx, s0: Passing, ps: seq<Param>, t: Passing, p: Param, s: Passing)
    requires ValidCtx(c) && ValidOperand(p.op) && Copied(c, p.op)
    requires ValidState(t.alloc) && Mark(s0.alloc) <= Mark(t.alloc) && t.db == DbAfter(s0.db, ps)
    requires SameOutside(s0.mem, t.mem, LocalData(c.depth)) && Passed(c, t, p) == Some(s)
    ensures CopySetUp(c, s0, s, p, AtCall(c, s0, ps + [p], |ps|))
  {
    var d := DirectOr0(c, p.op);
    LastAtCall(c, s0, ps, p);
    assert Basic(d) && (Direct(c, p.op) == Some(d)) && ByReference(c, p.op).None?;
    hide StoreAt, FetchAt, CopiedToVL, ValueOf, Mark, ToBitOffset, DbAfter, AtCall, ByReference, PlaceOf, Allocated;
    CopiedIsElsewhere(c, DbAfter(s0.db, ps + [p]), p.op, s0.mem, t.mem);
    CopyIsFresh(c, t.(db := OpenedBy(t.db, p.op)), p, d, s);
    var k := s.refs[p.field];
    FetchAfterStore(t.mem, Place(LocalData(c.depth), k.offset, d.width), AtCall(c, s0, ps + [p], |ps|).value);
  }

  lemma LastAtCall(c: Ctx, s0: Passing, ps: seq<Param>, p: Param)
    ensures DbAfter(s0.db, ps + [p]) == OpenedBy(DbAfter(s0.db, ps), p.op)
    ensures AtCall(c, s0, ps + [p], |ps|) == ValueOf(c.(db := DbAfter(s0.db, ps + [p])), s0.mem, DirectOr0(c, p.op))
  {
    assert (ps + [p])[..|ps| + 1] == ps + [p] && (ps + [p])[..|ps|] == ps;
  }

  lemma PrefixFacts(c: Ctx, s0: Passing, ps: seq<Param>, p: Param, i: nat)
    requires i < |ps|
    ensures AtCall(c, s0, ps + [p], i) == AtCall(c, s0, ps, i)
    ensures Outs(c, ps + [p]) == if CopiedBack(c, p) then Outs(c, ps) + [p] else Outs(c, ps)
    ensures DbAfter(s0.db, ps + [p]) == OpenedBy(DbAfter(s0.db, ps), p.op)
  {
    assert (ps + [p])[..i + 1] == ps[..i + 1];
    assert (ps + [p])[..|ps|] == ps;
  }

  /** Every earlier parameter is left set up by the passing of a new one. */
  lemma OlderParamStays(c: Ctx, s0: Passing, ps: seq<Param>, t: Passing, p: Param, s: Passing, i: nat)
    requires ValidCtx(c) && ValidOperand(p.op) && SetUp(c, s0, ps, t) && Passed(c, t, p) == Some(s)
    requires i < |ps| && ps[i].field != p.field && ps[i].id != p.id
    ensures ps[i].field in s.refs && s.refs[ps[i].field] == t.refs[ps[i].field] && Mark(t.alloc) <= Mark(s.alloc)
    ensures Copied(c, ps[i].op) ==> CopySetUp(c, s0, s, ps[i], AtCall(c, s0, ps, i))
  {
    if Copied(c, p.op) {
      var d := DirectOr0(c, p.op);
      assert BasicWidth(d.width);
      hide StoreAt, FetchAt, CopiedToVL, ValueOf, Mark, ToBitOffset, AtCall, Copied, DbAfter;
      var t' := t.(db := OpenedBy(t.db, p.op));
      CopyIsFresh(c, t', p, d, s);
      var k := s.refs[p.field];
      if Copied(c, ps[i].op) {
        var at, n := Place(LocalData(c.depth), k.offset, d.width), ValueOf(c.(db := t'.db), t'.mem, d).value;
        OlderCopyStays(c, s0, t, s, ps[i], AtCall(c, s0, ps, i), at, n);
      }
    }
  }

  /** The frame of one passed parameter. */
  lemma PassedFrame(c: Ctx, s0: Passing, ps: seq<Param>, t: Passing, p: Param, s: Passing)
    requires ValidCtx(c) && ValidOperand(p.op) && SetUp(c, s0, ps, t) && Passed(c, t, p) == Some(s)
    ensures ValidState(s.alloc) && Mark(s0.alloc) <= Mark(s.alloc)
    ensures SameOutside(s0.mem, s.mem, LocalData(c.depth))
    ensures s.db == OpenedBy(t.db, p.op) && s.outs == if CopiedBack(c, p) then t.outs + [p] else t.outs
  {
    if Copied(c, p.op) {
      var d := DirectOr0(c, p.op);
      assert BasicWidth(d.width);
      hide StoreAt, FetchAt, CopiedToVL, ValueOf, Mark, ToBitOffset, AtCall, DbAfter;
      var t' := t.(db := OpenedBy(t.db, p.op));
      CopyIsFresh(c, t', p, d, s);
      StoreStaysInside(t.mem, Place(LocalData(c.depth), s.refs[p.field].offset, d.width), ValueOf(c.(db := t'.db),
              t'.mem, d).value);
    }
  }

  lemma EachStep(c: Ctx, s0: Passing, ps: seq<Param>, t: Passing, p: Param, s: Passing)
    requires ValidCtx(c) && ValidParams(ps + [p]) && SetUp(c, s0, ps, t) && Passed(c, t, p) == Some(s)
    ensures EachSetUp(c, s0, ps + [p], s)
  {
    var all := ps + [p];
    assert ValidOperand(all[|ps|].op);
    hide CopySetUp, AtCall, Mark, CopiedToVL, Copied, InOrder, DbAfter, Outs, ValidOperand, ValidCtx, ByReference,
      Passed, SetUp;
    assert Framed(c, s0, ps, t) && EachSetUp(c, s0, ps, t) by { SetUpParts(c, s0, ps, t); }
    forall i | 0 <= i < |all|
      ensures if Copied(c, all[i].op) then CopySetUp(c, s0, s, all[i], AtCall(c, s0, all, i))
              else all[i].field in s.refs && Some(s.refs[all[i].field]) == ByReference(c, all[i].op)
    {
      if i < |ps| {
        assert all[i] == ps[i] && all[i].field != all[|ps|].field && all[i].id != all[|ps|].id;
        PrefixFacts(c, s0, ps, p, i);
        OlderParamStays(c, s0, ps, t, p, s, i);
      } else if Copied(c, p.op) {
        NewCopyIsSetUp(c, s0, ps, t, p, s);
      } else {
        ReferenceIsRecorded(c, t, p, s);
      }
    }
  }

  lemma SetUpParts(c: Ctx, s0: Passing, ps: seq<Param>, s: Passing)
    requires SetUp(c, s0, ps, s)
    ensures Framed(c, s0, ps, s) && EachSetUp(c, s0, ps, s) && InOrder(c, ps, s.refs)
  {
    hide Framed, EachSetUp, InOrder;
  }

  lemma ReferenceIsRecorded(c: Ctx, t: Passing, p: Param, s: Passing)
    requires Passed(c, t, p) == Some(s) && !Copied(c, p.op)
    ensures p.field in s.refs && Some(s.refs[p.field]) == ByReference(c, p.op)
  {
  }

  /** The scratch space of a copied parameter starts behind everything allocated before. */
  lemma CopyIsBehind(c: Ctx, t: Passing, p: Param, s: Passing)
    requires ValidCtx(c) && ValidOperand(p.op) && ValidState(t.alloc) && Passed(c, t, p) == Some(s) && Copied(c, p.op)
    ensures p.field in s.refs && s.refs[p.field].VLVar? && Mark(t.alloc) <= Lo(s.refs[p.field])
  {
    var d := DirectOr0(c, p.op);
    assert BasicWidth(d.width);
    hide StoreAt, ValueOf, Mark, CopiedToVL;
    CopyIsFresh(c, t.(db := OpenedBy(t.db, p.op)), p, d, s);
  }

  lemma OrderStep(c: Ctx, s0: Passing, ps: seq<Param>, t: Passing, p: Param, s: Passing)
    requires ValidCtx(c) && ValidParams(ps + [p]) && SetUp(c, s0, ps, t) && Passed(c, t, p) == Some(s)
    ensures InOrder(c, ps + [p], s.refs)
  {
    var all := ps + [p];
    assert ValidOperand(all[|ps|].op);
    forall i, j | 0 <= i < j < |all| && Copied(c, all[i].op) && Copied(c, all[j].op)
      ensures all[i].field in s.refs && s.refs[all[i].field].VLVar?
      ensures all[j].field in s.refs && s.refs[all[j].field].VLVar?
      ensures Hi(s.refs[all[i].field]) <= Lo(s.refs[all[j].field])
    {
      hide AtCall, Mark, CopiedToVL, Copied, DbAfter, Outs, ValidOperand, ValidCtx, ByReference, Passed, SetUp, Lo, Hi;
      SetUpParts(c, s0, ps, t);
      assert all[i] == ps[i] && all[i].field != all[|ps|].field && all[i].id != all[|ps|].id;
      OlderParamStays(c, s0, ps, t, p, s, i);
      if j < |ps| {
        assert all[j] == ps[j] && all[j].field != all[|ps|].field && all[j].id != all[|ps|].id;
        OlderParamStays(c, s0, ps, t, p, s, j);
      } else {
        CopyIsBehind(c, t, p, s);
      }
    }
  }

  lemma FramedStep(c: Ctx, s0: Passing, ps: seq<Param>, t: Passing, p: Param, s: Passing)
    requires ValidCtx(c) && ValidOperand(p.op) && SetUp(c, s0, ps, t) && Passed(c, t, p) == Some(s)
    ensures Framed(c, s0, ps + [p], s)
  {
    hide EachSetUp, InOrder, Passed, Mark, CopiedBack, OpenedBy, Outs, DbAfter, SameOutside, ValidState, ValidCtx,
      ValidOperand;
    SetUpParts(c, s0, ps, t);
    PassedFrame(c, s0, ps, t, p, s);
    SnocFacts(c, s0, ps, p);
  }

  lemma SnocFacts(c: Ctx, s0: Passing, ps: seq<Param>, p: Param)
    ensures s0.outs + Outs(c, ps + [p])
            == if CopiedBack(c, p) then s0.outs + Outs(c, ps) + [p] else s0.outs + Outs(c, ps)
    ensures DbAfter(s0.db, ps + [p]) == OpenedBy(DbAfter(s0.db, ps), p.op)
  {
    assert (ps + [p])[..|ps|] == ps;
  }

  lemma PassedStep(c: Ctx, s0: Passing, ps: seq<Param>, t: Passing, p: Param, s: Passing)
    requires ValidCtx(c) && ValidParams(ps + [p]) && SetUp(c, s0, ps, t) && Passed(c, t, p) == Some(s)
    ensures SetUp(c, s0, ps + [p], s)
  {
    assert ValidOperand((ps + [p])[|ps|].op);
    EachStep(c, s0, ps, t, p, s);
    OrderStep(c, s0, ps, t, p, s);
    FramedStep(c, s0, ps, t, p, s);
    hide EachSetUp, InOrder, Framed, Passed, ValidParams, ValidCtx;
  }

  /** Passing parameters sets all of them up. */
  lemma {:induction false} AllPassedIsSetUp(c: Ctx, s0: Passing, ps: seq<Param>)
    requires ValidCtx(c) && ValidParams(ps) && ValidState(s0.alloc) && AllPassed(c, s0, ps).Some?
    ensures SetUp(c, s0, ps, AllPassed(c, s0, ps).value)
    decreases |ps|
  {
    if ps != [] {
      var front := ps[..|ps| - 1];
      assert ps == front + [ps[|ps| - 1]];
      AllPassedIsSetUp(c, s0, front);
      hide SetUp, Passed;
      PassedStep(c, s0, front, AllPassed(c, s0, front).value, ps[|ps| - 1], AllPassed(c, s0, ps).value);
    }
  }

  // ----- the run of the called FC

  /** What the FC can do to memory and registers, also by calling further blocks. */
  datatype Event = StoreParam(field: nat, n: int) | StoreElsewhere(place: Place, n: int) | SetDbs(db: int, di: int)

  datatype Running = Running(mem: Mem, db: int, di: int)

  /** The called FC, while the registers are as in `r`. */
  function Callee(c: Ctx, refs: map<nat, Operand>, r: Running): Ctx {
    Ctx(c.depth + 1, false, r.db, r.di, c.ar2, refs)
  }

  function Happened(c: Ctx, refs: map<nat, Operand>, r: Running, e: Event): Option<Running> {
    match e
    case SetDbs(db, di) => Some(r.(db := db, di := di))
    case StoreElsewhere(p, n) => Written(r, Some(p), n)
    case StoreParam(f, n) => Written(r, Locate(Callee(c, refs, r), Named(f)), n)
  }

  function Written(r: Running, p: Option<Place>, n: int): Option<Running> {
    if p.None? || StoreAt(r.mem, p.value, n).None? then None else Some(r.(mem := StoreAt(r.mem, p.value, n).value))
  }

  function Ran(c: Ctx, refs: map<nat, Operand>, r: Running, es: seq<Event>): Option<Running>
    decreases |es|
  {
    if es == [] then Some(r)
    else
      match Ran(c, refs, r, es[..|es| - 1])
      case None => None
      case Some(t) => Happened(c, refs, t, es[|es| - 1])
  }

  /** The FC reaches the scratch spaces through its parameters only, and has no others than the passed ones. */
  ghost predicate Legal(c: Ctx, ps: seq<Param>, refs: map<nat, Operand>, e: Event) {
    && (e.StoreElsewhere? ==> OffScratch(c, ps, refs, e.place))
    && (e.StoreParam? ==> exists i :: 0 <= i < |ps| && ps[i].field == e.field)
  }

  predicate IsScratch(c: Ctx, p: Param, refs: map<nat, Operand>) {
    Copied(c, p.op) && p.field in refs && refs[p.field].VLVar?
  }

  /** A place that is not in the caller's L-stack, or does not touch the scratch spaces there. */
  ghost predicate OffScratch(c: Ctx, ps: seq<Param>, refs: map<nat, Operand>, place: Place) {
    place.space == LocalData(c.depth) ==>
      && SlotAt(place)
      && forall i :: 0 <= i < |ps| && IsScratch(c, ps[i], refs) ==> Apart(place, ScratchPlace(c, refs[ps[i].field]))
  }

  ghost predicate AllLegal(c: Ctx, ps: seq<Param>, refs: map<nat, Operand>, es: seq<Event>) {
    forall k :: 0 <= k < |es| ==> Legal(c, ps, refs, es[k])
  }

  /** The caller's own L operands lie in the bytes that are reserved for direct accesses. */
  ghost predicate OwnBelow(ps: seq<Param>, mark: nat) {
    forall i :: 0 <= i < |ps| && ps[i].op.LVar? ==> ToBitOffset(ps[i].op.offset) + ps[i].op.width <= mark
  }

  /** The last value stored to a field, or the one it had at the start. */
  function LastStored(es: seq<Event>, field: nat, width: nat, start: int): int {
    if es == [] then start
    else
      match es[|es| - 1]
      case StoreParam(f, n) => if f == field then Kept(width, n) else LastStored(es[..|es| - 1], field, width, start)
      case _ => LastStored(es[..|es| - 1], field, width, start)
  }

  /** The bytes a block reserves for direct accesses contain its L operands. */
  lemma AccountedIsBelow(ps: seq<Param>, tempAllocation: nat, s0: Passing)
    requires forall i :: 0 <= i < |ps| && ps[i].op.LVar? ==>
               DirectEnd(LAccess(ps[i].op.offset, ps[i].op.width)) <= tempAllocation
    requires 8 * tempAllocation <= Mark(s0.alloc)
    ensures OwnBelow(ps, Mark(s0.alloc))
  {
    forall i | 0 <= i < |ps| && ps[i].op.LVar?
      ensures ToBitOffset(ps[i].op.offset) + ps[i].op.width <= Mark(s0.alloc)
    {
      hide DirectEnd, ToBitOffset, Mark;
      DirectEndCovers(ps[i].op.offset, ps[i].op.width);
    }
  }

  function ScratchPlace(c: Ctx, k: Operand): Place
    requires k.VLVar?
  {
    Place(LocalData(c.depth), k.offset, k.width)
  }

  /** The scratch space of a parameter lies above everything that was taken before the call. */
  lemma ScratchIsAbove(c: Ctx, s0: Passing, ps: seq<Param>, s: Passing, i: nat)
    requires SetUp(c, s0, ps, s) && i < |ps| && Copied(c, ps[i].op)
    ensures ps[i].field in s.refs && s.refs[ps[i].field].VLVar? && SlotAt(ScratchPlace(c, s.refs[ps[i].field]))
    ensures Mark(s0.alloc) <= Lo(s.refs[ps[i].field])
  {
    hide AtCall, Copied, Mark, FetchAt, Kept, InOrder, Framed, CopiedBack;
    assert CopySetUp(c, s0, s, ps[i], AtCall(c, s0, ps, i));
  }

  lemma ScratchesAreApart(c: Ctx, s0: Passing, ps: seq<Param>, s: Passing, i: nat, j: nat)
    requires SetUp(c, s0, ps, s) && i < |ps| && j < |ps| && i != j && Copied(c, ps[i].op) && Copied(c, ps[j].op)
    ensures ps[i].field in s.refs && s.refs[ps[i].field].VLVar? && ps[j].field in s.refs && s.refs[ps[j].field].VLVar?
    ensures Hi(s.refs[ps[i].field]) <= Lo(s.refs[ps[j].field]) || Hi(s.refs[ps[j].field]) <= Lo(s.refs[ps[i].field])
  {
    hide EachSetUp, Framed, Copied, Hi, Lo;
    if i < j {
      assert Hi(s.refs[ps[i].field]) <= Lo(s.refs[ps[j].field]);
    } else {
      assert Hi(s.refs[ps[j].field]) <= Lo(s.refs[ps[i].field]);
    }
  }

  /** A reference to one of the caller's own L operands lies in the bytes reserved for them. */
  lemma ReferenceIsBelow(c: Ctx, op: Operand, refs: map<nat, Operand>, field: nat, r: Running, mark: nat)
    requires ValidCtx(c) && ValidOperand(op) && field in refs && Some(refs[field]) == ByReference(c, op)
    requires op.LVar? ==> ToBitOffset(op.offset) + op.width <= mark
    requires Locate(Callee(c, refs, r), Named(field)).Some?
    ensures var at := Locate(Callee(c, refs, r), Named(field)).value;
            at.space == LocalData(c.depth) ==> SlotAt(at) && ToBitOffset(at.offset) + at.width <= mark
  {
    hide Add, FromPointer, ToBitOffset;
  }

  lemma CopyPlace(c: Ctx, refs: map<nat, Operand>, field: nat, r: Running)
    requires field in refs && refs[field].VLVar?
    ensures Locate(Callee(c, refs, r), Named(field)) == Some(ScratchPlace(c, refs[field]))
  {
  }

  /** Where a store to the FC's parameter `j` goes: into the scratch space of `j`, or nowhere near that of `i`. */
  lemma ParamStoreIsApart(c: Ctx, s0: Passing, ps: seq<Param>, s: Passing, r: Running, i: nat, j: nat)
    requires ValidCtx(c) && ValidParams(ps) && SetUp(c, s0, ps, s) && OwnBelow(ps, Mark(s0.alloc))
    requires i < |ps| && j < |ps| && i != j && Copied(c, ps[i].op)
    requires Locate(Callee(c, s.refs, r), Named(ps[j].field)).Some?
    ensures ps[i].field in s.refs && s.refs[ps[i].field].VLVar?
    ensures var at := Locate(Callee(c, s.refs, r), Named(ps[j].field)).value;
            var mine := ScratchPlace(c, s.refs[ps[i].field]);
            SlotAt(mine) && Apart(at, mine) && (at.space == mine.space ==> SlotAt(at))
  {
    hide SetUp, ValidParams, ValidCtx, Copied, Mark, ToBitOffset, Locate, SlotAt, ByReference, Callee;
    ScratchIsAbove(c, s0, ps, s, i);
    if Copied(c, ps[j].op) {
      ScratchIsAbove(c, s0, ps, s, j);
      ScratchesAreApart(c, s0, ps, s, i, j);
      CopyPlace(c, s.refs, ps[j].field, r);
    } else {
      ReferenceIsSetUp(c, s0, ps, s, j);
      ReferenceIsBelow(c, ps[j].op, s.refs, ps[j].field, r, Mark(s0.alloc));
    }
  }

  lemma ScratchIsSlot(c: Ctx, s0: Passing, ps: seq<Param>, s: Passing, i: nat)
    requires SetUp(c, s0, ps, s) && i < |ps| && Copied(c, ps[i].op)
    ensures ps[i].field in s.refs
    ensures var k, w := s.refs[ps[i].field], DirectOr0(c, ps[i].op).width;
            && k.VLVar? && k.width == w && SlotAt(ScratchPlace(c, k)) && AtCall(c, s0, ps, i).Some?
            && FetchAt(s.mem, ScratchPlace(c, k)) == Some(Kept(w, AtCall(c, s0, ps, i).value))
            && (CopiedBack(c, ps[i]) ==> ps[i].id in s.scratch && s.scratch[ps[i].id] == Scratch(k.offset, w))
  {
    hide AtCall, Copied, Mark, FetchAt, Kept, InOrder, Framed, CopiedBack;
    assert CopySetUp(c, s0, s, ps[i], AtCall(c, s0, ps, i));
  }

  /** One event changes the value of a copied parameter only if it stores to that parameter. */
  lemma EventKeepsScratch(c: Ctx, s0: Passing, ps: seq<Param>, s: Passing, r: Running, e: Event, i: nat)
    requires ValidCtx(c) && ValidParams(ps) && SetUp(c, s0, ps, s) && OwnBelow(ps, Mark(s0.alloc))
    requires i < |ps| && Copied(c, ps[i].op) && Legal(c, ps, s.refs, e) && Happened(c, s.refs, r, e).Some?
    ensures ps[i].field in s.refs && s.refs[ps[i].field].VLVar?
    ensures var k := s.refs[ps[i].field];
            var after := FetchAt(Happened(c, s.refs, r, e).value.mem, ScratchPlace(c, k));
            if e.StoreParam? && e.field == ps[i].field then after == Some(Kept(k.width, e.n))
            else after == FetchAt(r.mem, ScratchPlace(c, k))
  {
    hide SetUp, AtCall, Mark, Copied;
    ScratchIsSlot(c, s0, ps, s, i);
    var k := s.refs[ps[i].field];
    hide StoreAt, FetchAt, EachSetUp, CopySetUp, Kept, Copied;
    match e {
      case SetDbs(_, _) =>
      case StoreElsewhere(p, n) =>
        FetchAfterOtherStore(r.mem, p, n, ScratchPlace(c, k));
      case StoreParam(f, n) =>
        var at := Locate(Callee(c, s.refs, r), Named(f)).value;
        if f == ps[i].field {
          assert at == ScratchPlace(c, k);
          FetchAfterStore(r.mem, at, n);
        } else {
          var j :| 0 <= j < |ps| && ps[j].field == f;
          ParamStoreIsApart(c, s0, ps, s, r, i, j);
          FetchAfterOtherStore(r.mem, at, n, ScratchPlace(c, k));
        }
    }
  }

  /** The scratch space of a parameter holds the last value that the FC stored to it. */
  lemma {:induction false} ScratchHoldsLast(c: Ctx, s0: Passing, ps: seq<Param>, s: Passing, r0: Running,
                                            es: seq<Event>, i: nat)
    requires ValidCtx(c) && ValidParams(ps) && SetUp(c, s0, ps, s) && OwnBelow(ps, Mark(s0.alloc))
    requires AllLegal(c, ps, s.refs, es) && i < |ps| && Copied(c, ps[i].op)
    requires r0.mem == s.mem && Ran(c, s.refs, r0, es).Some?
    ensures ps[i].field in s.refs && s.refs[ps[i].field].VLVar? && AtCall(c, s0, ps, i).Some?
    ensures var k := s.refs[ps[i].field];
            FetchAt(Ran(c, s.refs, r0, es).value.mem, ScratchPlace(c, k))
            == Some(LastStored(es, ps[i].field, k.width, Kept(k.width, AtCall(c, s0, ps, i).value)))
    decreases |es|
  {
    hide Happened, SetUp, AtCall, Mark, StoreAt, FetchAt, Copied, Kept, OwnBelow, ScratchPlace, ValidParams;
    ScratchIsSlot(c, s0, ps, s, i);
    if es != [] {
      var front, e := es[..|es| - 1], es[|es| - 1];
      assert Legal(c, ps, s.refs, e);
      ScratchHoldsLast(c, s0, ps, s, r0, front, i);
      EventKeepsScratch(c, s0, ps, s, Ran(c, s.refs, r0, front).value, e, i);
    }
  }

  /** The value a copied parameter has at the end of a run. */
  function Final(c: Ctx, s0: Passing, ps: seq<Param>, es: seq<Event>, i: nat): int
    requires i < |ps| && AtCall(c, s0, ps, i).Some?
  {
    var w := DirectOr0(c, ps[i].op).width;
    LastStored(es, ps[i].field, w, Kept(w, AtCall(c, s0, ps, i).value))
  }

  lemma ReadThroughReference(c: Ctx, refs: map<nat, Operand>, r: Running, f: nat)
    requires f in refs && refs[f].VLVar?
    ensures ValueOf(Callee(c, refs, r), r.mem, Named(f)) == FetchAt(r.mem, ScratchPlace(c, refs[f]))
  {
  }

  /**
   Copy in: whatever the FC does, and even if the actual parameter changes meanwhile, the FC
   reads from a copied parameter what it stored there last, or else the value the actual
   parameter had at the call.
   */
  lemma CalleeReadsItsOwn(c: Ctx, s0: Passing, ps: seq<Param>, es: seq<Event>, i: nat)
    requires ValidCtx(c) && ValidParams(ps) && ValidState(s0.alloc) && OwnBelow(ps, Mark(s0.alloc))
    requires AllPassed(c, s0, ps).Some? && AllLegal(c, ps, AllPassed(c, s0, ps).value.refs, es)
    requires i < |ps| && Copied(c, ps[i].op)
    requires var s := AllPassed(c, s0, ps).value; Ran(c, s.refs, Running(s.mem, s.db, c.di), es).Some?
    ensures var s := AllPassed(c, s0, ps).value;
            var r := Ran(c, s.refs, Running(s.mem, s.db, c.di), es).value;
            && AtCall(c, s0, ps, i).Some?
            && ValueOf(Callee(c, s.refs, r), r.mem, Named(ps[i].field)) == Some(Final(c, s0, ps, es, i))
  {
    var s := AllPassed(c, s0, ps).value;
    hide Ran, SetUp, AtCall, Mark, AllPassed, FetchAt, Copied, Kept, OwnBelow, ValidParams, ValueOf, LastStored;
    hide Callee, ScratchPlace, ValidCtx, AllLegal;
    AllPassedIsSetUp(c, s0, ps);
    ScratchIsSlot(c, s0, ps, s, i);
    ReadThroughReference(c, s.refs, Ran(c, s.refs, Running(s.mem, s.db, c.di), es).value, ps[i].field);
    ScratchHoldsLast(c, s0, ps, s, Running(s.mem, s.db, c.di), es, i);
  }

  // ----- copying back

  /** Store a value at each of a list of places, one after the other. */
  function Delivered(m: Mem, targets: seq<(Option<Place>, int)>): Option<Mem>
    decreases |targets|
  {
    if targets == [] then Some(m)
    else
      match Delivered(m, targets[..|targets| - 1])
      case None => None
      case Some(t) => Delivered1(t, targets[|targets| - 1].0, targets[|targets| - 1].1)
  }

  /** The outbound parameters among the first `n`: where the actual parameter is at the exit, and the final value. */
  function Targets(c: Ctx, x: Ctx, s0: Passing, ps: seq<Param>, es: seq<Event>, n: nat): seq<(Option<Place>, int)>
    requires n <= |ps| && forall i :: 0 <= i < n && CopiedBack(c, ps[i]) ==> AtCall(c, s0, ps, i).Some?
  {
    if n == 0 then []
    else if CopiedBack(c, ps[n - 1]) then
      Targets(c, x, s0, ps, es, n - 1) + [(Locate(x, ps[n - 1].op), Final(c, s0, ps, es, n - 1))]
    else Targets(c, x, s0, ps, es, n - 1)
  }

  /** The caller after the exit of the FC: AR2 is restored, DB and DI are still the FC's. */
  function AtExit(c: Ctx, r: Running): Ctx {
    c.(db := r.db, di := r.di)
  }

  /** What the exit reads for a parameter: the caller's L-stack at the place that is recorded for it. */
  function Recorded(c: Ctx, m: Mem, p: Param, scratch: map<nat, Scratch>): Option<int> {
    if p.id !in scratch then None
    else FetchAt(m, Place(LocalData(c.depth), scratch[p.id].offset, scratch[p.id].width))
  }

  /** There is something to read for each parameter that is copied back. */
  ghost predicate Readable(c: Ctx, ps: seq<Param>, m: Mem, scratch: map<nat, Scratch>) {
    forall i :: 0 <= i < |ps| && CopiedBack(c, ps[i]) ==>
      ValidOperand(ps[i].op) && Direct(c, ps[i].op).Some? && Recorded(c, m, ps[i], scratch).Some?
  }

  /** The outbound parameters among the first `n`, with the values that are read for them. */
  function RecordedTargets(c: Ctx, x: Ctx, m: Mem, ps: seq<Param>, scratch: map<nat, Scratch>, n: nat)
      : seq<(Option<Place>, int)>
    requires n <= |ps| && forall i :: 0 <= i < n && CopiedBack(c, ps[i]) ==> Recorded(c, m, ps[i], scratch).Some?
  {
    if n == 0 then []
    else if CopiedBack(c, ps[n - 1]) then
      RecordedTargets(c, x, m, ps, scratch, n - 1)
      + [(Locate(x, ps[n - 1].op), Recorded(c, m, ps[n - 1], scratch).value)]
    else RecordedTargets(c, x, m, ps, scratch, n - 1)
  }

  /** The scratch space of each parameter that is copied back holds its final value. */
  ghost predicate Holds(c: Ctx, s0: Passing, ps: seq<Param>, es: seq<Event>, m: Mem, scratch: map<nat, Scratch>) {
    forall i :: 0 <= i < |ps| && CopiedBack(c, ps[i]) ==>
      && ValidOperand(ps[i].op) && Direct(c, ps[i].op).Some? && AtCall(c, s0, ps, i).Some?
      && Recorded(c, m, ps[i], scratch) == Some(Final(c, s0, ps, es, i))
  }

  /** Memory in which the caller's own L-stack is as in `m`. */
  ghost predicate SameLocal(c: Ctx, m: Mem, t: Mem) {
    LocalData(c.depth) in m ==> LocalData(c.depth) in t && t[LocalData(c.depth)] == m[LocalData(c.depth)]
  }

  /**
   One parameter is copied back as it was recorded. It does not land in the caller's own L-stack,
   where the values come from.
   */
  lemma CopiedOutIsRecorded(c: Ctx, x: Ctx, ps: seq<Param>, m: Mem, t: Mem, scratch: map<nat, Scratch>, i: nat)
    requires ValidCtx(c) && x == c.(db := x.db, di := x.di) && Readable(c, ps, m, scratch)
    requires i < |ps| && CopiedBack(c, ps[i]) && SameLocal(c, m, t)
    ensures Recorded(c, m, ps[i], scratch).Some?
    ensures var t' := CopiedOut(x, t, ps[i], scratch);
            && t' == Delivered1(t, Locate(x, ps[i].op), Recorded(c, m, ps[i], scratch).value)
            && (t'.Some? ==> SameLocal(c, m, t'.value))
  {
    assert Recorded(c, m, ps[i], scratch).Some? && ValidOperand(ps[i].op) && Direct(c, ps[i].op).Some?;
    var k := scratch[ps[i].id];
    hide Stored, StoreFits, Fetched, Add, FromPointer;
    assert ValueOf(x, t, LVar(k.offset, k.width)) == FetchAt(m, Place(LocalData(c.depth), k.offset, k.width));
  }

  lemma WrittenBackSnoc(c: Ctx, m: Mem, outs: seq<Param>, p: Param, scratch: map<nat, Scratch>)
    ensures WrittenBack(c, m, outs + [p], scratch)
            == match WrittenBack(c, m, outs, scratch) case None => None case Some(t) => CopiedOut(c, t, p, scratch)
  {
    assert (outs + [p])[..|outs|] == outs;
  }

  lemma DeliveredSnoc(m: Mem, targets: seq<(Option<Place>, int)>, at: Option<Place>, n: int)
    ensures Delivered(m, targets + [(at, n)])
            == match Delivered(m, targets) case None => None case Some(t) => Delivered1(t, at, n)
  {
    assert (targets + [(at, n)])[..|targets|] == targets;
  }

  /**
   Whatever is recorded, leaving the FC stores what the caller's L-stack holds at the recorded
   places to the actual parameters, one after the other in the order of the parameters. No store
   of an earlier one can spoil a later value.
   */
  lemma {:induction false} WrittenBackIsRecorded(c: Ctx, x: Ctx, ps: seq<Param>, m: Mem, scratch: map<nat, Scratch>,
                                                 n: nat)
    requires ValidCtx(c) && x == c.(db := x.db, di := x.di) && n <= |ps| && Readable(c, ps, m, scratch)
    ensures WrittenBack(x, m, Outs(c, ps[..n]), scratch) == Delivered(m, RecordedTargets(c, x, m, ps, scratch, n))
    ensures var t := WrittenBack(x, m, Outs(c, ps[..n]), scratch); t.Some? ==> SameLocal(c, m, t.value)
    decreases n
  {
    if n > 0 {
      var p, outs := ps[n - 1], Outs(c, ps[..n - 1]);
      assert ps[..n][..n - 1] == ps[..n - 1];
      assert Outs(c, ps[..n]) == if CopiedBack(c, p) then outs + [p] else outs;
      hide WrittenBack, Delivered, CopiedOut, Delivered1, Recorded, CopiedBack, SameLocal, Outs, Locate, ValidCtx;
      WrittenBackIsRecorded(c, x, ps, m, scratch, n - 1);
      var before := WrittenBack(x, m, outs, scratch);
      if CopiedBack(c, p) {
        WrittenBackSnoc(x, m, outs, p, scratch);
        DeliveredSnoc(m, RecordedTargets(c, x, m, ps, scratch, n - 1), Locate(x, p.op),
                      Recorded(c, m, p, scratch).value);
        if before.Some? {
          CopiedOutIsRecorded(c, x, ps, m, before.value, scratch, n - 1);
        }
      }
    }
  }

  lemma {:induction false} RecordedAreFinal(c: Ctx, x: Ctx, s0: Passing, ps: seq<Param>, es: seq<Event>, m: Mem,
                                            scratch: map<nat, Scratch>, n: nat)
    requires n <= |ps| && Holds(c, s0, ps, es, m, scratch)
    ensures RecordedTargets(c, x, m, ps, scratch, n) == Targets(c, x, s0, ps, es, n)
  {
    hide Recorded, CopiedBack, Locate, Final, AtCall;
    if n > 0 {
      RecordedAreFinal(c, x, s0, ps, es, m, scratch, n - 1);
    }
  }

  /** Copy out: if the scratch spaces hold the final values, these are what leaving the FC stores. */
  lemma WrittenBackIsDelivered(c: Ctx, x: Ctx, s0: Passing, ps: seq<Param>, es: seq<Event>, m: Mem,
                               scratch: map<nat, Scratch>, n: nat)
    requires ValidCtx(c) && x == c.(db := x.db, di := x.di) && n <= |ps| && Holds(c, s0, ps, es, m, scratch)
    ensures WrittenBack(x, m, Outs(c, ps[..n]), scratch) == Delivered(m, Targets(c, x, s0, ps, es, n))
  {
    assert Readable(c, ps, m, scratch) by { hide Recorded, CopiedBack, Final, AtCall; }
    hide *;
    WrittenBackIsRecorded(c, x, ps, m, scratch, n);
    RecordedAreFinal(c, x, s0, ps, es, m, scratch, n);
  }

  /** At the end of a run the scratch spaces hold the final values, if no other call has taken over their entries. */
  lemma RunHolds(c: Ctx, s0: Passing, ps: seq<Param>, es: seq<Event>, scratch: map<nat, Scratch>)
    requires ValidCtx(c) && ValidParams(ps) && ValidState(s0.alloc) && OwnBelow(ps, Mark(s0.alloc))
    requires AllPassed(c, s0, ps).Some? && AllLegal(c, ps, AllPassed(c, s0, ps).value.refs, es)
    requires var s := AllPassed(c, s0, ps).value;
             && Ran(c, s.refs, Running(s.mem, s.db, c.di), es).Some?
             && (forall i :: 0 <= i < |ps| && CopiedBack(c, ps[i]) && ps[i].id in s.scratch ==>
                   ps[i].id in scratch && scratch[ps[i].id] == s.scratch[ps[i].id])
    ensures var s := AllPassed(c, s0, ps).value;
            Holds(c, s0, ps, es, Ran(c, s.refs, Running(s.mem, s.db, c.di), es).value.mem, scratch)
  {
    var s := AllPassed(c, s0, ps).value;
    var r := Ran(c, s.refs, Running(s.mem, s.db, c.di), es).value;
    forall i | 0 <= i < |ps| && CopiedBack(c, ps[i])
      ensures ValidOperand(ps[i].op) && Direct(c, ps[i].op).Some? && AtCall(c, s0, ps, i).Some? && ps[i].id in scratch
      ensures FetchAt(r.mem, Place(LocalData(c.depth), scratch[ps[i].id].offset, scratch[ps[i].id].width))
              == Some(Final(c, s0, ps, es, i))
    {
      assert ValidOperand(ps[i].op) && Direct(c, ps[i].op).Some? && Copied(c, ps[i].op);
      hide Ran, SetUp, AtCall, Mark, AllPassed, FetchAt, Copied, Kept, OwnBelow, ValidParams, LastStored,
        CopiedBack, AllLegal, ValidCtx;
      AllPassedIsSetUp(c, s0, ps);
      ScratchIsSlot(c, s0, ps, s, i);
      ScratchHoldsLast(c, s0, ps, s, Running(s.mem, s.db, c.di), es, i);
    }
  }

  /**
   Copy in and copy out: for every run of the FC, its exit stores exactly the final values of
   the copied outbound parameters to the actual parameters, in the order of the parameters.
   The actual parameters are found with the DB and DI registers the FC has left.
   */
  lemma CopyInCopyOut(c: Ctx, s0: Passing, ps: seq<Param>, es: seq<Event>, scratch: map<nat, Scratch>)
    requires ValidCtx(c) && ValidParams(ps) && ValidState(s0.alloc) && OwnBelow(ps, Mark(s0.alloc)) && s0.outs == []
    requires AllPassed(c, s0, ps).Some? && AllLegal(c, ps, AllPassed(c, s0, ps).value.refs, es)
    requires var s := AllPassed(c, s0, ps).value;
             && Ran(c, s.refs, Running(s.mem, s.db, c.di), es).Some?
             && (forall i :: 0 <= i < |ps| && CopiedBack(c, ps[i]) && ps[i].id in s.scratch ==>
                   ps[i].id in scratch && scratch[ps[i].id] == s.scratch[ps[i].id])
    ensures forall i :: 0 <= i < |ps| && CopiedBack(c, ps[i]) ==> AtCall(c, s0, ps, i).Some?
    ensures var s := AllPassed(c, s0, ps).value;
            var r := Ran(c, s.refs, Running(s.mem, s.db, c.di), es).value;
            WrittenBack(AtExit(c, r), r.mem, s.outs, scratch)
            == Delivered(r.mem, Targets(c, AtExit(c, r), s0, ps, es, |ps|))
  {
    var s := AllPassed(c, s0, ps).value;
    var r := Ran(c, s.refs, Running(s.mem, s.db, c.di), es).value;
    hide Ran, AtCall, Mark, AllPassed, OwnBelow, ValidParams, CopiedBack, AllLegal, EachSetUp, InOrder,
      WrittenBack, Delivered, Outs;
    AllPassedIsSetUp(c, s0, ps);
    RunHolds(c, s0, ps, es, scratch);
    assert ps[..|ps|] == ps && s.outs == Outs(c, ps);
    WrittenBackIsDelivered(c, AtExit(c, r), s0, ps, es, r.mem, scratch, |ps|);
  }

  // ----- a CALL instruction that is active twice

  /**
   The exit reads the places that were recorded last for the parameters of the CALL instruction. If
   the instruction was active again meanwhile, these are those of the later call. The exit then
   delivers what the caller's L-stack holds there: its own final value, if the place is the same,
   and the final value of another parameter, if it is that one's.
   */
  lemma CopyOutOfRecords(c: Ctx, s0: Passing, ps: seq<Param>, es: seq<Event>, scratch: map<nat, Scratch>)
    requires ValidCtx(c) && ValidParams(ps) && ValidState(s0.alloc) && OwnBelow(ps, Mark(s0.alloc)) && s0.outs == []
    requires AllPassed(c, s0, ps).Some? && AllLegal(c, ps, AllPassed(c, s0, ps).value.refs, es)
    requires var s := AllPassed(c, s0, ps).value;
             && Ran(c, s.refs, Running(s.mem, s.db, c.di), es).Some?
             && Readable(c, ps, Ran(c, s.refs, Running(s.mem, s.db, c.di), es).value.mem, scratch)
    ensures var s := AllPassed(c, s0, ps).value;
            var r := Ran(c, s.refs, Running(s.mem, s.db, c.di), es).value;
            && WrittenBack(AtExit(c, r), r.mem, s.outs, scratch)
               == Delivered(r.mem, RecordedTargets(c, AtExit(c, r), r.mem, ps, scratch, |ps|))
            && forall i, j :: 0 <= i < |ps| && 0 <= j < |ps| && MeetsRecord(c, ps[i], scratch, ps[j], s.scratch) ==>
                 && AtCall(c, s0, ps, j).Some?
                 && Recorded(c, r.mem, ps[i], scratch) == Some(Final(c, s0, ps, es, j))
  {
    var s := AllPassed(c, s0, ps).value;
    var r := Ran(c, s.refs, Running(s.mem, s.db, c.di), es).value;
    AllPassedIsSetUp(c, s0, ps);
    assert s.outs == Outs(c, ps) by {
      hide AllPassed, EachSetUp, InOrder, Outs, Mark, SameOutside, DbAfter;
      assert [] + Outs(c, ps) == Outs(c, ps);
    }
    assert ps[..|ps|] == ps;
    assert AtExit(c, r) == c.(db := AtExit(c, r).db, di := AtExit(c, r).di);
    hide *;
    WrittenBackIsRecorded(c, AtExit(c, r), ps, r.mem, scratch, |ps|);
    forall i, j | 0 <= i < |ps| && 0 <= j < |ps| && MeetsRecord(c, ps[i], scratch, ps[j], s.scratch)
      ensures AtCall(c, s0, ps, j).Some? && Recorded(c, r.mem, ps[i], scratch) == Some(Final(c, s0, ps, es, j))
    {
      RecordMet(c, ps[i], scratch, ps[j], s.scratch);
      RunHolds(c, s0, ps, es, s.scratch);
      RecordIsRead(c, s0, ps, es, r.mem, s.scratch, j);
      ReadsTheSame(c, r.mem, ps[i], scratch, ps[j], s.scratch);
    }
  }

  /** The record of one parameter at the exit is that of another one at the call. */
  predicate MeetsRecord(c: Ctx, p: Param, a: map<nat, Scratch>, q: Param, b: map<nat, Scratch>) {
    CopiedBack(c, p) && CopiedBack(c, q) && SameRecord(a, p.id, b, q.id)
  }

  lemma RecordMet(c: Ctx, p: Param, a: map<nat, Scratch>, q: Param, b: map<nat, Scratch>)
    requires MeetsRecord(c, p, a, q, b)
    ensures CopiedBack(c, p) && CopiedBack(c, q) && SameRecord(a, p.id, b, q.id)
  {
    hide CopiedBack, SameRecord;
  }

  predicate SameRecord(a: map<nat, Scratch>, i: nat, b: map<nat, Scratch>, j: nat) {
    i in a && j in b && a[i] == b[j]
  }

  lemma ReadsTheSame(c: Ctx, m: Mem, p: Param, a: map<nat, Scratch>, q: Param, b: map<nat, Scratch>)
    requires SameRecord(a, p.id, b, q.id)
    ensures Recorded(c, m, p, a) == Recorded(c, m, q, b)
  {
    hide FetchAt;
  }

  lemma RecordIsRead(c: Ctx, s0: Passing, ps: seq<Param>, es: seq<Event>, m: Mem, scratch: map<nat, Scratch>, j: nat)
    requires Holds(c, s0, ps, es, m, scratch) && j < |ps| && CopiedBack(c, ps[j])
    ensures AtCall(c, s0, ps, j).Some? && Recorded(c, m, ps[j], scratch) == Some(Final(c, s0, ps, es, j))
  {
    hide Recorded, Final, AtCall, CopiedBack;
  }

  /**
   Two calls by the same instruction record the same place for a parameter exactly if both callers
   have used up the same part of their L-stacks before: for whole bytes, up to the next byte.
   */
  lemma RecordsMeet(c: Ctx, t: Passing, c': Ctx, t': Passing, p: Param)
    requires ValidState(t.alloc) && ValidState(t'.alloc) && CopiedBack(c, p) && CopiedBack(c', p)
    requires Passed(c, t, p).Some? && Passed(c', t', p).Some?
    requires DirectOr0(c, p.op).width == DirectOr0(c', p.op).width
    ensures SameRecord(Passed(c, t, p).value.scratch, p.id, Passed(c', t', p).value.scratch, p.id)
            <==> SameStart(t.alloc, t'.alloc, DirectOr0(c, p.op).width)
  {
    hide Allocated, StoreAt, ValueOf, SameStart;
    SameOffset(t.alloc, t'.alloc, DirectOr0(c, p.op).width);
  }

  /** After a sequence of stores, a place holds the last value stored to it if nothing later overlaps it. */
  lemma {:induction false} LastDeliveryWins(m: Mem, targets: seq<(Option<Place>, int)>, k: nat)
    requires k < |targets| && targets[k].0.Some? && SlotAt(targets[k].0.value) && Delivered(m, targets).Some?
    requires forall j :: k < j < |targets| && targets[j].0.Some? ==>
               Apart(targets[j].0.value, targets[k].0.value) && SlotAt(targets[j].0.value)
    ensures FetchAt(Delivered(m, targets).value, targets[k].0.value)
            == Some(Kept(targets[k].0.value.width, targets[k].1))
    decreases |targets|
  {
    var front, p := targets[..|targets| - 1], targets[k].0.value;
    var t, at, n := Delivered(m, front).value, targets[|targets| - 1].0, targets[|targets| - 1].1;
    hide StoreAt, FetchAt, Kept, Apart, SlotAt;
    if k == |targets| - 1 {
      FetchAfterStore(t, p, n);
    } else {
      LastDeliveryWins(m, front, k);
      FetchAfterOtherStore(t, at.value, n, p);
    }
  }

  /**
   An actual parameter is still the same at the exit exactly if the FC has left the register
   alone through which it is addressed: DI for data of an FB instance, DB for a DB operand
   that was itself handed on by reference.
   */
  lemma PlaceAtExit(c: Ctx, op: Operand, db: int, di: int)
    requires ValidCtx(c) && ValidOperand(op) && Locate(c, op).Some?
    ensures Locate(c.(db := db, di := di), op) == Locate(c, op)
            <==> && (DirectOr0(c, op).DiVar? ==> di == c.di)
                 && (DirectOr0(c, op).DbVar? && DirectOr0(c, op).number.None? ==> db == c.db)
  {
    hide Add, FromPointer;
  }

  /**
   A parameter that is handed on by reference means the actual parameter, looked up with the DB
   register at the time of the access. It is the one that was passed exactly as long as the FC
   has not opened another DB, if the actual parameter is in the open DB, and else at any time.
   */
  lemma ReferenceMeansActual(c: Ctx, s0: Passing, ps: seq<Param>, r: Running, i: nat)
    requires ValidCtx(c) && ValidParams(ps) && ValidState(s0.alloc) && AllPassed(c, s0, ps).Some?
    requires i < |ps| && !Copied(c, ps[i].op)
    ensures var place := Locate(Callee(c, AllPassed(c, s0, ps).value.refs, r), Named(ps[i].field));
            && place == Locate(c.(db := r.db), ps[i].op)
            && (Locate(c, ps[i].op).Some? ==>
                  (place == Locate(c, ps[i].op) <==> (DirectOr0(c, ps[i].op).DbVar? ==> r.db == c.db)))
  {
    hide *;
    AllPassedIsSetUp(c, s0, ps);
    ReferenceIsSetUp(c, s0, ps, AllPassed(c, s0, ps).value, i);
    ReferencePlace(c, ps[i].op, AllPassed(c, s0, ps).value.refs, ps[i].field, r);
    if Locate(c, ps[i].op).Some? {
      PlaceAtExit(c, ps[i].op, r.db, c.di);
      ReferenceIsUnqualified(c, ps[i].op);
      OnlyDb(c, r.db);
    }
  }

  lemma OnlyDb(c: Ctx, db: int)
    ensures c.(db := db, di := c.di) == c.(db := db)
  {
  }

  lemma ReferenceIsUnqualified(c: Ctx, op: Operand)
    requires !Copied(c, op)
    ensures DirectOr0(c, op).DbVar? ==> DirectOr0(c, op).number.None?
    ensures !DirectOr0(c, op).DiVar?
  {
  }

  lemma ReferenceIsSetUp(c: Ctx, s0: Passing, ps: seq<Param>, s: Passing, i: nat)
    requires SetUp(c, s0, ps, s) && ValidParams(ps) && i < |ps| && !Copied(c, ps[i].op)
    ensures ps[i].field in s.refs && Some(s.refs[ps[i].field]) == ByReference(c, ps[i].op) && ValidOperand(ps[i].op)
  {
    hide CopySetUp, Copied, ByReference, AtCall, Framed, InOrder;
  }

  lemma ReferencePlace(c: Ctx, op: Operand, refs: map<nat, Operand>, field: nat, r: Running)
    requires ValidCtx(c) && ValidOperand(op) && field in refs && Some(refs[field]) == ByReference(c, op)
    ensures Locate(Callee(c, refs, r), Named(field)) == Locate(c.(db := r.db), op)
  {
    hide Add, FromPointer;
  }

  // ----- the caller, with everything updated in place

  /** The calling block with the memories and registers it sees, and the call stack element of the FC it calls. */
  class FcCall {
    const depth: nat
    const isFB: bool
    const ownRefs: map<nat, Operand>
    const lalloc: LStackAllocator
    var mem: Mem
    var db: int
    var di: int
    var ar2: nat
    var interfRefs: map<nat, Operand>
    var outboundParams: seq<Param>
    var scratchSpace: map<nat, Scratch>

    constructor (depth: nat, isFB: bool, ownRefs: map<nat, Operand>, lalloc: LStackAllocator, mem: Mem, db: int,
                 di: int, ar2: nat)
      ensures Context() == Ctx(depth, isFB, db, di, ar2, ownRefs) && this.lalloc == lalloc
      ensures State() == Passing(mem, lalloc.State(), db, map[], [], map[])
    {
      this.depth, this.isFB, this.ownRefs, this.lalloc := depth, isFB, ownRefs, lalloc;
      this.mem, this.db, this.di, this.ar2 := mem, db, di, ar2;
      interfRefs, outboundParams, scratchSpace := map[], [], map[];
    }

    function Context(): Ctx
      reads this
    {
      Ctx(depth, isFB, db, di, ar2, ownRefs)
    }

    function State(): Passing
      reads this, lalloc
    {
      Passing(mem, lalloc.State(), db, interfRefs, outboundParams, scratchSpace)
    }

    method Store(at: Option<Place>, n: int) returns (ok: bool)
      modifies this`mem
      ensures ok <==> Delivered1(old(mem), at, n).Some?
      ensures ok ==> Delivered1(old(mem), at, n) == Some(mem)
    {
      if at.None? {
        return false;
      }
      var stored := StoreAt(mem, at.value, n);
      ok := stored.Some?;
      mem := if ok then stored.value else mem;
    }

    /** Copy a value to new scratch space in the caller's L-stack. */
    method CopyToVL(p: Param, op: Operand) returns (ok: bool)
      requires !op.Named? && lalloc.Valid()
      modifies this`mem, this`interfRefs, this`outboundParams, this`scratchSpace, lalloc
      ensures lalloc.Valid()
      ensures ok <==> CopiedToVL(old(Context()), old(State()), p, op).Some?
      ensures ok ==> CopiedToVL(old(Context()), old(State()), p, op) == Some(State())
    {
      hide StoreAt, ValueOf, Allocated;
      var offset := lalloc.Alloc(op.width);
      if offset.None? {
        return false;
      }
      var n := ValueOf(Context(), mem, op);
      if n.None? {
        return false;
      }
      ok := Store(Some(Place(LocalData(depth), offset.value, op.width)), n.value);
      if !ok {
        return;
      }
      interfRefs := interfRefs[p.field := VLVar(offset.value, op.width)];
      if p.outbound && !op.Imm? {
        scratchSpace := scratchSpace[p.id := Scratch(offset.value, op.width)];
        outboundParams := outboundParams + [p];
      }
    }

    method PassParameter(p: Param) returns (ok: bool)
      requires lalloc.Valid()
      modifies this, lalloc
      ensures lalloc.Valid() && Context() == old(Context()).(db := db)
      ensures ok <==> Passed(old(Context()), old(State()), p).Some?
      ensures ok ==> Passed(old(Context()), old(State()), p) == Some(State())
    {
      var d := Direct(Context(), p.op);
      if d.None? {
        return false;
      }
      var ref := ByReference(Context(), p.op);
      if ref.Some? {
        interfRefs := interfRefs[p.field := ref.value];
        return true;
      }
      if p.op.DbVar? && p.op.number.Some? {
        db := p.op.number.value;
      }
      ok := CopyToVL(p, d.value);
    }

    /** Pass all parameters, in their order; any of them may stop the CPU with an error. */
    method PassParameters(ps: seq<Param>) returns (ok: bool)
      requires lalloc.Valid()
      modifies this, lalloc
      ensures ok <==> AllPassed(old(Context()), old(State()), ps).Some?
      ensures ok ==> lalloc.Valid() && AllPassed(old(Context()), old(State()), ps) == Some(State())
      ensures ok ==> Context() == old(Context()).(db := db)
    {
      ghost var c, s0 := Context(), State();
      for i := 0 to |ps|
        invariant lalloc.Valid() && Context() == c.(db := db)
        invariant AllPassed(c, s0, ps[..i]) == Some(State())
      {
        assert ps[..i + 1][..i] == ps[..i];
        ContextDbIsInState(c, State(), ps[i], db);
        ok := PassParameter(ps[i]);
        if !ok {
          AllPassedFailsEarly(c, s0, ps, i + 1);
          return;
        }
      }
      assert ps[..|ps|] == ps;
      ok := true;
    }

    /** Leave the FC: restore AR2, copy the outbound parameters back, then restore DB and DI. */
    method BlockExit(prevDb: int, prevDi: int, prevAr2: nat) returns (ok: bool)
      modifies this
      ensures var x := old(Context()).(ar2 := prevAr2);
              var written := WrittenBack(x, old(mem), old(outboundParams), old(scratchSpace));
              && (ok <==> written.Some?)
              && (ok ==> mem == written.value && db == prevDb && di == prevDi && ar2 == prevAr2)
    {
      hide WrittenBack, ValueOf, Delivered1, Locate;
      ar2 := prevAr2;
      ghost var x := Context();
      NothingWrittenBack(x, mem, outboundParams, scratchSpace);
      for i := 0 to |outboundParams|
        invariant Context() == x && outboundParams == old(outboundParams) && scratchSpace == old(scratchSpace)
        invariant WrittenBack(x, old(mem), outboundParams[..i], scratchSpace) == Some(mem)
      {
        var p := outboundParams[i];
        WrittenBackNext(x, old(mem), outboundParams, scratchSpace, i);
        ok := false;
        if p.id in scratchSpace {
          var n := ValueOf(Context(), mem, LVar(scratchSpace[p.id].offset, scratchSpace[p.id].width));
          if n.Some? {
            ok := Store(Locate(Context(), p.op), n.value);
          }
        }
        if !ok {
          WrittenBackFailsEarly(x, old(mem), outboundParams, scratchSpace, i + 1);
          return;
        }
      }
      db, di := prevDb, prevDi;
      ok := true;
    }
  }

  lemma NothingWrittenBack(c: Ctx, m: Mem, outs: seq<Param>, scratch: map<nat, Scratch>)
    ensures WrittenBack(c, m, outs[..0], scratch) == Some(m) && outs[..|outs|] == outs
  {
  }

  lemma WrittenBackNext(c: Ctx, m: Mem, outs: seq<Param>, scratch: map<nat, Scratch>, i: nat)
    requires i < |outs|
    ensures WrittenBack(c, m, outs[..i + 1], scratch)
            == match WrittenBack(c, m, outs[..i], scratch)
               case None => None
               case Some(t) => CopiedOut(c, t, outs[i], scratch)
  {
    assert outs[..i + 1][..i] == outs[..i];
  }

  /** Passing depends on the DB register of the state only. */
  lemma ContextDbIsInState(c: Ctx, s: Passing, p: Param, db: int)
    ensures Passed(c.(db := db), s, p) == Passed(c, s, p)
  {
    hide Allocated, StoreAt, FetchAt;
  }

  lemma {:induction false} AllPassedFailsEarly(c: Ctx, s: Passing, ps: seq<Param>, i: nat)
    requires i <= |ps| && AllPassed(c, s, ps[..i]).None?
    ensures AllPassed(c, s, ps).None?
    decreases |ps|
  {
    if i < |ps| {
      assert ps[..|ps| - 1][..i] == ps[..i];
      AllPassedFailsEarly(c, s, ps[..|ps| - 1], i);
    } else {
      assert ps[..i] == ps;
    }
  }

  lemma {:induction false} WrittenBackFailsEarly(c: Ctx, m: Mem, outs: seq<Param>, scratch: map<nat, Scratch>, i: nat)
    requires i <= |outs| && WrittenBack(c, m, outs[..i], scratch).None?
    ensures WrittenBack(c, m, outs, scratch).None?
    decreases |outs|
  {
    if i < |outs| {
      assert outs[..|outs| - 1][..i] == outs[..i];
      WrittenBackFailsEarly(c, m, outs[..|outs| - 1], scratch, i);
    } else {
      assert outs[..i] == outs;
    }
  }
}
