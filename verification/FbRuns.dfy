/**
 Whole runs of an FB between call and exit: what an outbound actual parameter receives.
 */
module FbRuns {
  import opened Offset
  import opened Options
  import opened FcParams
  import opened FbParams
  import CallMachine
  import FcKinds

  /** What the FB can do to memory and registers, also by calling further blocks. */
  datatype FbEvent = Store(place: Place, n: int) | SetRegs(db: int, di: int, ar2: nat)

  datatype FbState = FbState(mem: Mem, db: int, di: int, ar2: nat)

  function FbHappened(r: FbState, e: FbEvent): Option<FbState> {
    match e
    case SetRegs(db, di, ar2) => Some(FbState(r.mem, db, di, ar2))
    case Store(p, n) =>
      var m := StoreAt(r.mem, p, n);
      if m.None? then None else Some(r.(mem := m.value))
  }

  function FbRan(r: FbState, es: seq<FbEvent>): Option<FbState> {
    if es == [] then Some(r)
    else
      match FbRan(r, es[..|es| - 1])
      case None => None
      case Some(t) => FbHappened(t, es[|es| - 1])
  }

  /** A field is stored to as a whole or not at all. */
  ghost predicate WholeStores(es: seq<FbEvent>, field: Place) {
    forall k :: 0 <= k < |es| && es[k].Store? && es[k].place != field ==>
      Apart(es[k].place, field) && (es[k].place.space == field.space ==> SlotAt(es[k].place))
  }

  /** The last value stored to a field, or the one it had at the start. */
  function LastValue(es: seq<FbEvent>, field: Place, start: int): int {
    if es == [] then start
    else
      match es[|es| - 1]
      case Store(p, n) => if p == field then Kept(field.width, n) else LastValue(es[..|es| - 1], field, start)
      case SetRegs(_, _, _) => LastValue(es[..|es| - 1], field, start)
  }

  /** The FB itself reaches the field of a parameter through DI and AR2, as the call has set them. */
  lemma OwnField(depth: nat, db: int, idb: int, base: Offset, p: FbParam, op: Operand)
    requires Normal(base) && base.byteOffset < 0x1_0000 && op == DiVar(p.offset, p.width)
    ensures PlaceOf(Ctx(depth, true, db, idb, CallMachine.AREA_DB + PointerBits(base), map[]), op)
            == Some(FieldPlace(idb, base, p))
  {
    hide FromPointer, PointerBits, Add;
    CallMachine.AreaLeavesOffset(PointerBits(base));
    PointerRoundTrip(base);
  }

  /** The value of an actual parameter: a constant itself, and otherwise what is at its place at that time. */
  lemma ActualIsRead(c: Ctx, s: Storing, p: FbParam)
    requires Direct(c, p.op).Some?
    ensures var d, at := Direct(c, p.op).value, Locate(c.(db := s.db), p.op);
            ActualValue(c, s, p)
            == if d.Imm? then Some(d.n) else if at.Some? then FetchAt(s.mem, at.value) else None
  {
    hide FetchAt, Add, FromPointer;
  }

  /** Passing leaves the DB open that the last qualified inbound actual names, or the one open before. */
  lemma {:induction false} LastNamedIsOpen(c: Ctx, s: Storing, idb: int, base: Offset, ps: seq<FbParam>, k: nat)
    requires AllFilled(c, s, idb, base, ps).Some? && k <= |ps|
    requires forall i :: k <= i < |ps| ==> !(ps[i].inbound && FcKinds.NamesDb(ps[i].op))
    ensures k == 0 ==> AllFilled(c, s, idb, base, ps).value.db == s.db
    ensures k > 0 && ps[k - 1].inbound && FcKinds.NamesDb(ps[k - 1].op) ==>
              AllFilled(c, s, idb, base, ps).value.db == ps[k - 1].op.number.value
    decreases |ps|
  {
    hide StoreAt, ActualValue, FieldPlace;
    if k < |ps| {
      LastNamedIsOpen(c, s, idb, base, ps[..|ps| - 1], k);
    }
  }

  lemma {:induction false} FieldHoldsLast(r: FbState, es: seq<FbEvent>, field: Place, start: int)
    requires SlotAt(field) && WholeStores(es, field) && FbRan(r, es).Some? && FetchAt(r.mem, field) == Some(start)
    ensures FetchAt(FbRan(r, es).value.mem, field) == Some(LastValue(es, field, start))
    decreases |es|
  {
    if es != [] {
      var front, e := es[..|es| - 1], es[|es| - 1];
      assert WholeStores(front, field) by { FrontStores(es, field); }
      assert e.Store? && e.place != field ==>
          Apart(e.place, field) && (e.place.space == field.space ==> SlotAt(e.place));
      hide StoreAt, FetchAt, Kept, Apart, SlotAt, WholeStores;
      FieldHoldsLast(r, front, field, start);
      if e.Store? {
        var t := FbRan(r, front).value;
        if e.place == field {
          FetchAfterStore(t.mem, field, e.n);
        } else {
          FetchAfterOtherStore(t.mem, e.place, e.n, field);
        }
      }
    }
  }

  lemma FrontStores(es: seq<FbEvent>, field: Place)
    requires es != [] && WholeStores(es, field)
    ensures WholeStores(es[..|es| - 1], field)
  {
    var front := es[..|es| - 1];
    hide Apart, SlotAt;
    forall k | 0 <= k < |front| && front[k].Store? && front[k].place != field
      ensures Apart(front[k].place, field) && (front[k].place.space == field.space ==> SlotAt(front[k].place))
    {
      assert front[k] == es[k];
    }
  }

  /** The value in the field of a parameter when the FB starts: that of an inbound actual, or what was there. */
  function StartValue(c: Ctx, s: Storing, idb: int, base: Offset, ps: seq<FbParam>, i: nat): Option<int>
    requires i < |ps|
  {
    if !ps[i].inbound then FetchAt(s.mem, FieldPlace(idb, base, ps[i]))
    else
      match Before(c, s, idb, base, ps, i)
      case None => None
      case Some(t) =>
        match ActualValue(c, t, ps[i])
        case None => None
        case Some(n) => Some(Kept(ps[i].width, n))
  }

  lemma FieldAtStart(c: Ctx, s: Storing, idb: int, base: Offset, ps: seq<FbParam>, i: nat)
    requires ValidFbParams(ps) && ByteAligned(base) && AllFilled(c, s, idb, base, ps).Some? && i < |ps|
    ensures FetchAt(AllFilled(c, s, idb, base, ps).value.mem, FieldPlace(idb, base, ps[i]))
            == StartValue(c, s, idb, base, ps, i)
  {
    hide FetchAt, Kept, ActualValue, AllFilled, FieldPlace, SlotAt, Apart;
    if ps[i].inbound {
      FieldsHoldActuals(c, s, idb, base, ps, i);
    } else {
      FieldIsSlot(idb, base, ps[i]);
      forall k | 0 <= k < |ps| && ps[k].inbound
        ensures Apart(FieldPlace(idb, base, ps[k]), FieldPlace(idb, base, ps[i]))
      {
        FieldsAreApart(idb, base, ps, k, i);
      }
      FillingKeepsOthers(c, s, idb, base, ps, FieldPlace(idb, base, ps[i]));
    }
  }

  /** The outbound parameters have a value at the start, and are only stored to as a whole. */
  ghost predicate CleanRun(c: Ctx, s: Storing, idb: int, base: Offset, ps: seq<FbParam>, es: seq<FbEvent>) {
    forall i :: 0 <= i < |ps| && ps[i].outbound ==>
      StartValue(c, s, idb, base, ps, i).Some? && WholeStores(es, FieldPlace(idb, base, ps[i]))
  }

  /** The value of parameter `i` at the end of the run. */
  function FinalValue(c: Ctx, s: Storing, idb: int, base: Offset, ps: seq<FbParam>, es: seq<FbEvent>, i: nat): int
    requires i < |ps| && StartValue(c, s, idb, base, ps, i).Some?
  {
    LastValue(es, FieldPlace(idb, base, ps[i]), StartValue(c, s, idb, base, ps, i).value)
  }

  /** The outbound parameters among the first `n`: where the actual parameter is, and the final value. */
  function FinalTargets(c: Ctx, x: Ctx, s: Storing, idb: int, base: Offset, ps: seq<FbParam>, es: seq<FbEvent>, n: nat)
      : seq<(Option<Place>, int)>
    requires n <= |ps| && forall i :: 0 <= i < |ps| && ps[i].outbound ==> StartValue(c, s, idb, base, ps, i).Some?
  {
    if n == 0 then []
    else
      var front := FinalTargets(c, x, s, idb, base, ps, es, n - 1);
      if ps[n - 1].outbound
      then front + [(Locate(x, ps[n - 1].op), FinalValue(c, s, idb, base, ps, es, n - 1))] else front
  }

  /** The fields hold the final values at the end of the run. */
  lemma FieldsAreFinal(c: Ctx, s: Storing, idb: int, base: Offset, ps: seq<FbParam>, r0: FbState, es: seq<FbEvent>,
                       i: nat)
    requires ValidFbParams(ps) && ByteAligned(base) && AllFilled(c, s, idb, base, ps).Some?
    requires CleanRun(c, s, idb, base, ps, es) && i < |ps| && ps[i].outbound
    requires r0.mem == AllFilled(c, s, idb, base, ps).value.mem && FbRan(r0, es).Some?
    ensures StartValue(c, s, idb, base, ps, i).Some?
    ensures FetchAt(FbRan(r0, es).value.mem, FieldPlace(idb, base, ps[i]))
            == Some(FinalValue(c, s, idb, base, ps, es, i))
  {
    hide FetchAt, AllFilled, StartValue, FieldPlace, WholeStores, FbRan, LastValue, SlotAt;
    FieldAtStart(c, s, idb, base, ps, i);
    FieldIsSlot(idb, base, ps[i]);
    FieldHoldsLast(r0, es, FieldPlace(idb, base, ps[i]), StartValue(c, s, idb, base, ps, i).value);
  }

  lemma {:induction false} TargetsAreFinal(c: Ctx, x: Ctx, s: Storing, idb: int, base: Offset, ps: seq<FbParam>,
                                           r0: FbState, es: seq<FbEvent>, n: nat)
    requires ValidFbParams(ps) && ByteAligned(base) && AllFilled(c, s, idb, base, ps).Some? && n <= |ps|
    requires CleanRun(c, s, idb, base, ps, es) && x.di == idb
    requires r0.mem == AllFilled(c, s, idb, base, ps).value.mem && FbRan(r0, es).Some?
    ensures forall i :: 0 <= i < |ps| && ps[i].outbound ==>
              && StartValue(c, s, idb, base, ps, i).Some?
              && FetchAt(FbRan(r0, es).value.mem, FieldPlace(x.di, base, ps[i])).Some?
    ensures ExitTargets(x, FbRan(r0, es).value.mem, base, ps[..n]) == FinalTargets(c, x, s, idb, base, ps, es, n)
    decreases n
  {
    hide FetchAt, AllFilled, StartValue, FieldPlace, WholeStores, FbRan, Locate, ValidFbParams, FinalValue;
    forall i | 0 <= i < |ps| && ps[i].outbound
      ensures StartValue(c, s, idb, base, ps, i).Some?
      ensures FetchAt(FbRan(r0, es).value.mem, FieldPlace(x.di, base, ps[i]))
              == Some(FinalValue(c, s, idb, base, ps, es, i))
    {
      FieldsAreFinal(c, s, idb, base, ps, r0, es, i);
    }
    if n > 0 {
      TargetsAreFinal(c, x, s, idb, base, ps, r0, es, n - 1);
      assert ps[..n][..n - 1] == ps[..n - 1] && ps[..n][n - 1] == ps[n - 1];
    }
  }

  /**
   Copy in and copy out: if the FB leaves DI and the base in AR2 as they were, its exit stores to
   each outbound actual parameter the last value that was stored to the field, or else the one
   the field had when the FB started, in the order of the parameters.
   */
  lemma CopyThroughInstance(c: Ctx, s: Storing, idb: int, base: Offset, ps: seq<FbParam>, r0: FbState, es: seq<FbEvent>)
    requires ValidFbParams(ps) && ByteAligned(base) && AllFilled(c, s, idb, base, ps).Some?
    requires CleanRun(c, s, idb, base, ps, es)
    requires r0.mem == AllFilled(c, s, idb, base, ps).value.mem && FbRan(r0, es).Some?
    requires var r := FbRan(r0, es).value; r.di == idb && FromPointer(r.ar2) == base
    requires ActualsOutside(c.(db := FbRan(r0, es).value.db, di := idb), base, ps)
    ensures forall i :: 0 <= i < |ps| && ps[i].outbound ==> StartValue(c, s, idb, base, ps, i).Some?
    ensures var r := FbRan(r0, es).value;
            var x := c.(db := r.db, di := r.di);
            AllEmptied(x, r.mem, FromPointer(r.ar2), Outbound(ps))
            == Delivered(r.mem, FinalTargets(c, x, s, idb, base, ps, es, |ps|))
  {
    var r := FbRan(r0, es).value;
    var x := c.(db := r.db, di := r.di);
    assert ps[..|ps|] == ps;
    hide *;
    TargetsAreFinal(c, x, s, idb, base, ps, r0, es, |ps|);
    ExitDelivers(x, r.mem, base, ps, |ps|);
    OnlyOutboundMatter(x, r.mem, base, ps);
  }
}
