/**
 Parameters of a CALL to an FB (`CallStackElem`): inbound parameters are stored into fields of
 the instance data at the call, outbound ones are stored from there to the actual parameters
 at the exit of the block.

 Only basic data types are modelled: 1, 8, 16 and 32 bits.
 */
module FbParams {
  import opened Offset
  import opened Memory
  import opened Options
  import opened FcParams

  /** A parameter assignment: the field of the instance, the actual parameter, and the directions. */
  datatype FbParam = FbParam(offset: Offset, width: nat, op: Operand, inbound: bool, outbound: bool)

  ghost predicate ValidFbParams(ps: seq<FbParam>) {
    && (forall i :: 0 <= i < |ps| ==>
          ValidOperand(ps[i].op) && BasicWidth(ps[i].width) && Slot(ps[i].offset, ps[i].width))
    && (forall i, j :: 0 <= i < |ps| && 0 <= j < |ps| && i != j ==>
          Disjoint(ps[i].offset, ps[i].width, ps[j].offset, ps[j].width))
  }

  /** Where the field of a parameter is, in the instance data of a DB from a base on. */
  function FieldPlace(db: int, base: Offset, p: FbParam): Place {
    Place(DataBlock(db), Add(base, p.offset), p.width)
  }

  /** A base that starts a byte, as those of all instances do. */
  predicate ByteAligned(base: Offset) {
    base.bitOffset == 0
  }

  /** Memory and the DB register while parameters are passed. */
  datatype Storing = Storing(mem: Mem, db: int)

  /** The value of an actual parameter at its turn. */
  function ActualValue(c: Ctx, s: Storing, p: FbParam): Option<int> {
    var d := Direct(c, p.op);
    if d.None? then None else ValueOf(c.(db := OpenedBy(s.db, p.op)), s.mem, d.value)
  }

  /** Pass one parameter to the instance at `base` in DB `idb`. */
  function Filled(c: Ctx, s: Storing, idb: int, base: Offset, p: FbParam): Option<Storing> {
    if !p.inbound then Some(s)
    else
      match ActualValue(c, s, p)
      case None => None
      case Some(n) =>
        match StoreAt(s.mem, FieldPlace(idb, base, p), n)
        case None => None
        case Some(m) => Some(Storing(m, OpenedBy(s.db, p.op)))
  }

  function AllFilled(c: Ctx, s: Storing, idb: int, base: Offset, ps: seq<FbParam>): Option<Storing>
    decreases |ps|
  {
    if ps == [] then Some(s)
    else
      match AllFilled(c, s, idb, base, ps[..|ps| - 1])
      case None => None
      case Some(t) => Filled(c, t, idb, base, ps[|ps| - 1])
  }

  /**
   The exit of the FB. `x` is the caller with the DB and DI registers the FB has left, and `base`
   is the instance base in the AR2 register it has left.
   */
  function Emptied(x: Ctx, m: Mem, base: Offset, p: FbParam): Option<Mem> {
    if !p.outbound then Some(m)
    else
      var n := FetchAt(m, FieldPlace(x.di, base, p));
      if n.None? then None else Delivered1(m, Locate(x, p.op), n.value)
  }

  function AllEmptied(x: Ctx, m: Mem, base: Offset, ps: seq<FbParam>): Option<Mem>
    decreases |ps|
  {
    if ps == [] then Some(m)
    else
      match AllEmptied(x, m, base, ps[..|ps| - 1])
      case None => None
      case Some(t) => Emptied(x, t, base, ps[|ps| - 1])
  }

  // ----- the fields of an instance

  lemma FieldsAreApart(db: int, base: Offset, ps: seq<FbParam>, i: nat, j: nat)
    requires ValidFbParams(ps) && ByteAligned(base) && i < |ps| && j < |ps| && i != j
    ensures SlotAt(FieldPlace(db, base, ps[i])) && Apart(FieldPlace(db, base, ps[i]), FieldPlace(db, base, ps[j]))
  {
    FieldIsSlot(db, base, ps[i]);
    assert Disjoint(ps[i].offset, ps[i].width, ps[j].offset, ps[j].width);
    hide Add, ToBitOffset;
    AddCountsBits(base, ps[i].offset);
    AddCountsBits(base, ps[j].offset);
  }

  lemma FieldIsSlot(db: int, base: Offset, p: FbParam)
    requires BasicWidth(p.width) && Slot(p.offset, p.width) && ByteAligned(base)
    ensures SlotAt(FieldPlace(db, base, p))
  {
  }

  // ----- the call

  /** The state before parameter `i` is passed. */
  function Before(c: Ctx, s: Storing, idb: int, base: Offset, ps: seq<FbParam>, i: nat): Option<Storing>
    requires i <= |ps|
  {
    AllFilled(c, s, idb, base, ps[..i])
  }

  lemma {:induction false} FillingReachesAll(c: Ctx, s: Storing, idb: int, base: Offset, ps: seq<FbParam>, i: nat)
    requires i <= |ps| && AllFilled(c, s, idb, base, ps).Some?
    ensures Before(c, s, idb, base, ps, i).Some?
    decreases |ps|
  {
    if i < |ps| {
      assert ps[..|ps| - 1][..i] == ps[..i];
      FillingReachesAll(c, s, idb, base, ps[..|ps| - 1], i);
    } else {
      assert ps[..i] == ps;
    }
  }

  /**
   Copy in: when all parameters have been passed, the field of each inbound parameter holds the
   value its actual parameter had at its turn, as far as the field can hold it.
   */
  lemma {:induction false} FieldsHoldActuals(c: Ctx, s: Storing, idb: int, base: Offset, ps: seq<FbParam>, i: nat)
    requires ValidFbParams(ps) && ByteAligned(base) && AllFilled(c, s, idb, base, ps).Some?
    requires i < |ps| && ps[i].inbound
    ensures Before(c, s, idb, base, ps, i).Some?
    ensures var n := ActualValue(c, Before(c, s, idb, base, ps, i).value, ps[i]);
            && n.Some?
            && FetchAt(AllFilled(c, s, idb, base, ps).value.mem, FieldPlace(idb, base, ps[i]))
                == Some(Kept(ps[i].width, n.value))
    decreases |ps|
  {
    var front, last := ps[..|ps| - 1], ps[|ps| - 1];
    FillingReachesAll(c, s, idb, base, ps, i);
    var t := AllFilled(c, s, idb, base, front).value;
    assert ValidFbParams(front) && BasicWidth(last.width) && Slot(last.offset, last.width);
    assert AllFilled(c, s, idb, base, ps) == Filled(c, t, idb, base, last);
    hide AllFilled, ValidFbParams, StoreAt, FetchAt, ActualValue, Kept, FieldPlace, SlotAt, Apart, OpenedBy;
    FieldIsSlot(idb, base, last);
    WidthOfField(idb, base, last);
    if i == |ps| - 1 {
      FetchAfterStore(t.mem, FieldPlace(idb, base, last), ActualValue(c, t, last).value);
    } else {
      assert front[..i] == ps[..i];
      FieldsHoldActuals(c, s, idb, base, front, i);
      if last.inbound {
        FieldsAreApart(idb, base, ps, i, |ps| - 1);
        FieldsAreApart(idb, base, ps, |ps| - 1, i);
        FetchAfterOtherStore(t.mem, FieldPlace(idb, base, last), ActualValue(c, t, last).value,
                             FieldPlace(idb, base, ps[i]));
      }
    }
  }

  lemma WidthOfField(db: int, base: Offset, p: FbParam)
    ensures FieldPlace(db, base, p).width == p.width && FieldPlace(db, base, p).space == DataBlock(db)
  {
  }

  /** Passing parameters changes nothing apart from their fields. */
  lemma {:induction false} FillingKeepsOthers(c: Ctx, s: Storing, idb: int, base: Offset, ps: seq<FbParam>, q: Place)
    requires ValidFbParams(ps) && ByteAligned(base) && AllFilled(c, s, idb, base, ps).Some? && SlotAt(q)
    requires forall i :: 0 <= i < |ps| && ps[i].inbound ==> Apart(FieldPlace(idb, base, ps[i]), q)
    ensures FetchAt(AllFilled(c, s, idb, base, ps).value.mem, q) == FetchAt(s.mem, q)
    decreases |ps|
  {
    if ps != [] {
      var front, last := ps[..|ps| - 1], ps[|ps| - 1];
      assert ValidFbParams(front);
      FieldIsSlot(idb, base, last);
      hide StoreAt, FetchAt, ActualValue, Add, SlotAt, Apart;
      FillingKeepsOthers(c, s, idb, base, front, q);
      if last.inbound {
        var t := AllFilled(c, s, idb, base, front).value;
        FetchAfterOtherStore(t.mem, FieldPlace(idb, base, last), ActualValue(c, t, last).value, q);
      }
    }
  }

  // ----- the exit

  /** What the exit should do: store the values the fields have at the exit, in the order of the parameters. */
  function ExitTargets(x: Ctx, m: Mem, base: Offset, ps: seq<FbParam>): seq<(Option<Place>, int)>
    requires forall i :: 0 <= i < |ps| && ps[i].outbound ==> FetchAt(m, FieldPlace(x.di, base, ps[i])).Some?
  {
    if ps == [] then []
    else
      var front, last := ExitTargets(x, m, base, ps[..|ps| - 1]), ps[|ps| - 1];
      if last.outbound then front + [(Locate(x, last.op), FetchAt(m, FieldPlace(x.di, base, last)).value)] else front
  }

  /** No actual parameter lies in the field of a parameter that is copied out after it. */
  ghost predicate ActualsOutside(x: Ctx, base: Offset, ps: seq<FbParam>) {
    forall i, k :: 0 <= i < k < |ps| && ps[i].outbound && ps[k].outbound && Locate(x, ps[i].op).Some? ==>
      && Apart(Locate(x, ps[i].op).value, FieldPlace(x.di, base, ps[k]))
      && (Locate(x, ps[i].op).value.space == DataBlock(x.di) ==> SlotAt(Locate(x, ps[i].op).value))
  }

  lemma {:induction false} ExitKeepsField(x: Ctx, m: Mem, base: Offset, ps: seq<FbParam>, n: nat, k: nat)
    requires ValidFbParams(ps) && ByteAligned(base) && ActualsOutside(x, base, ps)
    requires n <= k < |ps| && ps[k].outbound && AllEmptied(x, m, base, ps[..n]).Some?
    ensures FetchAt(AllEmptied(x, m, base, ps[..n]).value, FieldPlace(x.di, base, ps[k]))
            == FetchAt(m, FieldPlace(x.di, base, ps[k]))
    decreases n
  {
    if n > 0 {
      assert ps[..n][..n - 1] == ps[..n - 1] && ps[..n][n - 1] == ps[n - 1];
      var t, p, q := AllEmptied(x, m, base, ps[..n - 1]).value, ps[n - 1], FieldPlace(x.di, base, ps[k]);
      FieldIsSlot(x.di, base, ps[k]);
      assert q.space == DataBlock(x.di);
      hide StoreAt, FetchAt, Locate, FieldPlace, Apart, SlotAt, ValidFbParams;
      ExitKeepsField(x, m, base, ps, n - 1, k);
      if p.outbound {
        var at := Locate(x, p.op).value;
        assert Apart(at, q) && (at.space == DataBlock(x.di) ==> SlotAt(at));
        FetchAfterOtherStore(t, at, FetchAt(t, FieldPlace(x.di, base, p)).value, q);
      }
    }
  }

  /**
   Copy out: if no actual parameter lies in a field that is copied out after it, leaving the FB
   stores the values that the fields have at the exit, one after the other in the order of the
   parameters.
   */
  lemma {:induction false} ExitDelivers(x: Ctx, m: Mem, base: Offset, ps: seq<FbParam>, n: nat)
    requires ValidFbParams(ps) && ByteAligned(base) && ActualsOutside(x, base, ps) && n <= |ps|
    requires forall i :: 0 <= i < |ps| && ps[i].outbound ==> FetchAt(m, FieldPlace(x.di, base, ps[i])).Some?
    ensures AllEmptied(x, m, base, ps[..n]) == Delivered(m, ExitTargets(x, m, base, ps[..n]))
    decreases n
  {
    if n > 0 {
      var front, p := ps[..n - 1], ps[n - 1];
      assert ps[..n][..n - 1] == front && ps[..n][n - 1] == p;
      assert ExitTargets(x, m, base, ps[..n]) == if p.outbound
        then ExitTargets(x, m, base, front) + [(Locate(x, p.op), FetchAt(m, FieldPlace(x.di, base, p)).value)]
        else ExitTargets(x, m, base, front);
      var before := AllEmptied(x, m, base, front);
      assert AllEmptied(x, m, base, ps[..n]) == if before.None? then None else Emptied(x, before.value, base, p);
      hide StoreAt, FetchAt, Locate, FieldPlace, ValidFbParams, ActualsOutside, Delivered, Delivered1, AllEmptied,
        ExitTargets;
      ExitDelivers(x, m, base, ps, n - 1);
      if p.outbound {
        DeliveredSnoc(m, ExitTargets(x, m, base, front), Locate(x, p.op), FetchAt(m, FieldPlace(x.di, base, p)).value);
        if before.Some? {
          ExitKeepsField(x, m, base, ps, n - 1, n - 1);
        }
      }
    }
  }

  // ----- the registers at the exit

  /**
   The exit reads the fields of the instance that was called exactly if the FB leaves DI and the
   base in AR2 as they were.
   */
  lemma FieldsAtExit(p: FbParam, db: int, base: Offset, db': int, base': Offset)
    ensures FieldPlace(db', base', p) == FieldPlace(db, base, p)
            <==> db' == db && ToBitOffset(base') == ToBitOffset(base)
  {
    hide Add, ToBitOffset;
    AddCountsBits(base, p.offset);
    AddCountsBits(base', p.offset);
    if ToBitOffset(base') == ToBitOffset(base) {
      BitsDetermineOffset(Add(base', p.offset), Add(base, p.offset));
    }
  }

  /**
   DI still selects the instance of the FB when the outbound parameters are stored. An actual
   parameter in the instance data of the calling FB is therefore reached exactly if both
   instances are in the same DB, as multi-instances are; otherwise the value goes to the DB of
   the instance that was called.
   */
  lemma OwnDataAtExit(c: Ctx, op: Operand, idb: int)
    requires ValidCtx(c) && ValidOperand(op) && DirectOr0(c, op).DiVar? && Locate(c, op).Some?
    ensures Locate(c.(db := c.di, di := idb), op) == Locate(c, op) <==> idb == c.di
    ensures Locate(c.(db := c.di, di := idb), op).Some? && Locate(c.(db := c.di, di := idb), op).value.space
            == DataBlock(idb)
  {
    hide Add, FromPointer;
    PlaceAtExit(c, op, c.di, idb);
  }

  /**
   DB is the caller's DI when the outbound parameters are stored, if the FB leaves it alone. An
   actual parameter in the DB that the caller has opened is therefore reached exactly if that
   is the DB of the caller's own instance; otherwise the value goes to the latter.
   */
  lemma OpenedDbAtExit(c: Ctx, op: Operand, idb: int)
    requires ValidCtx(c) && ValidOperand(op) && Locate(c, op).Some?
    requires DirectOr0(c, op).DbVar? && DirectOr0(c, op).number.None?
    ensures Locate(c.(db := c.di, di := idb), op) == Locate(c, op) <==> c.di == c.db
    ensures Locate(c.(db := c.di, di := idb), op).Some? && Locate(c.(db := c.di, di := idb), op).value.space
            == DataBlock(c.di)
  {
    hide Add, FromPointer;
    PlaceAtExit(c, op, c.di, idb);
  }

  /**
   An actual parameter that is the field of a parameter that is copied out after it: the latter
   delivers the value of the former, whatever its own field held.
   */
  lemma OverlapForwards(x: Ctx, m: Mem, base: Offset, p: FbParam, q: FbParam, n: int)
    requires p.outbound && q.outbound && SlotAt(FieldPlace(x.di, base, q))
    requires Locate(x, p.op) == Some(FieldPlace(x.di, base, q)) && FetchAt(m, FieldPlace(x.di, base, p)) == Some(n)
    ensures AllEmptied(x, m, base, [p, q])
            == match StoreAt(m, FieldPlace(x.di, base, q), n)
               case None => None
               case Some(t) => Delivered1(t, Locate(x, q.op), Kept(q.width, n))
  {
    hide FetchAt, StoreAt, Locate, Delivered1, Kept, Add, SlotAt;
    assert [p, q][..1] == [p] && [p][..0] == [];
    assert AllEmptied(x, m, base, [p][..0]) == Some(m);
    assert AllEmptied(x, m, base, [p]) == Emptied(x, m, base, p);
    DeliveredIsStored(m, FieldPlace(x.di, base, q), n);
    if StoreAt(m, FieldPlace(x.di, base, q), n).Some? {
      FetchAfterStore(m, FieldPlace(x.di, base, q), n);
    }
  }

  lemma DeliveredIsStored(m: Mem, at: Place, n: int)
    ensures Delivered1(m, Some(at), n) == StoreAt(m, at, n)
  {
    hide StoreAt;
  }

  // ----- the caller, with memory and registers updated in place

  class FbCall {
    const depth: nat
    const isFB: bool
    const ownRefs: map<nat, Operand>
    var mem: Mem
    var db: int
    var di: int
    var ar2: nat
    var outboundParams: seq<FbParam>

    function Context(): Ctx
      reads this
    {
      Ctx(depth, isFB, db, di, ar2, ownRefs)
    }

    constructor (depth: nat, isFB: bool, ownRefs: map<nat, Operand>, mem: Mem, db: int, di: int, ar2: nat)
      ensures Context() == Ctx(depth, isFB, db, di, ar2, ownRefs) && this.mem == mem && outboundParams == []
    {
      this.depth, this.isFB, this.ownRefs := depth, isFB, ownRefs;
      this.mem, this.db, this.di, this.ar2, outboundParams := mem, db, di, ar2, [];
    }

    /** Store the inbound parameters into the instance data, and remember the outbound ones. */
    method PassParameters(ps: seq<FbParam>, idb: int, base: Offset) returns (ok: bool)
      requires outboundParams == []
      modifies this`mem, this`db, this`outboundParams
      ensures ok <==> AllFilled(old(Context()), Storing(old(mem), old(db)), idb, base, ps).Some?
      ensures ok ==> AllFilled(old(Context()), Storing(old(mem), old(db)), idb, base, ps) == Some(Storing(mem, db))
      ensures ok ==> outboundParams == Outbound(ps)
    {
      ghost var c, s := Context(), Storing(mem, db);
      for i := 0 to |ps|
        invariant Context() == c.(db := db) && outboundParams == Outbound(ps[..i])
        invariant AllFilled(c, s, idb, base, ps[..i]) == Some(Storing(mem, db))
      {
        hide StoreAt, ValueOf, Direct;
        assert ps[..i + 1][..i] == ps[..i];
        var p := ps[i];
        if p.outbound {
          outboundParams := outboundParams + [p];
        }
        if p.inbound {
          SameActual(c, Storing(mem, db), p, db);
          var n := ActualValue(Context(), Storing(mem, db), p);
          if n.None? {
            FillingFailsEarly(c, s, idb, base, ps, i + 1);
            return false;
          }
          db := OpenedBy(db, p.op);
          var stored := StoreAt(mem, FieldPlace(idb, base, p), n.value);
          if stored.None? {
            FillingFailsEarly(c, s, idb, base, ps, i + 1);
            return false;
          }
          mem := stored.value;
        }
      }
      assert ps[..|ps|] == ps;
      ok := true;
    }

    /** Leave the FB: restore AR2, copy the outbound parameters out of the instance, then set DB and DI. */
    method BlockExit(instanceDb: int, prevDi: int, prevAr2: nat) returns (ok: bool)
      requires forall i :: 0 <= i < |outboundParams| ==> outboundParams[i].outbound
      modifies this`mem, this`db, this`di, this`ar2
      ensures var written := AllEmptied(old(Context()).(ar2 := prevAr2), old(mem), FromPointer(old(ar2)),
                                        outboundParams);
              && (ok <==> written.Some?)
              && (ok ==> mem == written.value && db == instanceDb && di == prevDi && ar2 == prevAr2)
    {
      var base := FromPointer(ar2);
      ar2 := prevAr2;
      hide AllEmptied, Emptied;
      ghost var x, m := Context(), mem;
      NothingEmptied(x, m, base, outboundParams);
      for i := 0 to |outboundParams|
        invariant Context() == x && AllEmptied(x, m, base, outboundParams[..i]) == Some(mem)
      {
        EmptiedNext(x, m, base, outboundParams, i);
        ok := CopyOut(outboundParams[i], base);
        if !ok {
          EmptyingFailsEarly(x, m, base, outboundParams, i + 1);
          return;
        }
      }
      db, di := instanceDb, prevDi;
      ok := true;
    }

    /** Store the value in the field of one parameter to the actual parameter. */
    method CopyOut(p: FbParam, base: Offset) returns (ok: bool)
      requires p.outbound
      modifies this`mem
      ensures ok <==> Emptied(Context(), old(mem), base, p).Some?
      ensures ok ==> Emptied(Context(), old(mem), base, p) == Some(mem)
    {
      hide StoreAt, FetchAt, Locate, Add;
      var n := FetchAt(mem, FieldPlace(di, base, p));
      var written := if n.None? then None else Delivered1(mem, Locate(Context(), p.op), n.value);
      ok := written.Some?;
      if ok {
        mem := written.value;
      }
    }
  }

  lemma NothingEmptied(x: Ctx, m: Mem, base: Offset, ps: seq<FbParam>)
    ensures AllEmptied(x, m, base, ps[..0]) == Some(m) && ps[..|ps|] == ps
  {
  }

  lemma EmptiedNext(x: Ctx, m: Mem, base: Offset, ps: seq<FbParam>, i: nat)
    requires i < |ps|
    ensures AllEmptied(x, m, base, ps[..i + 1])
            == match AllEmptied(x, m, base, ps[..i]) case None => None case Some(t) => Emptied(x, t, base, ps[i])
  {
    hide Emptied;
    assert ps[..i + 1][..i] == ps[..i];
  }

  function Outbound(ps: seq<FbParam>): (r: seq<FbParam>)
    ensures forall i :: 0 <= i < |r| ==> r[i].outbound
  {
    if ps == [] then []
    else if ps[|ps| - 1].outbound then Outbound(ps[..|ps| - 1]) + [ps[|ps| - 1]]
    else Outbound(ps[..|ps| - 1])
  }

  /** Copying out the remembered parameters is copying out all of them. */
  lemma {:induction false} OnlyOutboundMatter(x: Ctx, m: Mem, base: Offset, ps: seq<FbParam>)
    ensures AllEmptied(x, m, base, Outbound(ps)) == AllEmptied(x, m, base, ps)
    decreases |ps|
  {
    if ps != [] {
      hide StoreAt, FetchAt, Locate, Add;
      var front := ps[..|ps| - 1];
      OnlyOutboundMatter(x, m, base, front);
      if ps[|ps| - 1].outbound {
        assert Outbound(ps)[..|Outbound(ps)| - 1] == Outbound(front);
      }
    }
  }

  lemma SameActual(c: Ctx, s: Storing, p: FbParam, db: int)
    ensures ActualValue(c.(db := db), s, p) == ActualValue(c, s, p)
  {
  }

  lemma {:induction false} FillingFailsEarly(c: Ctx, s: Storing, idb: int, base: Offset, ps: seq<FbParam>, i: nat)
    requires i <= |ps| && AllFilled(c, s, idb, base, ps[..i]).None?
    ensures AllFilled(c, s, idb, base, ps).None?
    decreases |ps|
  {
    if i < |ps| {
      assert ps[..|ps| - 1][..i] == ps[..i];
      FillingFailsEarly(c, s, idb, base, ps[..|ps| - 1], i);
    } else {
      assert ps[..i] == ps;
    }
  }

  lemma {:induction false} EmptyingFailsEarly(x: Ctx, m: Mem, base: Offset, ps: seq<FbParam>, i: nat)
    requires i <= |ps| && AllEmptied(x, m, base, ps[..i]).None?
    ensures AllEmptied(x, m, base, ps).None?
    decreases |ps|
  {
    if i < |ps| {
      assert ps[..|ps| - 1][..i] == ps[..i];
      EmptyingFailsEarly(x, m, base, ps[..|ps| - 1], i);
    } else {
      assert ps[..i] == ps;
    }
  }
}
