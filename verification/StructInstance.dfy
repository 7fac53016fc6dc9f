/**
 Instances of data structures (`AwlStructInstance`): a structure with its memory behaves as
 a record, and a fresh one holds the declared initial values.
 */
module StructInstance {
  import opened Bytes
  import opened Offset
  import opened Memory
  import opened Options
  import opened Layout
  import opened StructLayout
  import opened DataStructure

  class AwlStructInstance {
    const struct: AwlStruct
    const dataBytes: ByteArray

    ghost predicate Valid()
      reads this, struct, dataBytes, dataBytes.data
    {
      struct.Valid() && dataBytes.data.Length == StructSize(struct.fields)
    }

    /** Allocate the memory and store the initial values; none of them is out of range. */
    constructor (struct: AwlStruct)
      requires struct.Valid()
      ensures Valid() && this.struct == struct && fresh(dataBytes) && fresh(dataBytes.data)
      ensures dataBytes.data[..] == Initialized(struct.fields)
    {
      var memory := new ByteArray(struct.GetSize());
      this.struct := struct;
      this.dataBytes := memory;
      new;
      StoreInitialValues(struct.fields);
    }

    /** No initial value is out of range. */
    method StoreInitialValues(fs: seq<Field>)
      requires InitsFit(fs) && dataBytes.data.Length == StructSize(fs)
      requires forall i :: 0 <= i < dataBytes.data.Length ==> dataBytes.data[i] == 0
      modifies dataBytes.data
      ensures dataBytes.data[..] == Initialized(fs)
    {
      assert dataBytes.data[..] == Zeros(StructSize(fs));
      hide Stored, StoreFits, StructSize;
      for i := 0 to |fs|
        invariant dataBytes.data[..] == InitializedUpTo(fs, i)
      {
        assert fs[i].init.Some? ==> InitFitsField(fs[i], UnalignedSize(fs));
        if fs[i].init.Some? && fs[i].init.value != [] {
          InitIsInside(dataBytes.data[..], fs, i);
          var ok := dataBytes.Store(fs[i].offset, fs[i].bitSize, BytesVal(fs[i].init.value));
          assert ok;
        }
      }
    }

    function GetFieldData(field: Field, baseOffset: Offset): Option<Value>
      requires FetchAllowed(Add(baseOffset, field.offset), field.bitSize)
      reads this, dataBytes, dataBytes.data
    {
      dataBytes.Fetch(Add(baseOffset, field.offset), field.bitSize)
    }

    method SetFieldData(field: Field, value: Value, baseOffset: Offset) returns (ok: bool)
      requires StoreAllowed(Add(baseOffset, field.offset), field.bitSize, value)
      modifies dataBytes.data
      ensures dataBytes.data[..] == Stored(old(dataBytes.data[..]), Add(baseOffset, field.offset), field.bitSize, value)
      ensures ok <==> StoreFits(old(dataBytes.data[..]), Add(baseOffset, field.offset), field.bitSize, value)
    {
      ok := dataBytes.Store(Add(baseOffset, field.offset), field.bitSize, value);
    }

    /**
     Set a variable by name. A data field takes the value, and every other one keeps its own. Under
     the name of a STRING, STRUCT or ARRAY its bytes are replaced as a whole, if they are all inside.
     */
    method SetFieldDataByName(name: Name, value: Value) returns (ok: bool)
      requires Valid()
      requires var f := Lookup(struct.fields, name);
               f.Some? ==> StoreAllowed(f.value.offset, f.value.bitSize, value)
      modifies dataBytes.data
      ensures Valid()
      ensures var f := Lookup(struct.fields, name);
              && (ok <==> f.Some? && StoreFits(old(dataBytes.data[..]), f.value.offset, f.value.bitSize, value))
              && dataBytes.data[..] == if f.None? then old(dataBytes.data[..])
                                       else Stored(old(dataBytes.data[..]), f.value.offset, f.value.bitSize, value)
      ensures var f := Lookup(struct.fields, name);
              f.Some? && IsData(f.value) && Acceptable(f.value.bitSize, value) ==>
                ok && ReadByName(struct.fields, dataBytes.data[..], name) == Some(Norm(f.value.bitSize, value))
      ensures forall other :: other != name && DataName(struct.fields, other)
                && KeptBy(Lookup(struct.fields, name), Lookup(struct.fields, other))
                ==> ReadByName(struct.fields, dataBytes.data[..], other)
                    == ReadByName(struct.fields, old(dataBytes.data[..]), other)
    {
      hide Stored, StoreFits, Laid, InitsFit, Fetched;
      var field := struct.GetField(name);
      if field.None? {
        return false;
      }
      ghost var fs, mem := struct.fields, dataBytes.data[..];
      ok := dataBytes.Store(field.value.offset, field.value.bitSize, value);
      StoredByName(fs, mem, name, value);
    }

    /** Read a variable by name; only a STRING, STRUCT or ARRAY can reach behind the end of the data. */
    method GetFieldDataByName(name: Name) returns (value: Option<Value>)
      requires Valid()
      ensures value == ReadByName(struct.fields, dataBytes.data[..], name)
      ensures var f := Lookup(struct.fields, name);
              && (value.Some? <==>
                    f.Some? && f.value.offset.byteOffset + BytesFor(f.value.bitSize) <= dataBytes.data.Length)
              && (f.Some? && IsData(f.value) ==> value.Some?)
    {
      var field := struct.GetField(name);
      if field.None? {
        return None;
      }
      ghost var i := FieldIndex(struct.fields, name);
      assert AllPlaced(struct.fields) && Placed(struct.fields[i]);
      if IsData(field.value) {
        DataIsInside(struct.fields, i);
      }
      value := dataBytes.Fetch(field.value.offset, field.value.bitSize);
    }
  }

  /** Storing to the field `f` does not touch the field `g`: both hold data, or their bytes are apart. */
  ghost predicate KeptBy(f: Option<Field>, g: Option<Field>) {
    f.Some? && g.Some? ==>
      || IsData(f.value)
      || g.value.offset.byteOffset + BytesFor(g.value.bitSize) <= f.value.offset.byteOffset
      || f.value.offset.byteOffset + BytesFor(f.value.bitSize) <= g.value.offset.byteOffset
  }

  lemma StoredByName(fs: seq<Field>, mem: seq<byte>, name: Name, value: Value)
    requires Laid(fs) && |mem| == StructSize(fs) && Lookup(fs, name).Some?
    requires StoreAllowed(Lookup(fs, name).value.offset, Lookup(fs, name).value.bitSize, value)
    ensures var f := Lookup(fs, name).value;
            var after := Stored(mem, f.offset, f.bitSize, value);
            && (IsData(f) && Acceptable(f.bitSize, value) ==>
                  && StoreFits(mem, f.offset, f.bitSize, value)
                  && ReadByName(fs, after, name) == Some(Norm(f.bitSize, value)))
            && forall other :: other != name && DataName(fs, other) && KeptBy(Some(f), Lookup(fs, other)) ==>
                 ReadByName(fs, after, other) == ReadByName(fs, mem, other)
  {
    var i := FieldIndex(fs, name);
    var f, after := fs[i], Stored(mem, fs[i].offset, fs[i].bitSize, value);
    assert Placed(f);
    hide Laid, Stored, Fetched;
    if IsData(f) && Acceptable(f.bitSize, value) {
      RecordUpdate(fs, mem, 0, i, i, value);
    }
    forall other | other != name && DataName(fs, other) && KeptBy(Some(f), Lookup(fs, other))
      ensures ReadByName(fs, after, other) == ReadByName(fs, mem, other)
    {
      OtherKeepsValue(fs, mem, i, FieldIndex(fs, other), value);
    }
  }

  lemma OtherKeepsValue(fs: seq<Field>, mem: seq<byte>, i: nat, j: nat, value: Value)
    requires Laid(fs) && i < |fs| && j < |fs| && i != j && IsData(fs[j]) && KeptBy(Some(fs[i]), Some(fs[j]))
    requires StoreAllowed(fs[i].offset, fs[i].bitSize, value)
    ensures FetchAllowed(fs[j].offset, fs[j].bitSize)
    ensures Fetched(Stored(mem, fs[i].offset, fs[i].bitSize, value), fs[j].offset, fs[j].bitSize)
            == Fetched(mem, fs[j].offset, fs[j].bitSize)
  {
    assert Placed(fs[i]) && Placed(fs[j]);
    if IsData(fs[i]) {
      DataIsDisjoint(fs, i, j);
      hide Laid, Stored, Fetched;
      FetchOfDisjointStore(mem, fs[i].offset, fs[i].bitSize, value, fs[j].offset, fs[j].bitSize);
    } else {
      hide Laid, Stored, Fetched;
      FetchOutsideStore(mem, fs[i].offset, fs[i].bitSize, value, fs[j].offset, fs[j].bitSize);
    }
  }

  /** A store changes nothing outside the bytes it writes to. */
  lemma FetchOutsideStore(s: seq<byte>, o1: Offset, width1: nat, v: Value, o2: Offset, width2: nat)
    requires StoreAllowed(o1, width1, v) && FetchAllowed(o2, width2)
    requires o2.byteOffset + BytesFor(width2) <= o1.byteOffset || o1.byteOffset + BytesFor(width1) <= o2.byteOffset
    ensures Fetched(Stored(s, o1, width1, v), o2, width2) == Fetched(s, o2, width2)
  {
    hide Stored, Fetched;
    forall i | o2.byteOffset <= i < o2.byteOffset + BytesFor(width2) && i < |s|
      ensures Stored(s, o1, width1, v)[i] == s[i]
    {
      StoredOutside(s, o1, width1, v, i);
    }
    FetchDependsOnRegion(s, Stored(s, o1, width1, v), o2, width2);
  }

  lemma InitIsInside(mem: seq<byte>, fs: seq<Field>, i: nat)
    requires i < |fs| && InitFitsField(fs[i], UnalignedSize(fs)) && fs[i].init.Some?
    requires |mem| == StructSize(fs)
    ensures var v := BytesVal(fs[i].init.value);
            StoreAllowed(fs[i].offset, fs[i].bitSize, v) && StoreFits(mem, fs[i].offset, fs[i].bitSize, v)
  {
  }

  /** The values a variable of a width can be set to. */
  predicate Acceptable(width: nat, v: Value) {
    if width == 1 then v.BytesVal? ==> v.b != []
    else StoreAllowed(ZERO, width, v)
  }

  ghost predicate DataName(fs: seq<Field>, name: Name) {
    var f := Lookup(fs, name);
    f.Some? && IsData(f.value)
  }

  ghost function ReadByName(fs: seq<Field>, mem: seq<byte>, name: Name): Option<Value> {
    var f := Lookup(fs, name);
    if f.Some? && FetchAllowed(f.value.offset, f.value.bitSize)
    then Fetched(mem, f.value.offset, f.value.bitSize) else None
  }

  // ----- the record view

  lemma AtBase(base: nat, o: Offset)
    requires Normal(o)
    ensures Add(Offset(base, 0), o) == Offset(base + o.byteOffset, o.bitOffset)
  {
    AddCountsBits(Offset(base, 0), o);
    BitsDetermineOffset(Add(Offset(base, 0), o), Offset(base + o.byteOffset, o.bitOffset));
  }

  /**
   Setting a data field of a structure that lives at `base` gives that field the value and
   leaves every other data field as it was.
   */
  lemma RecordUpdate(fs: seq<Field>, mem: seq<byte>, base: nat, i: nat, j: nat, v: Value)
    requires Laid(fs) && base + StructSize(fs) <= |mem|
    requires i < |fs| && j < |fs| && IsData(fs[i]) && IsData(fs[j]) && Acceptable(fs[i].bitSize, v)
    ensures Normal(fs[i].offset) && Normal(fs[j].offset)
    ensures var oi, oj := Add(Offset(base, 0), fs[i].offset), Add(Offset(base, 0), fs[j].offset);
            && Slot(oi, fs[i].bitSize) && Slot(oj, fs[j].bitSize)
            && StoreAllowed(oi, fs[i].bitSize, v) && StoreFits(mem, oi, fs[i].bitSize, v)
            && Fetched(Stored(mem, oi, fs[i].bitSize, v), oj, fs[j].bitSize)
               == if i == j then Some(Norm(fs[i].bitSize, v)) else Fetched(mem, oj, fs[j].bitSize)
    ensures base == 0 ==> Add(Offset(base, 0), fs[i].offset) == fs[i].offset
                          && Add(Offset(base, 0), fs[j].offset) == fs[j].offset
  {
    assert Placed(fs[i]) && Placed(fs[j]);
    AtBase(base, fs[i].offset);
    AtBase(base, fs[j].offset);
    var oi, oj := Add(Offset(base, 0), fs[i].offset), Add(Offset(base, 0), fs[j].offset);
    DataIsInside(fs, i);
    DataIsInside(fs, j);
    if i == j {
      hide Laid, Stored, Fetched;
      FetchOfStore(mem, oi, fs[i].bitSize, v);
    } else {
      DataIsDisjoint(fs, i, j);
      hide Laid, Stored, Fetched;
      FetchOfDisjointStore(mem, oi, fs[i].bitSize, v, oj, fs[j].bitSize);
    }
  }

  // ----- initial values

  /** A data field with an initial value has that value in a fresh instance. */
  lemma InitialValue(fs: seq<Field>, i: nat)
    requires Laid(fs) && InitsFit(fs) && i < |fs| && IsData(fs[i]) && fs[i].init.Some?
    ensures Placed(fs[i]) && InitFitsField(fs[i], UnalignedSize(fs))
    ensures Fetched(Initialized(fs), fs[i].offset, fs[i].bitSize)
            == Some(Norm(fs[i].bitSize, BytesVal(fs[i].init.value)))
  {
    assert Placed(fs[i]) && InitFitsField(fs[i], UnalignedSize(fs));
    InitialValueUpTo(fs, i, |fs|);
  }

  lemma {:induction false} InitialValueUpTo(fs: seq<Field>, i: nat, k: nat)
    requires Laid(fs) && InitsFit(fs) && i < k <= |fs| && IsData(fs[i]) && fs[i].init.Some?
    requires Placed(fs[i]) && InitFitsField(fs[i], UnalignedSize(fs))
    ensures Fetched(InitializedUpTo(fs, k), fs[i].offset, fs[i].bitSize)
            == Some(Norm(fs[i].bitSize, BytesVal(fs[i].init.value)))
    decreases k
  {
    hide *;
    if k - 1 == i {
      StoredInit(fs, i);
    } else {
      InitialValueUpTo(fs, i, k - 1);
      KeptInit(fs, i, k - 1);
    }
  }

  lemma StoredInit(fs: seq<Field>, i: nat)
    requires InitsFit(fs) && i < |fs| && fs[i].init.Some? && InitFitsField(fs[i], UnalignedSize(fs))
    ensures Fetched(InitializedUpTo(fs, i + 1), fs[i].offset, fs[i].bitSize)
            == Some(Norm(fs[i].bitSize, BytesVal(fs[i].init.value)))
  {
    hide InitsFit, Stored, Fetched, Norm, UnalignedSize;
    FetchOfStore(InitializedUpTo(fs, i), fs[i].offset, fs[i].bitSize, BytesVal(fs[i].init.value));
  }

  /** The initial value of a later field is stored elsewhere. */
  lemma KeptInit(fs: seq<Field>, i: nat, j: nat)
    requires Laid(fs) && InitsFit(fs) && i < j < |fs| && IsData(fs[i]) && Placed(fs[i])
    ensures Fetched(InitializedUpTo(fs, j + 1), fs[i].offset, fs[i].bitSize)
            == Fetched(InitializedUpTo(fs, j), fs[i].offset, fs[i].bitSize)
  {
    LaterField(fs, i, j);
    hide Laid, InitsFit, Stored, Fetched, UnalignedSize, InitFitsField, Hi, Lo, Slot;
    if fs[j].init.Some? {
      LaterInitKeeps(InitializedUpTo(fs, j), fs[i], fs[j], UnalignedSize(fs));
    }
  }

  lemma LaterField(fs: seq<Field>, i: nat, j: nat)
    requires Laid(fs) && InitsFit(fs) && i < j < |fs| && IsData(fs[i])
    ensures fs[j].init.Some? ==> InitFitsField(fs[j], UnalignedSize(fs))
    ensures Hi(fs[i]) <= Lo(fs[j])
  {
    hide UnalignedSize, InitFitsField;
  }

  lemma LaterInitKeeps(mem: seq<byte>, g: Field, f: Field, size: nat)
    requires Slot(g.offset, g.bitSize) && Hi(g) <= Lo(f) && f.init.Some? && InitFitsField(f, size)
    ensures Fetched(Stored(mem, f.offset, f.bitSize, BytesVal(f.init.value)), g.offset, g.bitSize)
            == Fetched(mem, g.offset, g.bitSize)
  {
    hide Stored, Fetched;
    FetchOfDisjointStore(mem, f.offset, f.bitSize, BytesVal(f.init.value), g.offset, g.bitSize);
  }
}
