/**
 The decoders of messages with lists (`fromBytes`), as the loops that advance an offset
 through the payload.
 */
module Decoders {
  import opened Bytes
  import opened Wire
  import opened Lists
  import opened Parts
  import opened Messages

  method HwModuleFromBytes(payload: seq<byte>) returns (r: Result<HwMod>)
    ensures r == UnpackHwModule(payload)
  {
    RestsProgress();
    hide Progresses, UnpackString, DictOf, NeverEmpty, PackPair;
    var name := UnpackString(payload, 0);
    if name.Err? {
      return Err;
    }
    var offset, paramDict: Params := name.value.1, [];
    ghost var pairs: seq<Pair> := [];
    assert DictOf(pairs) == paramDict by { DictOfParams([]); }
    while offset < |payload|
      invariant UnpackRest(UnpackPair, payload, name.value.1, []) == UnpackRest(UnpackPair, payload, offset, pairs)
      invariant paramDict == DictOf(pairs)
      decreases |payload| - offset
    {
      var pname := UnpackString(payload, offset);
      if pname.Err? {
        return Err;
      }
      var pval := UnpackString(payload, offset + pname.value.1);
      if pval.Err? {
        return Err;
      }
      var p := Pair(pname.value.0, pval.value.0);
      assert UnpackPair(payload, offset) == Ok((p, pname.value.1 + pval.value.1));
      StepForward(UnpackPair, payload, offset);
      PutLast(pairs, p);
      offset, paramDict := offset + pname.value.1 + pval.value.1, Put(paramDict, p);
      pairs := pairs + [p];
    }
    return Ok(Module(name.value.0, paramDict));
  }

  lemma StepForward<T(!new)>(unpack: Unpacker<T>, data: seq<byte>, offset: nat)
    requires Progresses(unpack) && unpack(data, offset).Ok?
    ensures unpack(data, offset).value.1 > 0
  {
  }

  lemma PutLast(ps: seq<Pair>, p: Pair)
    ensures DictOf(ps + [p]) == Put(DictOf(ps), p)
  {
    assert (ps + [p])[..|ps|] == ps;
  }

  method ReqMemoryFromBytes(payload: seq<byte>) returns (r: Result<Message>)
    ensures r == UnpackReqMemory(payload)
  {
    RestsProgress();
    hide Progresses, UnpackArea, UnpackFrom, NeverEmpty, PackArea, Size;
    var head := UnpackFrom(REQ_FORMAT, payload, 0);
    if head.Err? {
      return Err;
    }
    var offset, memAreas: seq<Area> := Size(REQ_FORMAT), [];
    while offset < |payload|
      invariant UnpackRest(UnpackArea, payload, Size(REQ_FORMAT), [])
                == UnpackRest(UnpackArea, payload, offset, memAreas)
      decreases |payload| - offset
    {
      var area := UnpackArea(payload, offset);
      if area.Err? {
        return Err;
      }
      StepForward(UnpackArea, payload, offset);
      offset, memAreas := offset + area.value.1, memAreas + [area.value.0];
    }
    return Ok(ReqMemory(head.value[0], head.value[1], memAreas));
  }

  method MemoryFromBytes(payload: seq<byte>) returns (r: Result<Message>)
    ensures r == UnpackMemory(payload)
  {
    RestsProgress();
    hide Progresses, UnpackMemArea, UnpackFrom, NeverEmpty, PackMemArea, Size;
    var head := UnpackFrom([I], payload, 0);
    if head.Err? {
      return Err;
    }
    var offset, memAreas: seq<MemArea> := Size([I]), [];
    while offset < |payload|
      invariant UnpackRest(UnpackMemArea, payload, Size([I]), [])
                == UnpackRest(UnpackMemArea, payload, offset, memAreas)
      decreases |payload| - offset
    {
      var area := UnpackMemArea(payload, offset);
      if area.Err? {
        return Err;
      }
      StepForward(UnpackMemArea, payload, offset);
      offset, memAreas := offset + area.value.1, memAreas + [area.value.0];
    }
    return Ok(Memory(head.value[0], memAreas));
  }

  /** The loop over a given number of sources. */
  method SourcesFromBytes(payload: seq<byte>, start: nat, n: nat) returns (r: Result<(seq<Source>, nat)>)
    ensures r == UnpackN(UnpackSource, payload, start, n)
  {
    hide UnpackSource, UnpackN;
    UnpackNNext(UnpackSource, payload, start, 0);
    var offset, sources: seq<Source> := start, [];
    for i := 0 to n
      invariant offset >= start && UnpackN(UnpackSource, payload, start, i) == Ok((sources, offset - start))
    {
      UnpackNNext(UnpackSource, payload, start, i);
      var src := UnpackSource(payload, offset);
      if src.Err? {
        UnpackNFailsEarly(UnpackSource, payload, start, i + 1, n);
        return Err;
      }
      offset, sources := offset + src.value.1, sources + [src.value.0];
    }
    return Ok((sources, offset - start));
  }

  lemma UnpackParamsNext(payload: seq<byte>, start: nat, i: nat)
    ensures UnpackParams(payload, start, 0) == Ok(([], 0))
    ensures UnpackParams(payload, start, i).Ok? ==>
              var (front, k) := UnpackParams(payload, start, i).value;
              UnpackParams(payload, start, i + 1)
              == match UnpackPair(payload, start + k)
                 case Err => Err
                 case Ok((p, count)) => Ok((Put(front, p), k + count))
  {
    hide UnpackPair, UnpackN, DictOf, Put;
    DictOfParams([]);
    UnpackNNext(UnpackPair, payload, start, i);
    if UnpackParams(payload, start, i).Ok? && UnpackPair(payload, start + UnpackParams(payload, start, i).value.1).Ok? {
      PutLast(UnpackN(UnpackPair, payload, start, i).value.0,
              UnpackPair(payload, start + UnpackParams(payload, start, i).value.1).value.0);
    }
  }

  /** The loop over the parameters of a module. */
  method ParamsFromBytes(payload: seq<byte>, start: nat, n: nat) returns (r: Result<(Params, nat)>)
    ensures r == UnpackParams(payload, start, n)
  {
    var offset, params: Params := start, [];
    hide *;
    UnpackParamsNext(payload, start, 0);
    for i := 0 to n
      invariant offset >= start && UnpackParams(payload, start, i) == Ok((params, offset - start))
    {
      UnpackParamsNext(payload, start, i);
      var p := UnpackPair(payload, offset);
      if p.Err? {
        UnpackParamsFailsEarly(payload, start, i + 1, n);
        return Err;
      }
      offset, params := offset + p.value.1, Put(params, p.value.0);
    }
    return Ok((params, offset - start));
  }

  lemma UnpackParamsFailsEarly(payload: seq<byte>, start: nat, i: nat, n: nat)
    requires i <= n && UnpackParams(payload, start, i).Err?
    ensures UnpackParams(payload, start, n).Err?
  {
    UnpackNFailsEarly(UnpackPair, payload, start, i, n);
  }

  method HwModsFromBytes(payload: seq<byte>, start: nat, n: nat) returns (r: Result<(seq<HwMod>, nat)>)
    ensures r == UnpackN(UnpackHwMod, payload, start, n)
  {
    hide UnpackFrom, UnpackString, UnpackPair, DictOf, UnpackN;
    UnpackNNext(UnpackHwMod, payload, start, 0);
    var offset, hwMods: seq<HwMod> := start, [];
    for i := 0 to n
      invariant offset >= start && UnpackN(UnpackHwMod, payload, start, i) == Ok((hwMods, offset - start))
    {
      ghost var before := offset;
      UnpackNNext(UnpackHwMod, payload, start, i);
      var params: Result<(Params, nat)>;
      var head := UnpackFrom(MOD_FORMAT, payload, offset);
      if head.Err? {
        UnpackNFailsEarly(UnpackHwMod, payload, start, i + 1, n);
        return Err;
      }
      offset := offset + Size(MOD_FORMAT);
      var modName := UnpackString(payload, offset);
      if modName.Err? {
        UnpackNFailsEarly(UnpackHwMod, payload, start, i + 1, n);
        return Err;
      }
      offset := offset + modName.value.1;
      params := ParamsFromBytes(payload, offset, head.value[0]);
      if params.Err? {
        UnpackNFailsEarly(UnpackHwMod, payload, start, i + 1, n);
        return Err;
      }
      offset := offset + params.value.1;
      assert UnpackHwMod(payload, before) == Ok((Module(modName.value.0, params.value.0), offset - before));
      hwMods := hwMods + [Module(modName.value.0, params.value.0)];
    }
    return Ok((hwMods, offset - start));
  }

  method LibSelsFromBytes(payload: seq<byte>, start: nat, n: nat) returns (r: Result<(seq<LibSel>, nat)>)
    ensures r == UnpackN(UnpackLibSel, payload, start, n)
  {
    hide UnpackLibSel, UnpackN;
    UnpackNNext(UnpackLibSel, payload, start, 0);
    var offset, libSels: seq<LibSel> := start, [];
    for i := 0 to n
      invariant offset >= start && UnpackN(UnpackLibSel, payload, start, i) == Ok((libSels, offset - start))
    {
      UnpackNNext(UnpackLibSel, payload, start, i);
      var libSel := UnpackLibSel(payload, offset);
      if libSel.Err? {
        UnpackNFailsEarly(UnpackLibSel, payload, start, i + 1, n);
        return Err;
      }
      offset, libSels := offset + libSel.value.1, libSels + [libSel.value.0];
    }
    return Ok((libSels, offset - start));
  }

  method IdentsFromBytes(payload: seq<byte>) returns (r: Result<Message>)
    ensures r == UnpackIdents(payload)
  {
    hide UnpackFrom, UnpackSource, UnpackHwMod, UnpackLibSel, UnpackN;
    var n := UnpackFrom(IDENTS_FORMAT, payload, 0);
    if n.Err? {
      return Err;
    }
    var offset := Size(IDENTS_FORMAT);
    var awlSources := SourcesFromBytes(payload, offset, n.value[0]);
    if awlSources.Err? {
      return Err;
    }
    offset := offset + awlSources.value.1;
    var symTabSources := SourcesFromBytes(payload, offset, n.value[1]);
    if symTabSources.Err? {
      return Err;
    }
    offset := offset + symTabSources.value.1;
    var hwMods := HwModsFromBytes(payload, offset, n.value[2]);
    if hwMods.Err? {
      return Err;
    }
    offset := offset + hwMods.value.1;
    var libSels := LibSelsFromBytes(payload, offset, n.value[3]);
    if libSels.Err? {
      return Err;
    }
    return Ok(Idents(awlSources.value.0, symTabSources.value.0, hwMods.value.0, libSels.value.0));
  }
}
