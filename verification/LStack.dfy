/**
 The L-stack of a block: direct TEMP accesses, scratch allocations above them
 (`LStackAllocator`), and the pool that recycles L-stacks (`ObjectCache`).
 */
module LStack {
  import opened Offset
  import opened Memory
  import opened Options

  /** The limit, the next free byte and the next free bit of it. */
  datatype AllocState = AllocState(maxBytes: nat, curBytes: nat, curBits: nat)

  datatype Region = Region(offset: Offset, width: nat)

  predicate ValidState(st: AllocState) {
    st.curBits < 8
  }

  /** The first bit behind everything allocated so far. */
  function Mark(st: AllocState): nat {
    8 * st.curBytes + st.curBits
  }

  /** One allocation: where it is, and the state behind it; or nothing if the stack is exhausted. */
  function Allocated(st: AllocState, nrBits: nat): Option<(Offset, AllocState)>
  {
    var byteStart := if st.curBits > 0 then st.curBytes + 1 else st.curBytes;
    var offset := if nrBits == 1 then Offset(st.curBytes, st.curBits) else Offset(byteStart, 0);
    var next :=
      if nrBits != 1 then st.(curBytes := byteStart + BytesFor(nrBits), curBits := 0)
      else if st.curBits + 1 >= 8 then st.(curBytes := st.curBytes + 1, curBits := 0)
      else st.(curBits := st.curBits + 1);
    if next.curBytes >= st.maxBytes then None else Some((offset, next))
  }

  /** The regions that a sequence of requests gets; failed requests get none and change nothing. */
  function Regions(st: AllocState, requests: seq<nat>): seq<Region>
    decreases |requests|
  {
    if requests == [] then []
    else
      match Allocated(st, requests[0])
      case None => Regions(st, requests[1..])
      case Some((offset, next)) => [Region(offset, requests[0])] + Regions(next, requests[1..])
  }

  /** The bits a region keeps for itself: whole bytes, or a single bit. */
  function RegionLo(r: Region): nat {
    ToBitOffset(r.offset)
  }

  function RegionHi(r: Region): nat {
    RegionLo(r) + (if r.width == 1 then 1 else 8 * BytesFor(r.width))
  }

  lemma AllocatedIsFresh(st: AllocState, nrBits: nat)
    requires ValidState(st) && Allocated(st, nrBits).Some?
    ensures var (offset, next) := Allocated(st, nrBits).value;
            && ValidState(next) && next.maxBytes == st.maxBytes
            && offset.bitOffset < 8 && (nrBits != 1 ==> offset.bitOffset == 0)
            && Mark(st) <= RegionLo(Region(offset, nrBits)) <= RegionHi(Region(offset, nrBits)) <= Mark(next)
            && RegionHi(Region(offset, nrBits)) <= 8 * st.maxBytes
  {
  }

  /** Single bits are packed, everything else starts at the next whole byte and takes up whole bytes. */
  function StartOf(mark: nat, nrBits: nat): nat {
    if nrBits == 1 then mark else (mark + 7) / 8 * 8
  }

  function EndOf(mark: nat, nrBits: nat): nat {
    StartOf(mark, nrBits) + (if nrBits == 1 then 1 else (nrBits + 7) / 8 * 8)
  }

  /** A request is granted if and only if it leaves a byte free, and gets the first place that suits it. */
  lemma GrantedByMark(st: AllocState, nrBits: nat)
    requires ValidState(st)
    ensures Allocated(st, nrBits).Some? <==> EndOf(Mark(st), nrBits) < 8 * st.maxBytes
    ensures Allocated(st, nrBits).Some? ==>
              var (offset, next) := Allocated(st, nrBits).value;
              && ToBitOffset(offset) == StartOf(Mark(st), nrBits) && Mark(next) == EndOf(Mark(st), nrBits)
              && next.maxBytes == st.maxBytes
  {
  }

  /** Every region lies between the mark at the start and the limit. */
  predicate Within(rs: seq<Region>, mark: nat, maxBytes: nat) {
    forall i :: 0 <= i < |rs| ==> mark <= RegionLo(rs[i]) && RegionHi(rs[i]) <= 8 * maxBytes
  }

  /** The regions lie one behind the other. */
  predicate Separate(rs: seq<Region>) {
    forall i, j :: 0 <= i < j < |rs| ==> RegionHi(rs[i]) <= RegionLo(rs[j])
  }

  /**
   Whatever is requested in whatever order, the regions lie one behind the other, above the
   bytes that were reserved at the start and below the limit.
   */
  lemma {:induction false} RegionsAreSeparate(st: AllocState, requests: seq<nat>)
    requires ValidState(st)
    ensures Within(Regions(st, requests), Mark(st), st.maxBytes) && Separate(Regions(st, requests))
    decreases |requests|
  {
    if requests != [] {
      match Allocated(st, requests[0])
      case None =>
        RegionsAreSeparate(st, requests[1..]);
      case Some((offset, next)) =>
        AllocatedIsFresh(st, requests[0]);
        RegionsAreSeparate(next, requests[1..]);
        ConsIsSeparate(Region(offset, requests[0]), Regions(next, requests[1..]), Mark(st), Mark(next), st.maxBytes);
    }
  }

  lemma ConsIsSeparate(r: Region, rest: seq<Region>, mark: nat, next: nat, maxBytes: nat)
    requires mark <= RegionLo(r) <= RegionHi(r) <= next && RegionHi(r) <= 8 * maxBytes
    requires Within(rest, next, maxBytes) && Separate(rest)
    ensures Within([r] + rest, mark, maxBytes) && Separate([r] + rest)
  {
    hide RegionLo, RegionHi;
    var rs := [r] + rest;
    forall i, j | 0 <= i < j < |rs|
      ensures RegionHi(rs[i]) <= RegionLo(rs[j])
    {
      assert next <= RegionLo(rest[j - 1]);
      if i > 0 {
        assert RegionHi(rest[i - 1]) <= RegionLo(rest[j - 1]);
      }
    }
  }

  /** The next free bit, or the next free whole byte, is at the same place in two L-stacks. */
  predicate SameStart(a: AllocState, b: AllocState, nrBits: nat) {
    if nrBits == 1 then Mark(a) == Mark(b) else (Mark(a) + 7) / 8 == (Mark(b) + 7) / 8
  }

  lemma SameOffset(a: AllocState, b: AllocState, nrBits: nat)
    requires ValidState(a) && ValidState(b) && Allocated(a, nrBits).Some? && Allocated(b, nrBits).Some?
    ensures Allocated(a, nrBits).value.0 == Allocated(b, nrBits).value.0 <==> SameStart(a, b, nrBits)
  {
  }

  // ----- sequences of successful requests

  /** The state behind a sequence of requests that are all granted. */
  function Advanced(st: AllocState, requests: seq<nat>): Option<AllocState>
    decreases |requests|
  {
    if requests == [] then Some(st)
    else
      match Allocated(st, requests[0])
      case None => None
      case Some((_, next)) => Advanced(next, requests[1..])
  }

  /** Requests that follow others are granted in the state behind those. */
  lemma {:induction false} AdvancedBy(st: AllocState, requests: seq<nat>, more: seq<nat>)
    ensures Advanced(st, requests + more)
            == match Advanced(st, requests) case None => None case Some(t) => Advanced(t, more)
    decreases |requests|
  {
    hide Allocated;
    if requests == [] {
      assert requests + more == more;
    } else {
      assert (requests + more)[1..] == requests[1..] + more;
      match Allocated(st, requests[0])
      case None =>
      case Some((_, next)) => AdvancedBy(next, requests[1..], more);
    }
  }

  lemma AdvancedOnce(st: AllocState, requests: seq<nat>, nrBits: nat)
    ensures Advanced(st, requests + [nrBits])
            == match Advanced(st, requests)
               case None => None
               case Some(t) => if Allocated(t, nrBits).None? then None else Some(Allocated(t, nrBits).value.1)
  {
    hide Allocated;
    AdvancedBy(st, requests, [nrBits]);
    match Advanced(st, requests)
    case None =>
    case Some(t) =>
      if Allocated(t, nrBits).Some? {
        assert Advanced(Allocated(t, nrBits).value.1, [nrBits][1..]) == Some(Allocated(t, nrBits).value.1);
      }
  }

  /** Granted requests have a region each, of their width. */
  lemma {:induction false} GrantedRegions(st: AllocState, requests: seq<nat>, more: seq<nat>)
    requires Advanced(st, requests).Some?
    ensures |Regions(st, requests)| == |requests|
    ensures forall i :: 0 <= i < |requests| ==> Regions(st, requests)[i].width == requests[i]
    ensures Regions(st, requests) <= Regions(st, requests + more)
    decreases |requests|
  {
    if requests != [] {
      hide Allocated;
      assert (requests + more)[1..] == requests[1..] + more;
      GrantedRegions(Allocated(st, requests[0]).value.1, requests[1..], more);
    }
  }

  class LStackAllocator {
    const localdata: ByteArray
    var maxAllocBytes: nat
    var curAllocBytes: nat
    var curAllocBits: nat

    ghost predicate Valid()
      reads this
    {
      ValidState(State())
    }

    function State(): AllocState
      reads this
    {
      AllocState(maxAllocBytes, curAllocBytes, curAllocBits)
    }

    constructor (maxSize: nat)
      ensures Valid() && fresh(localdata) && fresh(localdata.data) && localdata.data.Length == maxSize
      ensures State() == AllocState(maxSize, 0, 0)
    {
      localdata := new ByteArray(maxSize);
      maxAllocBytes, curAllocBytes, curAllocBits := maxSize, 0, 0;
    }

    /** Forget all allocations and keep the first bytes for the block's own variables. */
    method Reset(maxAllocBytes: nat, curAllocBytes: nat)
      modifies this
      ensures Valid() && State() == AllocState(maxAllocBytes, curAllocBytes, 0)
    {
      this.maxAllocBytes, this.curAllocBytes, this.curAllocBits := maxAllocBytes, curAllocBytes, 0;
    }

    /** Allocate a number of bits; a failed allocation leaves the stack as it was. */
    method Alloc(nrBits: nat) returns (r: Option<Offset>)
      requires Valid()
      modifies this
      ensures Valid()
      ensures match Allocated(old(State()), nrBits)
              case None => r == None && State() == old(State())
              case Some((offset, next)) => r == Some(offset) && State() == next
    {
      var bytes, bits := curAllocBytes, curAllocBits;
      var offset;
      if nrBits == 1 {
        offset := Offset(bytes, bits);
        bits := bits + 1;
        if bits >= 8 {
          bytes := bytes + 1;
          bits := 0;
        }
      } else {
        if bits > 0 {
          bytes := bytes + 1;
          bits := 0;
        }
        offset := Offset(bytes, 0);
        bytes := bytes + BytesFor(nrBits);
      }
      if bytes >= maxAllocBytes {
        return None;
      }
      curAllocBytes, curAllocBits := bytes, bits;
      return Some(offset);
    }
  }

  // ----- the block's own accesses

  /** An operand: an access to the block's own L-stack, or anything else. */
  datatype Operand = LAccess(offset: Offset, width: nat) | OtherOperand

  function DirectEnd(op: Operand): nat {
    match op
    case LAccess(o, w) => RoundUp(Add(o, Offset(0, w)), 2).byteOffset
    case OtherOperand => 0
  }

  /** The number of bytes a block needs below its scratch allocations. */
  method AccountTempAllocations(operands: seq<Operand>, interfaceBytes: nat) returns (tempAllocation: nat)
    ensures tempAllocation >= interfaceBytes
    ensures forall i :: 0 <= i < |operands| ==> DirectEnd(operands[i]) <= tempAllocation
    ensures || tempAllocation == interfaceBytes
            || exists i :: 0 <= i < |operands| && DirectEnd(operands[i]) == tempAllocation
  {
    var directAlloc := 0;
    for i := 0 to |operands|
      invariant forall k :: 0 <= k < i ==> DirectEnd(operands[k]) <= directAlloc
      invariant directAlloc == 0 || exists k :: 0 <= k < i && DirectEnd(operands[k]) == directAlloc
    {
      if operands[i].LAccess? {
        var offset := Add(operands[i].offset, Offset(0, operands[i].width));
        directAlloc := if RoundUp(offset, 2).byteOffset > directAlloc then RoundUp(offset,
                2).byteOffset else directAlloc;
      }
    }
    tempAllocation := if interfaceBytes > directAlloc then interfaceBytes else directAlloc;
  }

  /** The accounted bytes are the fewest words that contain the whole access. */
  lemma DirectEndCovers(o: Offset, w: nat)
    ensures ToBitOffset(o) + w <= 8 * DirectEnd(LAccess(o, w))
    ensures DirectEnd(LAccess(o, w)) % 2 == 0 && 8 * DirectEnd(LAccess(o, w)) < ToBitOffset(o) + w + 16
  {
    AddCountsBits(o, Offset(0, w));
    RoundUpCovers(Add(o, Offset(0, w)));
  }

  lemma RoundUpCovers(o: Offset)
    requires o.bitOffset < 8
    ensures ToBitOffset(o) <= 8 * RoundUp(o, 2).byteOffset < ToBitOffset(o) + 16 && RoundUp(o, 2).byteOffset % 2 == 0
  {
  }

  /** No scratch region of a block overlaps an access the block makes to its own variables. */
  lemma ScratchIsAboveDirect(operands: seq<Operand>, tempAllocation: nat, maxBytes: nat, requests: seq<nat>, i: nat,
                             k: nat)
    requires forall i :: 0 <= i < |operands| ==> DirectEnd(operands[i]) <= tempAllocation
    requires i < |operands| && operands[i].LAccess?
    requires k < |Regions(AllocState(maxBytes, tempAllocation, 0), requests)|
    ensures ToBitOffset(operands[i].offset) + operands[i].width
            <= RegionLo(Regions(AllocState(maxBytes, tempAllocation, 0), requests)[k])
  {
    DirectEndCovers(operands[i].offset, operands[i].width);
    RegionsAreSeparate(AllocState(maxBytes, tempAllocation, 0), requests);
  }

  // ----- the pool

  /** A pool of L-stacks: the most recently returned one is handed out first. */
  class ObjectCache {
    var cache: seq<LStackAllocator>

    /** No L-stack is in the pool twice. */
    ghost predicate Valid()
      reads this
    {
      forall i, j :: 0 <= i < j < |cache| ==> cache[i] != cache[j]
    }

    constructor ()
      ensures Valid() && cache == []
    {
      cache := [];
    }

    /** Take an L-stack out of the pool, or make a new one. */
    method Get(nrLocalbytes: nat) returns (l: LStackAllocator)
      requires Valid()
      modifies this
      ensures Valid() && l !in cache
      ensures old(cache) != [] ==> old(cache) == cache + [l]
      ensures old(cache) == [] ==> cache == [] && fresh(l) && fresh(l.localdata) && fresh(l.localdata.data)
                                    && l.localdata.data.Length == nrLocalbytes && l.Valid()
    {
      if cache != [] {
        l := cache[|cache| - 1];
        cache := cache[..|cache| - 1];
      } else {
        l := new LStackAllocator(nrLocalbytes);
      }
    }

    method Put(l: LStackAllocator)
      requires Valid() && l !in cache
      modifies this
      ensures Valid() && cache == old(cache) + [l]
    {
      cache := cache + [l];
    }

    method Reset()
      modifies this
      ensures Valid() && cache == []
    {
      cache := [];
    }
  }
}
