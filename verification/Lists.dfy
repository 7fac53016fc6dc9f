/**
 Lists of parts inside a payload: a given number of them, or as many as the payload holds.
 */
module Lists {
  import opened Bytes
  import opened Wire

  type Packer<!T(!new)> = T -> Result<seq<byte>>

  /** What an unpacker returns: the part, and how many bytes it takes up. */
  type Unpacker<T(!new)> = (seq<byte>, nat) -> Result<(T, nat)>

  /** Where a packed part lies, it is unpacked again. */
  ghost predicate Inverse<T(!new)>(pack: Packer<T>, unpack: Unpacker<T>) {
    forall x, data, offset :: pack(x).Ok? && At(data, offset, pack(x).value) ==>
      unpack(data, offset) == Ok((x, |pack(x).value|))
  }

  lemma FrontAndLast<T>(xs: seq<T>)
    requires xs != []
    ensures xs == xs[..|xs| - 1] + [xs[|xs| - 1]]
  {
  }

  lemma FirstJoinsFront<T>(acc: seq<T>, xs: seq<T>)
    ensures if xs == [] then acc + xs == acc else acc + xs == acc + [xs[0]] + xs[1..]
  {
  }

  lemma InverseAt<T(!new)>(pack: Packer<T>, unpack: Unpacker<T>, x: T, data: seq<byte>, offset: nat)
    requires Inverse(pack, unpack) && pack(x).Ok? && At(data, offset, pack(x).value)
    ensures unpack(data, offset) == Ok((x, |pack(x).value|))
  {
  }

  function PackEach<T(!new)>(pack: Packer<T>, xs: seq<T>): Result<seq<byte>> {
    if xs == [] then Ok([])
    else
      var front :- PackEach(pack, xs[..|xs| - 1]);
      var last :- pack(xs[|xs| - 1]);
      Ok(front + last)
  }

  /** A given number of parts, and how many bytes they take up. */
  function UnpackN<T(!new)>(unpack: Unpacker<T>, data: seq<byte>, offset: nat, n: nat): (r: Result<(seq<T>, nat)>)
    ensures r.Ok? ==> |r.value.0| == n
  {
    if n == 0 then Ok(([], 0))
    else
      var front :- UnpackN(unpack, data, offset, n - 1);
      var last :- unpack(data, offset + front.1);
      Ok((front.0 + [last.0], front.1 + last.1))
  }

  /** The loop stops at the first part that cannot be unpacked. */
  lemma {:induction false} UnpackNFailsEarly<T(!new)>(unpack: Unpacker<T>, data: seq<byte>, offset: nat, i: nat, n: nat)
    requires i <= n && UnpackN(unpack, data, offset, i).Err?
    ensures UnpackN(unpack, data, offset, n).Err?
    decreases n
  {
    if i < n {
      UnpackNFailsEarly(unpack, data, offset, i, n - 1);
    }
  }

  /** One more part. */
  lemma UnpackNNext<T(!new)>(unpack: Unpacker<T>, data: seq<byte>, offset: nat, i: nat)
    ensures UnpackN(unpack, data, offset, 0) == Ok(([], 0))
    ensures UnpackN(unpack, data, offset, i).Ok? ==>
              var (front, k) := UnpackN(unpack, data, offset, i).value;
              UnpackN(unpack, data, offset, i + 1)
              == match unpack(data, offset + k)
                 case Err => Err
                 case Ok((x, count)) => Ok((front + [x], k + count))
  {
  }

  lemma UnpackNStep<T(!new)>(pack: Packer<T>, unpack: Unpacker<T>, data: seq<byte>, offset: nat, front: seq<T>, last: T)
    requires Inverse(pack, unpack) && PackEach(pack, front).Ok? && pack(last).Ok?
    requires At(data, offset + |PackEach(pack, front).value|, pack(last).value)
    requires UnpackN(unpack, data, offset, |front|) == Ok((front, |PackEach(pack, front).value|))
    ensures UnpackN(unpack, data, offset, |front| + 1)
            == Ok((front + [last], |PackEach(pack, front).value| + |pack(last).value|))
  {
    hide Inverse, At, PackEach;
    InverseAt(pack, unpack, last, data, offset + |PackEach(pack, front).value|);
  }

  /** The packed list ends with its packed last part. */
  lemma PackEachEnds<T(!new)>(pack: Packer<T>, unpack: Unpacker<T>, data: seq<byte>, offset: nat, xs: seq<T>)
    requires PackEach(pack, xs).Ok? && At(data, offset, PackEach(pack, xs).value)
    ensures if xs == [] then UnpackN(unpack, data, offset, 0) == Ok((xs, |PackEach(pack, xs).value|))
            else var front, last := PackEach(pack, xs[..|xs| - 1]), pack(xs[|xs| - 1]);
                 && front.Ok? && last.Ok? && |PackEach(pack, xs).value| == |front.value| + |last.value|
                 && At(data, offset, front.value) && At(data, offset + |front.value|, last.value)
  {
    if xs != [] {
      AtSplit(data, offset, PackEach(pack, xs[..|xs| - 1]).value, pack(xs[|xs| - 1]).value);
    }
  }

  lemma {:induction false} UnpackNOfPackEach<T(!new)>(pack: Packer<T>, unpack: Unpacker<T>, data: seq<byte>,
                                                      offset: nat, xs: seq<T>)
    requires Inverse(pack, unpack) && PackEach(pack, xs).Ok? && At(data, offset, PackEach(pack, xs).value)
    ensures UnpackN(unpack, data, offset, |xs|) == Ok((xs, |PackEach(pack, xs).value|))
    decreases |xs|
  {
    hide *;
    PackEachEnds(pack, unpack, data, offset, xs);
    if xs != [] {
      var front, last := xs[..|xs| - 1], xs[|xs| - 1];
      UnpackNOfPackEach(pack, unpack, data, offset, front);
      UnpackNStep(pack, unpack, data, offset, front, last);
      FrontAndLast(xs);
    }
  }

  /** Every part takes up at least one byte. */
  ghost predicate Progresses<T(!new)>(unpack: Unpacker<T>) {
    forall data, offset :: unpack(data, offset).Ok? ==> unpack(data, offset).value.1 > 0
  }

  /** Parts up to the end of the data, behind those already unpacked. */
  function UnpackRest<T(!new)>(unpack: Unpacker<T>, data: seq<byte>, offset: nat, acc: seq<T>): Result<seq<T>>
    requires Progresses(unpack)
    decreases |data| - offset
  {
    if offset >= |data| then Ok(acc)
    else
      var part :- unpack(data, offset);
      UnpackRest(unpack, data, offset + part.1, acc + [part.0])
  }

  ghost predicate NeverEmpty<T(!new)>(pack: Packer<T>) {
    forall x :: pack(x).Ok? ==> pack(x).value != []
  }

  lemma NotEmptyAt<T(!new)>(pack: Packer<T>, x: T)
    requires NeverEmpty(pack) && pack(x).Ok?
    ensures pack(x).value != []
  {
  }

  lemma {:induction false} PackEachSplit<T(!new)>(pack: Packer<T>, xs: seq<T>)
    requires xs != [] && PackEach(pack, xs).Ok?
    ensures pack(xs[0]).Ok? && PackEach(pack, xs[1..]).Ok?
    ensures PackEach(pack, xs).value == pack(xs[0]).value + PackEach(pack, xs[1..]).value
    decreases |xs|
  {
    var front := xs[..|xs| - 1];
    if front == [] {
      assert PackEach(pack, front) == Ok([]);
    } else {
      PackEachSplit(pack, front);
      assert xs[1..][..|xs| - 2] == front[1..] && xs[1..][|xs| - 2] == xs[|xs| - 1];
    }
  }

  /** The loop takes the first part off the rest of the data. */
  lemma UnpackRestStep<T(!new)>(pack: Packer<T>, unpack: Unpacker<T>, data: seq<byte>, offset: nat, xs: seq<T>,
                                acc: seq<T>)
    requires Inverse(pack, unpack) && Progresses(unpack) && NeverEmpty(pack) && xs != []
    requires PackEach(pack, xs).Ok? && At(data, offset, PackEach(pack, xs).value)
    ensures pack(xs[0]).Ok? && PackEach(pack, xs[1..]).Ok?
    ensures var k := |pack(xs[0]).value|;
            && k > 0 && |PackEach(pack, xs).value| == k + |PackEach(pack, xs[1..]).value|
            && At(data, offset + k, PackEach(pack, xs[1..]).value)
            && UnpackRest(unpack, data, offset, acc) == UnpackRest(unpack, data, offset + k, acc + [xs[0]])
  {
    PackEachSplit(pack, xs);
    AtSplit(data, offset, pack(xs[0]).value, PackEach(pack, xs[1..]).value);
    NotEmptyAt(pack, xs[0]);
    InverseAt(pack, unpack, xs[0], data, offset);
  }

  lemma UnpackRestDone<T(!new)>(pack: Packer<T>, unpack: Unpacker<T>, data: seq<byte>, offset: nat, acc: seq<T>)
    requires Progresses(unpack)
    ensures PackEach(pack, []) == Ok([])
    ensures offset >= |data| ==> UnpackRest(unpack, data, offset, acc) == Ok(acc)
  {
  }

  lemma {:induction false} UnpackRestReaches<T(!new)>(pack: Packer<T>, unpack: Unpacker<T>, data: seq<byte>,
                                                      offset: nat,
                                                      xs: seq<T>, acc: seq<T>, all: seq<T>)
    requires Inverse(pack, unpack) && Progresses(unpack) && NeverEmpty(pack) && all == acc + xs
    requires PackEach(pack, xs).Ok? && At(data, offset, PackEach(pack, xs).value)
    requires offset + |PackEach(pack, xs).value| == |data|
    ensures UnpackRest(unpack, data, offset, acc) == Ok(all)
    decreases |xs|
  {
    hide *;
    FirstJoinsFront(acc, xs);
    if xs == [] {
      UnpackRestDone(pack, unpack, data, offset, acc);
    } else {
      UnpackRestStep(pack, unpack, data, offset, xs, acc);
      UnpackRestReaches(pack, unpack, data, offset + |pack(xs[0]).value|, xs[1..], acc + [xs[0]], all);
    }
  }

  lemma UnpackRestOfPackEach<T(!new)>(pack: Packer<T>, unpack: Unpacker<T>, data: seq<byte>, offset: nat, xs: seq<T>)
    requires Inverse(pack, unpack) && Progresses(unpack) && NeverEmpty(pack)
    requires PackEach(pack, xs).Ok? && At(data, offset, PackEach(pack, xs).value)
    requires offset + |PackEach(pack, xs).value| == |data|
    ensures UnpackRest(unpack, data, offset, []) == Ok(xs)
  {
    hide *;
    assert xs == [] + xs;
    UnpackRestReaches(pack, unpack, data, offset, xs, [], xs);
  }
}
