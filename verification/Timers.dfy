/**
 The classic timers (`Timer`): their deadline is looked at only when the timer is used.
 */
module Timers {
  import opened Options
  import opened S5Time

  datatype Mode = SI | SV | SE | SS | SA

  /** A timer; `status` is what reads of it return. */
  datatype State = State(prevVKE: bool, status: bool, running: bool, deadline: real, remaining: real)

  const RESET := State(false, false, false, 0.0, 0.0)

  /** Timers of these modes set their status when the deadline is reached, the others clear it. */
  predicate SetsStatus(mode: Mode) {
    mode.SE? || mode.SS?
  }

  function Remaining(deadline: real, now: real): real {
    if deadline - now > 0.0 then deadline - now else 0.0
  }

  /** Look at the deadline; if it has passed, the timer stops with the given status. */
  function CheckedWith(callback: bool, s: State, now: real): State {
    if !s.running then s
    else
      var r := Remaining(s.deadline, now);
      if r <= 0.0 then s.(running := false, status := callback, remaining := r) else s.(remaining := r)
  }

  function Checked(mode: Mode, s: State, now: real): State {
    CheckedWith(SetsStatus(mode), s, now)
  }

  function Started(s: State, now: real, seconds: real): State {
    s.(deadline := now + seconds, remaining := Remaining(now + seconds, now), running := true)
  }

  /** One execution of a timer instruction. */
  function Driven(mode: Mode, s: State, now: real, vke: bool, seconds: real): State {
    var up, down := vke && !s.prevVKE, !vke && s.prevVKE;
    var t :=
      match mode
      case SI =>
        if up then Started(s.(status := true), now, seconds)
        else if !vke then Checked(mode, s, now).(running := false, status := false)
        else s
      case SV => if up then Started(s.(status := true), now, seconds) else s
      case SE =>
        if up then Started(s, now, seconds)
        else if !vke then Checked(mode, s, now).(running := false, status := false)
        else s
      case SS => if up then Started(s, now, seconds) else s
      case SA =>
        if up then Checked(mode, s, now).(status := true, running := false)
        else if down then Started(s.(status := true), now, seconds)
        else s;
    t.(prevVKE := vke)
  }

  /** What happens to a timer at a time: its instruction runs, it is reset, or it is read. */
  datatype Op = Run(vke: bool, seconds: real) | Reset | Read

  datatype Event = Event(now: real, op: Op)

  function Applied(mode: Mode, s: State, e: Event): State {
    match e.op
    case Run(vke, seconds) => Driven(mode, s, e.now, vke, seconds)
    case Reset => s.(running := false, status := false, remaining := 0.0)
    case Read => Checked(mode, s, e.now)
  }

  function AllApplied(mode: Mode, s: State, es: seq<Event>): State
    decreases |es|
  {
    if es == [] then s else Applied(mode, AllApplied(mode, s, es[..|es| - 1]), es[|es| - 1])
  }

  // ----- what the timer stands for

  /** An edge of the input, when it came, and for how long the timer then runs. */
  datatype Edge = Edge(at: real, seconds: real, up: bool)

  /** The input, and the last rising edge and the last edge at all that no reset has followed. */
  datatype Track = Track(vke: bool, rise: Option<Edge>, edge: Option<Edge>)

  function Followed(tr: Track, e: Event): Track {
    match e.op
    case Read => tr
    case Reset => Track(tr.vke, None, None)
    case Run(vke, seconds) =>
      if vke == tr.vke then tr
      else
        var edge := Edge(e.now, seconds, vke);
        Track(vke, if vke then Some(edge) else tr.rise, Some(edge))
  }

  function AllFollowed(es: seq<Event>): Track
    decreases |es|
  {
    if es == [] then Track(false, None, None) else Followed(AllFollowed(es[..|es| - 1]), es[|es| - 1])
  }

  predicate Over(e: Edge, t: real) {
    t >= e.at + e.seconds
  }

  /** The status at time `t` of a timer that fires exactly at its deadline. */
  predicate Q(mode: Mode, tr: Track, t: real)
    requires !mode.SS?
  {
    match mode
    case SI => tr.vke && tr.rise.Some? && !Over(tr.rise.value, t)
    case SV => tr.rise.Some? && !Over(tr.rise.value, t)
    case SE => tr.vke && tr.rise.Some? && Over(tr.rise.value, t)
    case SA => tr.edge.Some? && (tr.edge.value.up || !Over(tr.edge.value, t))
  }

  /** The edge that the timer is running for, if it has not been stopped. */
  function Armed(mode: Mode, tr: Track): Option<Edge>
    requires !mode.SS?
  {
    match mode
    case SI | SE => if tr.vke then tr.rise else None
    case SV => tr.rise
    case SA => if tr.edge.Some? && !tr.edge.value.up then tr.edge else None
  }

  // ----- lazy timers refine timers that fire at their deadline

  predicate Ordered(es: seq<Event>) {
    forall i :: 0 <= i < |es| - 1 ==> es[i].now <= es[i + 1].now
  }

  /** The timer has fired for its edge or still runs for it; without one it is stopped. */
  predicate Agrees(mode: Mode, s: State, tr: Track, now: real)
    requires !mode.SS?
  {
    && s.prevVKE == tr.vke
    && match Armed(mode, tr)
       case Some(e) =>
         if s.running then s.deadline == e.at + e.seconds && s.status == !SetsStatus(mode)
         else s.status == SetsStatus(mode) && Over(e, now) && s.remaining == 0.0
       case None => !s.running && (s.status <==> mode.SA? && tr.edge.Some?)
  }

  lemma ApplyKeepsAgreement(mode: Mode, s: State, tr: Track, now: real, e: Event)
    requires !mode.SS? && Agrees(mode, s, tr, now) && now <= e.now && (mode.SA? ==> EdgeIsCurrent(tr))
    ensures Agrees(mode, Applied(mode, s, e), Followed(tr, e), e.now)
    ensures mode.SA? ==> EdgeIsCurrent(Followed(tr, e))
  {
  }

  /** The last edge led to the present input. */
  predicate EdgeIsCurrent(tr: Track) {
    tr.edge.Some? ==> tr.edge.value.up == tr.vke
  }

  lemma {:induction false} RunAgrees(mode: Mode, es: seq<Event>)
    requires !mode.SS? && Ordered(es) && es != []
    ensures Agrees(mode, AllApplied(mode, RESET, es), AllFollowed(es), es[|es| - 1].now)
    ensures EdgeIsCurrent(AllFollowed(es))
    decreases |es|
  {
    var front, e := es[..|es| - 1], es[|es| - 1];
    if front == [] {
      assert AllApplied(mode, RESET, front) == RESET && AllFollowed(front) == Track(false, None, None);
      ApplyKeepsAgreement(mode, RESET, Track(false, None, None), e.now, e);
    } else {
      assert front[|front| - 1] == es[|es| - 2];
      RunAgrees(mode, front);
      ApplyKeepsAgreement(mode, AllApplied(mode, RESET, front), AllFollowed(front), front[|front| - 1].now, e);
    }
  }

  /**
   Whenever the timer is read, it returns the status of a timer that fires exactly at its
   deadline, and the time that is left until then, although nobody has looked at the deadline
   in between.
   */
  lemma ReadIsExact(mode: Mode, es: seq<Event>, t: real)
    requires !mode.SS? && Ordered(es) && es != [] && es[|es| - 1].now <= t
    ensures var s, armed := Checked(mode, AllApplied(mode, RESET, es), t), Armed(mode, AllFollowed(es));
            && s.status == Q(mode, AllFollowed(es), t)
            && (armed.Some? ==> s.remaining == Remaining(armed.value.at + armed.value.seconds, t))
  {
    RunAgrees(mode, es);
  }

  // ----- restarts of a running timer

  /** A timer whose deadline is looked at before anything else happens. */
  function Eager(mode: Mode, s: State, es: seq<Event>): State
    decreases |es|
  {
    if es == [] then s
    else
      var e := es[|es| - 1];
      Applied(mode, Checked(mode, Eager(mode, s, es[..|es| - 1]), e.now), e)
  }

  /** The instruction restarts a timer whose deadline has passed unnoticed. */
  predicate Missed(s: State, e: Event) {
    && e.op.Run? && e.op.vke && !s.prevVKE && e.op.seconds > 0.0
    && s.running && s.deadline <= e.now && !s.status
  }

  /** From now on both timers look the same. */
  ghost predicate LookSame(mode: Mode, s: State, u: State, now: real) {
    forall t :: t >= now ==> Checked(mode, s, t) == Checked(mode, u, t)
  }

  lemma CheckedTwice(mode: Mode, s: State, now: real, t: real)
    requires now <= t
    ensures Checked(mode, Checked(mode, s, now), t) == Checked(mode, s, t)
  {
  }

  /** A step that does not miss a deadline keeps the lazy and the eager timer alike. */
  lemma StepLooksSame(s: State, u: State, now: real, e: Event)
    requires LookSame(SS, s, u, now) && now <= e.now && !Missed(s, e)
    ensures LookSame(SS, Applied(SS, s, e), Applied(SS, Checked(SS, u, e.now), e), e.now)
  {
    assert Checked(SS, s, e.now) == Checked(SS, u, e.now);
    forall t | t >= e.now
      ensures Checked(SS, Applied(SS, s, e), t) == Checked(SS, Applied(SS, Checked(SS, u, e.now), e), t)
    {
      CheckedTwice(SS, s, e.now, t);
      assert Checked(SS, s, t) == Checked(SS, u, t);
    }
  }

  /** A missed deadline shows at once. */
  lemma MissedShows(s: State, u: State, now: real, e: Event)
    requires LookSame(SS, s, u, now) && now <= e.now && Missed(s, e)
    ensures !Checked(SS, Applied(SS, s, e), e.now).status
    ensures Checked(SS, Applied(SS, Checked(SS, u, e.now), e), e.now).status
  {
    assert Checked(SS, s, e.now) == Checked(SS, u, e.now);
  }

  ghost predicate NoneMissed(es: seq<Event>) {
    forall i :: 0 <= i < |es| ==> !Missed(AllApplied(SS, RESET, es[..i]), es[i])
  }

  /** After each event, and until the next one, both timers return the same status. */
  ghost predicate SameReadings(es: seq<Event>) {
    forall n, t :: 0 < n <= |es| && t >= es[n - 1].now && (n < |es| ==> t <= es[n].now) ==>
      Checked(SS, AllApplied(SS, RESET, es[..n]), t).status == Checked(SS, Eager(SS, RESET, es[..n]), t).status
  }

  lemma {:induction false} RunLooksSame(es: seq<Event>, n: nat)
    requires Ordered(es) && 0 < n <= |es| && forall i :: 0 <= i < n ==> !Missed(AllApplied(SS, RESET, es[..i]), es[i])
    ensures LookSame(SS, AllApplied(SS, RESET, es[..n]), Eager(SS, RESET, es[..n]), es[n - 1].now)
    decreases n
  {
    assert es[..n][..n - 1] == es[..n - 1];
    assert !Missed(AllApplied(SS, RESET, es[..n - 1]), es[n - 1]);
    if n == 1 {
      StepLooksSame(RESET, RESET, es[0].now, es[0]);
    } else {
      RunLooksSame(es, n - 1);
      StepLooksSame(AllApplied(SS, RESET, es[..n - 1]), Eager(SS, RESET, es[..n - 1]), es[n - 2].now, es[n - 1]);
    }
  }

  lemma FirstMissed(es: seq<Event>, n: nat) returns (i: nat)
    requires n < |es| && Missed(AllApplied(SS, RESET, es[..n]), es[n])
    ensures i <= n && Missed(AllApplied(SS, RESET, es[..i]), es[i])
    ensures forall k :: 0 <= k < i ==> !Missed(AllApplied(SS, RESET, es[..k]), es[k])
  {
    hide *;
    i := 0;
    while !Missed(AllApplied(SS, RESET, es[..i]), es[i])
      invariant i <= n && forall k :: 0 <= k < i ==> !Missed(AllApplied(SS, RESET, es[..k]), es[k])
      decreases n - i
    {
      i := i + 1;
    }
  }

  lemma FirstMissedShows(es: seq<Event>, i: nat)
    requires Ordered(es) && i < |es| && Missed(AllApplied(SS, RESET, es[..i]), es[i])
    requires forall k :: 0 <= k < i ==> !Missed(AllApplied(SS, RESET, es[..k]), es[k])
    ensures Checked(SS, AllApplied(SS, RESET, es[..i + 1]), es[i].now).status
            != Checked(SS, Eager(SS, RESET, es[..i + 1]), es[i].now).status
  {
    assert es[..i + 1][..i] == es[..i];
    if i > 0 {
      hide Missed, Applied, Checked;
      RunLooksSame(es, i);
      MissedShows(AllApplied(SS, RESET, es[..i]), Eager(SS, RESET, es[..i]), es[i - 1].now, es[i]);
    }
  }

  /**
   SS does not look at the old deadline when it restarts the timer. Its readings are those of
   an eager timer exactly if no restart hits a timer whose deadline has passed unnoticed.
   */
  lemma RestartsAreExactUnlessMissed(es: seq<Event>)
    requires Ordered(es)
    ensures SameReadings(es) <==> NoneMissed(es)
  {
    hide Missed, Checked, AllApplied, Eager;
    if NoneMissed(es) {
      forall n, t | 0 < n <= |es| && t >= es[n - 1].now && (n < |es| ==> t <= es[n].now)
        ensures Checked(SS, AllApplied(SS, RESET, es[..n]), t).status == Checked(SS, Eager(SS, RESET, es[..n]),
                t).status
      {
        RunLooksSame(es, n);
      }
    } else {
      var n :| 0 <= n < |es| && Missed(AllApplied(SS, RESET, es[..n]), es[n]);
      var i := FirstMissed(es, n);
      FirstMissedShows(es, i);
      assert 0 < i + 1 <= |es| && es[i + 1 - 1].now <= es[i].now;
    }
  }

  /** It can happen: the input falls before the deadline and rises again after it. */
  lemma RestartCanMiss()
    ensures var es := [Event(0.0, Run(true, 1.0)), Event(0.5, Run(false, 1.0)), Event(2.0, Run(true, 1.0))];
            Ordered(es) && !NoneMissed(es)
  {
    var es := [Event(0.0, Run(true, 1.0)), Event(0.5, Run(false, 1.0)), Event(2.0, Run(true, 1.0))];
    assert es[..2][..1] == es[..1] == [es[0]] && es[..2][1] == es[1];
    assert AllApplied(SS, RESET, es[..1][..0]) == RESET;
    assert AllApplied(SS, RESET, es[..1]) == Applied(SS, RESET, es[0]);
    assert AllApplied(SS, RESET, es[..2]) == Applied(SS, Applied(SS, RESET, es[0]), es[1]);
    assert Missed(AllApplied(SS, RESET, es[..2]), es[2]);
  }

  /** `setTimevalS5T`: a running timer is started again. */
  function TimevalSet(s: State, now: real, seconds: real): State {
    if s.running then Started(s, now, seconds) else s
  }

  /** It does not look at the deadline either, and so revives a timer that should have fired, in every mode. */
  lemma TimevalSetIsExactUnlessMissed(mode: Mode, s: State, now: real, seconds: real)
    ensures (forall t :: t >= now ==>
               Checked(mode, TimevalSet(s, now, seconds), t).status
               == Checked(mode, TimevalSet(Checked(mode, s, now), now, seconds), t).status)
            <==> !(s.running && s.deadline <= now && s.status != SetsStatus(mode) && seconds > 0.0)
  {
    var a, b := TimevalSet(s, now, seconds), TimevalSet(Checked(mode, s, now), now, seconds);
    if s.running && s.deadline <= now && s.status != SetsStatus(mode) && seconds > 0.0 {
      assert Checked(mode, a, now).status != Checked(mode, b, now).status;
    }
  }

  // ----- the timer, updated in place

  class Timer {
    var prevVKE: bool
    var timebase: nat
    var deadlineCallback: Option<bool>
    var deadline: real
    var remaining: real
    var status: bool
    var running: bool

    function View(): State
      reads this
    {
      State(prevVKE, status, running, deadline, remaining)
    }

    /** A running timer knows what to do at its deadline. */
    ghost predicate Valid()
      reads this
    {
      timebase < 4 && remaining >= 0.0 && (running ==> deadlineCallback.Some?)
    }

    constructor ()
      ensures Valid() && View() == RESET && deadlineCallback == None
    {
      prevVKE, timebase, deadlineCallback := false, 0, None;
      deadline, remaining, status, running := 0.0, 0.0, false, false;
    }

    method CheckDeadline(now: real)
      requires Valid()
      modifies this`remaining, this`status, this`running
      ensures Valid() && View() == CheckedWith(deadlineCallback == Some(true), old(View()), now)
    {
      if running {
        remaining := Remaining(deadline, now);
        if remaining <= 0.0 {
          running, status := false, deadlineCallback.value;
        }
      }
    }

    /** Start with a coded time; fails if the code is invalid. */
    method Start(now: real, s5t: nat) returns (ok: bool)
      requires deadlineCallback.Some? && Valid()
      modifies this`timebase, this`deadline, this`remaining, this`running
      ensures Valid() && (ok <==> ValidS5t(s5t))
      ensures ok ==> View() == Started(old(View()), now, S5tToSeconds(s5t).value) && timebase == Timebase(s5t)
      ensures !ok ==> View() == old(View())
    {
      timebase := Timebase(s5t);
      var seconds := S5tToSeconds(s5t);
      if seconds.None? {
        return false;
      }
      deadline := now + seconds.value;
      remaining := Remaining(deadline, now);
      running := true;
      return true;
    }

    method Get(now: real) returns (q: bool)
      requires Valid()
      modifies this`remaining, this`status, this`running
      ensures Valid() && View() == CheckedWith(deadlineCallback == Some(true), old(View()), now) && q == status
    {
      CheckDeadline(now);
      q := status;
    }

    method Reset()
      requires Valid()
      modifies this`remaining, this`status, this`running
      ensures Valid() && View() == old(View()).(running := false, status := false, remaining := 0.0)
    {
      running, status, remaining := false, false, 0.0;
    }

    /** The remaining time as a coded time in the timer's own time base. */
    method GetTimevalS5T(now: real) returns (s5t: nat)
      requires Valid()
      modifies this`remaining, this`status, this`running
      ensures Valid() && View() == CheckedWith(deadlineCallback == Some(true), old(View()), now)
      ensures s5t == InBase(timebase, remaining)
    {
      CheckDeadline(now);
      s5t := InBase(timebase, remaining);
    }

    method RunSI(now: real, vke: bool, s5t: nat) returns (ok: bool)
      requires Valid()
      modifies this
      ensures Valid() && deadlineCallback == Some(SetsStatus(SI))
      ensures ok <==> ValidS5t(s5t) || !vke || old(prevVKE)
      ensures ok ==> View() == Driven(SI, old(View()), now, vke, if ValidS5t(s5t) then S5tToSeconds(s5t).value else 0.0)
    {
      deadlineCallback := Some(false);
      ok := true;
      if vke {
        if !prevVKE {
          status := true;
          ok := Start(now, s5t);
        }
      } else {
        CheckDeadline(now);
        running, status := false, false;
      }
      prevVKE := if ok then vke else prevVKE;
    }

    method RunSV(now: real, vke: bool, s5t: nat) returns (ok: bool)
      requires Valid()
      modifies this
      ensures Valid() && deadlineCallback == Some(SetsStatus(SV))
      ensures ok <==> ValidS5t(s5t) || !vke || old(prevVKE)
      ensures ok ==> View() == Driven(SV, old(View()), now, vke, if ValidS5t(s5t) then S5tToSeconds(s5t).value else 0.0)
    {
      deadlineCallback := Some(false);
      ok := true;
      if vke && !prevVKE {
        status := true;
        ok := Start(now, s5t);
      }
      prevVKE := if ok then vke else prevVKE;
    }

    method RunSE(now: real, vke: bool, s5t: nat) returns (ok: bool)
      requires Valid()
      modifies this
      ensures Valid() && deadlineCallback == Some(SetsStatus(SE))
      ensures ok <==> ValidS5t(s5t) || !vke || old(prevVKE)
      ensures ok ==> View() == Driven(SE, old(View()), now, vke, if ValidS5t(s5t) then S5tToSeconds(s5t).value else 0.0)
    {
      deadlineCallback := Some(true);
      ok := true;
      if vke {
        if !prevVKE {
          ok := Start(now, s5t);
        }
      } else {
        CheckDeadline(now);
        running, status := false, false;
      }
      prevVKE := if ok then vke else prevVKE;
    }

    method RunSS(now: real, vke: bool, s5t: nat) returns (ok: bool)
      requires Valid()
      modifies this
      ensures Valid() && deadlineCallback == Some(SetsStatus(SS))
      ensures ok <==> ValidS5t(s5t) || !vke || old(prevVKE)
      ensures ok ==> View() == Driven(SS, old(View()), now, vke, if ValidS5t(s5t) then S5tToSeconds(s5t).value else 0.0)
    {
      deadlineCallback := Some(true);
      ok := true;
      if vke && !prevVKE {
        ok := Start(now, s5t);
      }
      prevVKE := if ok then vke else prevVKE;
    }

    method RunSA(now: real, vke: bool, s5t: nat) returns (ok: bool)
      requires Valid()
      modifies this
      ensures Valid() && deadlineCallback == Some(SetsStatus(SA))
      ensures ok <==> ValidS5t(s5t) || vke || !old(prevVKE)
      ensures ok ==> View() == Driven(SA, old(View()), now, vke, if ValidS5t(s5t) then S5tToSeconds(s5t).value else 0.0)
    {
      deadlineCallback := Some(false);
      ok := true;
      if vke && !prevVKE {
        CheckDeadline(now);
        status, running := true, false;
      }
      if !vke && prevVKE {
        status := true;
        ok := Start(now, s5t);
      }
      prevVKE := if ok then vke else prevVKE;
    }

    /** Give a running timer a new time. */
    method SetTimevalS5T(now: real, s5t: nat) returns (ok: bool)
      requires Valid()
      modifies this`timebase, this`deadline, this`remaining, this`running
      ensures Valid() && (ok <==> ValidS5t(s5t) || !old(running))
      ensures ok ==> View() == TimevalSet(old(View()), now, if ValidS5t(s5t) then S5tToSeconds(s5t).value else 0.0)
    {
      ok := true;
      if running {
        ok := Start(now, s5t);
      }
    }
  }
}
