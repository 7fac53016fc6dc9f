/**
 The timer of mode SS, which keeps its status once its time has run out: what it means, said by
 the edges and resets it was given.
 */
module RetentiveTimer {
  import opened Options
  import opened Timers

  /** Event `i` is a rising edge of the input. */
  predicate Rises(es: seq<Event>, i: nat)
    requires i < |es|
  {
    es[i].op.Run? && es[i].op.vke && !AllFollowed(es[..i]).vke
  }

  /** The time of rising edge `i` ran out by time `t`, before another edge, and no reset came since the edge. */
  predicate FiredFor(es: seq<Event>, i: nat, t: real)
    requires i < |es|
  {
    && Rises(es, i) && es[i].now + es[i].op.seconds <= t
    && forall j :: i < j < |es| ==>
         !es[j].op.Reset? && (Rises(es, j) ==> es[i].now + es[i].op.seconds <= es[j].now)
  }

  ghost predicate Fired(es: seq<Event>, t: real) {
    exists i :: 0 <= i < |es| && FiredFor(es, i, t)
  }

  lemma SameRise(es: seq<Event>, e: Event, i: nat)
    requires i < |es|
    ensures Rises(es + [e], i) <==> Rises(es, i)
  {
    assert (es + [e])[..i] == es[..i];
  }

  /** An event that is no reset leaves what has been fired by then, and an edge may fire itself. */
  lemma FiredNext(es: seq<Event>, e: Event, t: real)
    requires e.now <= t && !e.op.Reset?
    ensures var rise := Rises(es + [e], |es|);
            Fired(es + [e], t) <==> if rise then Fired(es, e.now) || e.now + e.op.seconds <= t else Fired(es, t)
  {
    var all, rise := es + [e], Rises(es + [e], |es|);
    var until := if rise then e.now else t;
    forall i | 0 <= i < |es|
      ensures FiredFor(all, i, t) <==> FiredFor(es, i, until)
    {
      OlderFires(es, e, i, t);
    }
    hide Rises, FiredFor;
    if rise {
      LastFires(es, e, t);
    } else {
      OnlyEdgesFire(all, |es|, t);
    }
    if Fired(es, until) {
      var i :| 0 <= i < |es| && FiredFor(es, i, until);
      assert FiredFor(all, i, t);
    }
    if Fired(all, t) {
      var i :| 0 <= i < |all| && FiredFor(all, i, t);
      assert i < |es| ==> FiredFor(es, i, until);
    }
  }

  lemma OlderFires(es: seq<Event>, e: Event, i: nat, t: real)
    requires i < |es| && e.now <= t && !e.op.Reset?
    ensures FiredFor(es + [e], i, t)
            <==> FiredFor(es, i, if Rises(es + [e], |es|) then e.now else t)
  {
    var all := es + [e];
    forall j | 0 <= j < |es|
      ensures (Rises(all, j) <==> Rises(es, j)) && all[j] == es[j]
    {
      SameRise(es, e, j);
    }
    assert all[|es|] == e;
    hide Rises;
  }

  lemma LastFires(es: seq<Event>, e: Event, t: real)
    requires Rises(es + [e], |es|)
    ensures FiredFor(es + [e], |es|, t) <==> e.now + e.op.seconds <= t
  {
  }

  lemma OnlyEdgesFire(es: seq<Event>, i: nat, t: real)
    requires i < |es| && !Rises(es, i)
    ensures !FiredFor(es, i, t)
  {
  }

  lemma NothingAfterReset(es: seq<Event>, e: Event, t: real)
    requires e.op.Reset?
    ensures !Fired(es + [e], t)
  {
    hide AllFollowed;
    assert (es + [e])[|es|] == e;
  }

  /** From now on, the timer would be found with a status exactly if it has fired by then. */
  ghost predicate Latched(s: State, es: seq<Event>, now: real) {
    && s.prevVKE == AllFollowed(es).vke
    && forall t :: t >= now ==> Checked(SS, s, t).status == Fired(es, t)
  }

  lemma FollowedNext(es: seq<Event>, e: Event)
    ensures AllFollowed(es + [e]) == Followed(AllFollowed(es), e)
    ensures Rises(es + [e], |es|) <==> e.op.Run? && e.op.vke && !AllFollowed(es).vke
  {
    assert (es + [e])[..|es|] == es;
  }

  /** One event, if its deadline is looked at first. */
  lemma StepIsLatched(s: State, es: seq<Event>, now: real, e: Event)
    requires Latched(s, es, now) && now <= e.now
    ensures Latched(Applied(SS, Checked(SS, s, e.now), e), es + [e], e.now)
  {
    var u := Checked(SS, s, e.now);
    FollowedNext(es, e);
    assert u.prevVKE == s.prevVKE;
    hide AllFollowed, Rises, Fired;
    forall t | t >= e.now
      ensures Checked(SS, Applied(SS, u, e), t).status == Fired(es + [e], t)
    {
      CheckedTwice(SS, s, e.now, t);
      if e.op.Reset? {
        NothingAfterReset(es, e, t);
      } else {
        FiredNext(es, e, t);
        StepReads(s, e, t);
      }
    }
  }

  /** A read sees the status so far, or the time of the edge that has just come. */
  lemma StepReads(s: State, e: Event, t: real)
    requires e.now <= t && !e.op.Reset?
    ensures Checked(SS, Applied(SS, Checked(SS, s, e.now), e), t).status
            == if e.op.Run? && e.op.vke && !s.prevVKE then
                 Checked(SS, s, e.now).status || e.now + e.op.seconds <= t
               else Checked(SS, s, t).status
  {
    CheckedTwice(SS, s, e.now, t);
  }

  lemma {:induction false} EagerIsLatched(es: seq<Event>)
    requires Ordered(es) && es != []
    ensures Latched(Eager(SS, RESET, es), es, es[|es| - 1].now)
    decreases |es|
  {
    var front, e := es[..|es| - 1], es[|es| - 1];
    assert front + [e] == es;
    hide Latched, Fired, Applied, Checked;
    if front == [] {
      NothingFired(e.now);
      StepIsLatched(RESET, [], e.now, e);
    } else {
      assert front[|front| - 1] == es[|es| - 2];
      EagerIsLatched(front);
      StepIsLatched(Eager(SS, RESET, front), front, es[|es| - 2].now, e);
    }
  }

  lemma NothingFired(now: real)
    ensures Latched(RESET, [], now)
  {
  }

  /**
   As long as no restart has missed a deadline, a read of an SS timer returns whether the time of
   some rising edge has run out before the next one, with no reset since. The input may fall in
   between, and once fired, the timer stays so until it is reset.
   */
  lemma RetentiveIsExact(es: seq<Event>, t: real)
    requires Ordered(es) && es != [] && es[|es| - 1].now <= t && NoneMissed(es)
    ensures Checked(SS, AllApplied(SS, RESET, es), t).status <==> Fired(es, t)
  {
    EagerIsLatched(es);
    hide Fired, Applied, Checked, AllApplied, Eager, Missed, AllFollowed;
    assert es[..|es|] == es;
    RunLooksSame(es, |es|);
  }

  /** The run of a timer that restarts, whether it missed a deadline or not: it runs for the last edge. */
  predicate RunsForLast(s: State, tr: Track, now: real) {
    && s.prevVKE == tr.vke && (s.running ==> tr.rise.Some?)
    && (tr.rise.Some? ==>
          if s.running then s.deadline == tr.rise.value.at + tr.rise.value.seconds
          else Over(tr.rise.value, now) && s.remaining == 0.0)
  }

  lemma {:induction false} RunIsForLast(es: seq<Event>)
    requires Ordered(es) && es != []
    ensures RunsForLast(AllApplied(SS, RESET, es), AllFollowed(es), es[|es| - 1].now)
    decreases |es|
  {
    var front, e := es[..|es| - 1], es[|es| - 1];
    if front == [] {
      assert AllApplied(SS, RESET, front) == RESET && AllFollowed(front) == Track(false, None, None);
      StepIsForLast(RESET, Track(false, None, None), e.now, e);
    } else {
      assert front[|front| - 1] == es[|es| - 2];
      RunIsForLast(front);
      StepIsForLast(AllApplied(SS, RESET, front), AllFollowed(front), front[|front| - 1].now, e);
    }
  }

  lemma StepIsForLast(s: State, tr: Track, now: real, e: Event)
    requires RunsForLast(s, tr, now) && now <= e.now
    ensures RunsForLast(Applied(SS, s, e), Followed(tr, e), e.now)
  {
  }

  /** The time that is left is always that of the last rising edge, missed deadlines or not. */
  lemma RemainingIsExact(es: seq<Event>, t: real)
    requires Ordered(es) && es != [] && es[|es| - 1].now <= t && AllFollowed(es).rise.Some?
    ensures var rise := AllFollowed(es).rise.value;
            Checked(SS, AllApplied(SS, RESET, es), t).remaining == Remaining(rise.at + rise.seconds, t)
  {
    RunIsForLast(es);
  }

  /** Whatever its mode, a timer that has seen no edge since its last reset is as it was made, but for its input. */
  lemma {:induction false} NothingSinceReset(mode: Mode, es: seq<Event>)
    requires AllFollowed(es).edge.None?
    ensures var s := AllApplied(mode, RESET, es);
            s == State(AllFollowed(es).vke, false, false, s.deadline, 0.0) && AllFollowed(es).rise.None?
    decreases |es|
  {
    if es != [] && !es[|es| - 1].op.Reset? {
      NothingSinceReset(mode, es[..|es| - 1]);
    } else if es != [] {
      InputIsFollowed(mode, es[..|es| - 1]);
    }
  }

  lemma {:induction false} InputIsFollowed(mode: Mode, es: seq<Event>)
    ensures AllApplied(mode, RESET, es).prevVKE == AllFollowed(es).vke
    decreases |es|
  {
    if es != [] {
      InputIsFollowed(mode, es[..|es| - 1]);
    }
  }
}
