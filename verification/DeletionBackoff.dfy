/** The requeue delay of a Buckety whose recursive deletion is in progress. */
module DeletionBackoff {
  import opened Doubling

  const CAP: nat := 120

  datatype Event = Pass(uid: string, stalled: bool) | Forgotten(uid: string)

  /** Stalled passes of uid in a row at the end of a history, whatever happened
      to other Bucketies in between. */
  function Streak(history: seq<Event>, uid: string): nat {
    if history == [] then 0
    else
      var e, before := history[|history| - 1], history[..|history| - 1];
      if e.uid != uid then Streak(before, uid)
      else if e.Pass? && e.stalled then Streak(before, uid) + 1
      else 0
  }

  lemma StreakAppend(history: seq<Event>, e: Event)
    ensures forall uid :: Streak(history + [e], uid) ==
              (if e.uid != uid then Streak(history, uid)
               else if e.Pass? && e.stalled then Streak(history, uid) + 1
               else 0)
  {
    assert (history + [e])[..|history|] == history;
  }

  /** The delays one by one: 2, 4, 8, 16, 32, 64 seconds, then two minutes for good. */
  lemma DelaysExactly(k: nat)
    requires k > 0
    ensures Doubled(k, CAP) == if k >= 7 then 120 else [2, 4, 8, 16, 32, 64][k - 1]
  {
    assert Pow2(0) == 1 && Pow2(1) == 2 && Pow2(2) == 4 && Pow2(3) == 8;
    assert Pow2(4) == 16 && Pow2(5) == 32 && Pow2(6) == 64;
    if k >= 7 {
      DoubledMonotone(7, k, CAP);
    }
  }

  class Tracker {
    var delay: map<string, nat>
    ghost var history: seq<Event>

    /** Exactly the Bucketies on a stalled streak are tracked, at the delay of
        their streak. */
    ghost predicate Valid()
      reads this
    {
      && (forall uid :: uid in delay <==> Streak(history, uid) > 0)
      && (forall uid <- delay :: delay[uid] == Doubled(Streak(history, uid), CAP))
    }

    constructor ()
      ensures Valid() && history == []
    {
      delay, history := map[], [];
    }

    /** The k-th stalled pass in a row waits min(2*2^(k-1), 120) seconds; a pass
        that removed something waits two. */
    method Next(uid: string, stalled: bool) returns (d: nat)
      requires Valid()
      modifies this
      ensures Valid() && history == old(history) + [Pass(uid, stalled)]
      ensures d == if stalled then Doubled(Streak(history, uid), CAP) else 2
      ensures 2 <= d <= 120 && (stalled && Streak(history, uid) >= 7 ==> d == 120)
    {
      history := history + [Pass(uid, stalled)];
      StreakAppend(old(history), Pass(uid, stalled));
      if stalled {
        DelaysExactly(Streak(history, uid));
      }
      if !stalled {
        delay := delay - {uid};
        return 2;
      }
      if uid !in delay {
        d := 2;
      } else {
        DoubledStep(Streak(old(history), uid), CAP);
        d := Min(2 * delay[uid], CAP);
      }
      delay := delay[uid := d];
    }

    method Forget(uid: string)
      requires Valid()
      modifies this
      ensures Valid() && history == old(history) + [Forgotten(uid)]
    {
      history := history + [Forgotten(uid)];
      StreakAppend(old(history), Forgotten(uid));
      delay := delay - {uid};
    }
  }
}
