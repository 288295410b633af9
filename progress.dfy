/** The "Encoding" progress throttle of the render tick: a frame reports its
    whole elapsed second only when that second is later than the last one
    reported, and the denominator is the video length rounded up to whole
    seconds. */
module Progress {
  /** `Math.ceil(totalMs / 1000)`. */
  function TotalSeconds(totalMs: nat): (r: nat)
    ensures r * 1000 >= totalMs
    ensures r == 0 || (r - 1) * 1000 < totalMs
  {
    (totalMs + 999) / 1000
  }

  /** `Math.floor(elapsed / 1000)`. */
  function Second(elapsed: nat): (r: nat)
    ensures r * 1000 <= elapsed < (r + 1) * 1000
  {
    elapsed / 1000
  }

  /** A later instant never falls in an earlier second. */
  lemma SecondMonotone(a: nat, b: nat)
    requires a <= b
    ensures Second(a) <= Second(b)
  {
  }

  predicate Increasing(s: seq<int>)
  {
    forall i, j :: 0 <= i < j < |s| ==> s[i] < s[j]
  }

  /** Each of the first `n` instants is no earlier than the one before it. */
  predicate SortedUpTo(s: seq<nat>, n: nat)
    requires n <= |s|
  {
    n <= 1 || (SortedUpTo(s, n - 1) && s[n - 2] <= s[n - 1])
  }

  /** Each instant is no earlier than the one before it. */
  predicate Sorted(s: seq<nat>)
  {
    SortedUpTo(s, |s|)
  }

  /** Whether the first `n` instants are in order depends on them alone. */
  lemma {:induction false} SortedUpToPrefix(s: seq<nat>, t: seq<nat>, n: nat)
    requires n <= |s| && n <= |t|
    requires forall i :: 0 <= i < n ==> s[i] == t[i]
    ensures SortedUpTo(s, n) == SortedUpTo(t, n)
  {
    if n > 1 {
      SortedUpToPrefix(s, t, n - 1);
    }
  }

  /** An instant appended to ordered instants keeps them in order exactly
      when it is no earlier than the last of them. */
  lemma SortedSnoc(s: seq<nat>, e: nat)
    ensures Sorted(s + [e]) <==> Sorted(s) && (s != [] ==> s[|s| - 1] <= e)
  {
    SortedUpToPrefix(s, s + [e], |s|);
  }

  /** The seconds reported so far, and `lastProgressSecond`. */
  datatype Throttle = Throttle(reported: seq<nat>, last: int)

  /** `lastProgressSecond = -1`, nothing reported. */
  const Initial: Throttle := Throttle([], -1)

  /** One drawn frame at `elapsed` through the throttle. */
  function Step(t: Throttle, elapsed: nat): Throttle
  {
    var second := Second(elapsed);
    if second > t.last then Throttle(t.reported + [second], second) else t
  }

  /** The throttle after the first `n` frames drawn at `drawn`, in order. */
  function AfterUpTo(drawn: seq<nat>, n: nat): Throttle
    requires n <= |drawn|
  {
    if n == 0 then Initial else Step(AfterUpTo(drawn, n - 1), drawn[n - 1])
  }

  /** The throttle after the frames drawn at `drawn`, in order. */
  function After(drawn: seq<nat>): Throttle
  {
    AfterUpTo(drawn, |drawn|)
  }

  /** The throttle after the first `n` frames depends on those frames alone. */
  lemma {:induction false} AfterUpToPrefix(s: seq<nat>, t: seq<nat>, n: nat)
    requires n <= |s| && n <= |t|
    requires forall i :: 0 <= i < n ==> s[i] == t[i]
    ensures AfterUpTo(s, n) == AfterUpTo(t, n)
  {
    if n > 0 {
      AfterUpToPrefix(s, t, n - 1);
    }
  }

  /** A frame drawn after `drawn` takes the throttle one step further. */
  lemma AfterSnoc(drawn: seq<nat>, elapsed: nat)
    ensures After(drawn + [elapsed]) == Step(After(drawn), elapsed)
  {
    AfterUpToPrefix(drawn, drawn + [elapsed], |drawn|);
  }

  /** The seconds of the frames drawn at `drawn`. */
  function Seconds(drawn: seq<nat>): set<nat>
  {
    set i | 0 <= i < |drawn| :: Second(drawn[i])
  }

  /** The throttle's state is always consistent: the reported seconds are
      strictly increasing (so at most one report per second), each one is
      the second of some drawn frame, `lastProgressSecond` is the last of
      them (or -1 before any), and a report exists as soon as a frame was
      drawn. */
  lemma {:induction false} AfterShape(drawn: seq<nat>, n: nat)
    requires n <= |drawn|
    ensures var t := AfterUpTo(drawn, n);
      && Increasing(t.reported)
      && (t.reported == [] <==> n == 0)
      && (t.reported == [] ==> t.last == -1)
      && (t.reported != [] ==> t.last == t.reported[|t.reported| - 1])
      && forall s :: s in t.reported ==> s in Seconds(drawn)
  {
    if n > 0 {
      AfterShape(drawn, n - 1);
      var before := AfterUpTo(drawn, n - 1);
      var second := Second(drawn[n - 1]);
      assert second in Seconds(drawn);
      if second > before.last {
        assert AfterUpTo(drawn, n).reported == before.reported + [second];
      }
    }
  }

  /** The first drawn frame always reports its own second. */
  lemma {:induction false} FirstReport(drawn: seq<nat>, n: nat)
    requires 0 < n <= |drawn|
    ensures AfterUpTo(drawn, n).reported != [] && AfterUpTo(drawn, n).reported[0] == Second(drawn[0])
  {
    if n > 1 {
      FirstReport(drawn, n - 1);
    }
  }

  /** For frames drawn in time order, `lastProgressSecond` is the second of
      the latest frame and every second in which a frame was drawn is
      reported: the seconds between reports are skipped only when no frame
      fell in them. */
  lemma {:induction false} SortedAfterReportsAll(drawn: seq<nat>, n: nat)
    requires n <= |drawn| && SortedUpTo(drawn, n)
    ensures var t := AfterUpTo(drawn, n);
      && (n > 0 ==> t.last == Second(drawn[n - 1]))
      && forall i :: 0 <= i < n ==> Second(drawn[i]) in t.reported
  {
    if n > 0 {
      SortedAfterReportsAll(drawn, n - 1);
      AfterShape(drawn, n - 1);
      if n > 1 {
        SecondMonotone(drawn[n - 2], drawn[n - 1]);
      }
    }
  }
}
