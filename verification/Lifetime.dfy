/** The lifetime of a host federation: AVAILABLE for 24 hours, renewed once at 23 hours
    to 47 hours, then LOCKED. */
module Lifetime {
  import opened Basics
  import opened Naming

  /** Times and durations in nanoseconds. */
  const SECOND: int := 1_000_000_000
  const HOUR: int := 3600 * SECOND
  const MILLISECOND: int := 1_000_000

  datatype State = Available | Locked | Other

  /** `None` is the zero time. */
  datatype Dates = Dates(expiry: Option<int>, renewal: Option<int>, state: State)

  datatype Outcome = Outcome(dates: Dates, requeue: int, stop: bool)

  /** A clock reading is after the zero time. */
  predicate After(now: int, t: Option<int>) {
    t.None? || now > t.value
  }

  function Min(requeue: int, d: int): int {
    if requeue == 0 || d < requeue then d else requeue
  }

  /** What one call makes of the dates, the state and the requeue. */
  function Expire(d: Dates, now: int): Outcome {
    var expired := d.expiry.Some? && now > d.expiry.value;
    var r1 := if d.expiry.Some? && now < d.expiry.value then d.expiry.value - now else 0;
    var s1 := if expired then Locked else d.state;
    var renewed := d.renewal.Some? && now > d.renewal.value;
    var e2 := if renewed then Some(d.renewal.value + 24 * HOUR) else d.expiry;
    var n2 := if renewed then None else d.renewal;
    var r2 := if d.renewal.Some? && now < d.renewal.value then Min(r1, d.renewal.value - now) else r1;
    if n2.None? && After(now, e2) then Outcome(Dates(None, n2, Locked), 0, true)
    else if expired then Outcome(Dates(e2, n2, s1), 0, true)
    else Outcome(Dates(e2, n2, s1), if r2 > 0 then r2 + SECOND else 0, false)
  }

  class Federation {
    var expiry: Option<int>
    var renewal: Option<int>
    var state: State
    var contextId: string  // the string hashed into it
    var tag: string        // the string hashed into the resource-id label

    function Get(): Dates
      reads this
    {
      Dates(expiry, renewal, state)
    }

    constructor ()
      ensures Get() == Dates(None, None, Other) && contextId == "" && tag == ""
    {
      expiry, renewal, state, contextId, tag := None, None, Other, "", "";
    }

    /** First reconcile of a new host federation: the context id and the label are made,
        dates that are set are kept. It asks for no next call, so when the first call of
        `FederationExpiry` comes is left to other events. */
    method Initialise(operatorId: string, initialDate: int, country: string) returns (requeue: int)
      modifies this
      ensures requeue == 0
      ensures contextId == FederationKey(operatorId, Millis(initialDate / MILLISECOND), country)
      ensures tag == operatorId + country
      ensures old(expiry).None? && old(renewal).None? ==> Get() == Fresh(initialDate)
      ensures state == Available
      ensures expiry == if old(expiry).Some? then old(expiry) else Some(initialDate + 24 * HOUR)
      ensures renewal == if old(renewal).Some? then old(renewal) else Some(initialDate + 23 * HOUR)
    {
      contextId := FederationKey(operatorId, Millis(initialDate / MILLISECOND), country);
      tag := operatorId + country;
      if expiry.None? {
        expiry := Some(initialDate + 24 * HOUR);
      }
      if renewal.None? {
        renewal := Some(initialDate + 23 * HOUR);
      }
      state := Available;
      requeue := 0;
    }

    method FederationExpiry(now: int) returns (requeue: int, stop: bool)
      modifies this`expiry, this`renewal, this`state
      ensures Outcome(Get(), requeue, stop) == Expire(old(Get()), now)
      ensures !stop && expiry.Some? ==> expiry.value >= now
    {
      requeue, stop := 0, false;
      var requeueAfter := 0;
      var needsStatusUpdate := false;
      if expiry.Some? {
        if now > expiry.value {
          state := Locked;
          needsStatusUpdate := true;
        } else if now < expiry.value {
          var timeUntilExpiry := expiry.value - now;
          if requeueAfter == 0 || timeUntilExpiry < requeueAfter {
            requeueAfter := timeUntilExpiry;
          }
        }
      }
      if renewal.Some? {
        if now > renewal.value {
          expiry := Some(renewal.value + 24 * HOUR);
          renewal := None;
        } else if now < renewal.value {
          var timeUntilRenewal := renewal.value - now;
          if requeueAfter == 0 || timeUntilRenewal < requeueAfter {
            requeueAfter := timeUntilRenewal;
          }
        }
      }
      if renewal.None? && After(now, expiry) {
        state := Locked;
        expiry := None;
        return 0, true;
      }
      if needsStatusUpdate {
        return 0, true;
      }
      if requeueAfter > 0 {
        requeueAfter := requeueAfter + SECOND;
        requeue := requeueAfter;
      }
      if expiry.Some? && expiry.value < now {
        assert false;  // the last lock check of the function is never reached
      }
    }
  }

  function Fresh(initialDate: int): Dates {
    Dates(Some(initialDate + 24 * HOUR), Some(initialDate + 23 * HOUR), Available)
  }

  // ---------------------------------------------------------------- every run

  function Calls(d: Dates, times: seq<int>): Dates {
    if times == [] then d else Expire(Calls(d, times[..|times| - 1]), times[|times| - 1]).dates
  }

  predicate NonDecreasing(times: seq<int>) {
    forall i, j :: 0 <= i < j < |times| ==> times[i] <= times[j]
  }

  /** The three date pairs of a lifetime. */
  predicate NotRenewed(d: Dates, t0: int) {
    d.expiry == Some(t0 + 24 * HOUR) && d.renewal == Some(t0 + 23 * HOUR)
  }

  predicate RenewedOnce(d: Dates, t0: int) {
    d.expiry == Some(t0 + 47 * HOUR) && d.renewal == None
  }

  predicate Cleared(d: Dates) {
    d.expiry == None && d.renewal == None
  }

  /** A call in the renewal hour, and a call too late to be saved by it. */
  predicate RenewsInTime(t: int, t0: int) {
    t0 + 23 * HOUR < t <= t0 + 24 * HOUR
  }

  /** When a run has locked the federation: some call came after 47 hours, or one came
      after 24 hours with none in the renewal hour before it. */
  predicate LocksAt(times: seq<int>, i: int, t0: int)
    requires 0 <= i < |times|
  {
    || times[i] > t0 + 47 * HOUR
    || (times[i] > t0 + 24 * HOUR && forall j :: 0 <= j < i ==> !RenewsInTime(times[j], t0))
  }

  predicate Locks(times: seq<int>, t0: int) {
    exists i :: 0 <= i < |times| && LocksAt(times, i, t0)
  }

  /** Host lifetime: over every non-decreasing clock the dates are one of three pairs,
      chosen by the last reading alone, and the state is LOCKED exactly when the run has
      locked it, AVAILABLE otherwise. */
  lemma {:induction false} LifetimeRun(t0: int, times: seq<int>)
    requires NonDecreasing(times)
    ensures Lived(Calls(Fresh(t0), times), times, t0)
  {
    if times != [] {
      var n := |times| - 1;
      var front := times[..n];
      LifetimeRun(t0, front);
      LocksStep(times, t0);
      if n > 0 {
        assert front[n - 1] <= times[n];
        if times[n] > t0 + 24 * HOUR && front[n - 1] > t0 + 23 * HOUR {
          FirstInHour(front, t0);
        }
      }
    }
  }

  /** Dates and state after a run, from its readings alone. */
  predicate Lived(d: Dates, times: seq<int>, t0: int) {
    && (times == [] || times[|times| - 1] <= t0 + 23 * HOUR ==> NotRenewed(d, t0))
    && (times != [] && t0 + 23 * HOUR < times[|times| - 1] <= t0 + 47 * HOUR ==> RenewedOnce(d, t0))
    && (times != [] && t0 + 47 * HOUR < times[|times| - 1] ==> Cleared(d))
    && d.state == (if Locks(times, t0) then Locked else Available)
  }

  lemma LocksStep(times: seq<int>, t0: int)
    requires times != []
    ensures var n := |times| - 1;
      Locks(times, t0) <==> Locks(times[..n], t0) || LocksAt(times, n, t0)
  {
    var n := |times| - 1;
    var front := times[..n];
    assert forall i :: 0 <= i < n ==> (LocksAt(front, i, t0) <==> LocksAt(times, i, t0));
  }

  /** Once some reading is past 23 hours, either one was in the renewal hour or the run
      has locked already. */
  lemma FirstInHour(times: seq<int>, t0: int)
    requires NonDecreasing(times) && times != [] && times[|times| - 1] > t0 + 23 * HOUR
    ensures Locks(times, t0) || exists j :: 0 <= j < |times| && RenewsInTime(times[j], t0)
  {
    var n := |times| - 1;
    if !RenewsInTime(times[n], t0) && !LocksAt(times, n, t0) {
      var j :| 0 <= j < n && RenewsInTime(times[j], t0);
    }
  }

  /** Locked is absorbing, and renewal happens at most once: after it no call sets a
      renewal date or moves the expiry other than clearing it. */
  lemma {:induction false} NothingUndone(d: Dates, times: seq<int>)
    ensures d.state == Locked ==> Calls(d, times).state == Locked
    ensures d.renewal.None? ==> Calls(d, times).renewal.None? && Calls(d, times).expiry in {d.expiry, None}
  {
    if times != [] {
      NothingUndone(d, times[..|times| - 1]);
    }
  }

  /** A call that does not stop never leaves an expiry in the past, whatever the dates
      were, so the lock check at the end of the function has no effect. */
  lemma LastCheckIsDead(d: Dates, now: int)
    requires !Expire(d, now).stop
    ensures Expire(d, now).dates.expiry.Some? ==> Expire(d, now).dates.expiry.value >= now
  {
  }

  // ---------------------------------------------------------------- timed runs

  /** The reading does not coincide with a stored deadline. */
  predicate OffDeadlines(d: Dates, t: int) {
    d.expiry != Some(t) && d.renewal != Some(t)
  }

  /** The next call is due when the requested requeue and the slack have passed. */
  function Due(d: Dates, t: int, slack: int): int {
    t + Expire(d, t).requeue + slack
  }

  function NextReading(times: seq<int>, until: int, i: nat): int {
    if i < |times| then times[i] else until
  }

  /** A call that asked to be requeued is followed in time, or not yet due. */
  predicate Followed(times: seq<int>, i: nat, t0: int, slack: int, until: int)
    requires i < |times|
  {
    var d := Calls(Fresh(t0), times[..i]);
    Expire(d, times[i]).requeue > 0 ==> NextReading(times, until, i + 1) <= Due(d, times[i], slack)
  }

  /** The call does not land on a deadline that is stored when it comes. */
  predicate Unambiguous(times: seq<int>, i: nat, t0: int)
    requires i < |times|
  {
    OffDeadlines(Calls(Fresh(t0), times[..i]), times[i])
  }

  /** A run watched until `until`: it starts before the renewal date; every call that
      asked to be requeued is followed in time, the last one unless it is not due yet. */
  predicate TimelyUntil(times: seq<int>, t0: int, slack: int, until: int) {
    && times != [] && times[0] < t0 + 23 * HOUR && NonDecreasing(times) && times[|times| - 1] <= until
    && (forall i :: 0 <= i < |times| ==> Unambiguous(times, i, t0))
    && (forall i :: 0 <= i < |times| ==> Followed(times, i, t0, slack, until))
  }

  /** What a reading says about dates and state when the deadlines are kept. */
  predicate OnTime(d: Dates, t: int, t0: int) {
    && t != t0 + 23 * HOUR && t != t0 + 47 * HOUR
    && if t < t0 + 23 * HOUR then NotRenewed(d, t0) && d.state == Available
       else if t < t0 + 47 * HOUR then RenewedOnce(d, t0) && d.state == Available
       else Cleared(d) && d.state == Locked
  }

  /** One call, at most an hour after the renewal date if it is the first past it. */
  lemma OneCall(d: Dates, last: int, t: int, t0: int)
    requires OnTime(d, last, t0) && last <= t && OffDeadlines(d, t)
    requires last < t0 + 23 * HOUR ==> t <= t0 + 24 * HOUR
    ensures OnTime(Expire(d, t).dates, t, t0)
    ensures t < t0 + 23 * HOUR ==> t + Expire(d, t).requeue == t0 + 23 * HOUR + SECOND && Expire(d, t).requeue > 0
    ensures t < t0 + 47 * HOUR ==> t + Expire(d, t).requeue <= t0 + 47 * HOUR + SECOND && Expire(d, t).requeue > 0
  {
  }

  /** What a timely run says about its i-th call. */
  lemma NthCall(times: seq<int>, t0: int, slack: int, until: int, i: nat)
    requires TimelyUntil(times, t0, slack, until) && 1 <= i <= |times|
    ensures OffDeadlines(Calls(Fresh(t0), times[..i - 1]), times[i - 1])
    ensures i == 1 ==> times[0] < t0 + 23 * HOUR
    ensures i > 1 ==> times[i - 2] <= times[i - 1]
    ensures var d, t := Calls(Fresh(t0), times[..i - 1]), times[i - 1];
      && Calls(Fresh(t0), times[..i]) == Expire(d, t).dates
      && (Expire(d, t).requeue > 0 ==> NextReading(times, until, i) <= t + Expire(d, t).requeue + slack)
  {
    assert times[..i][..i - 1] == times[..i - 1];
    assert Unambiguous(times, i - 1, t0) && Followed(times, i - 1, t0, slack, until);
  }

  /** The next reading comes in time for the renewal, and for the end. */
  predicate NextInTime(t: int, next: int, t0: int, slack: int) {
    && (t < t0 + 23 * HOUR ==> next <= t0 + 23 * HOUR + SECOND + slack)
    && (t < t0 + 47 * HOUR ==> next <= t0 + 47 * HOUR + SECOND + slack)
  }

  lemma NextCall(d: Dates, last: int, t: int, next: int, t0: int, slack: int)
    requires OnTime(d, last, t0) && last <= t && OffDeadlines(d, t) && 0 <= slack <= HOUR - SECOND
    requires last < t0 + 23 * HOUR ==> t <= t0 + 23 * HOUR + SECOND + slack
    requires Expire(d, t).requeue > 0 ==> next <= t + Expire(d, t).requeue + slack
    ensures OnTime(Expire(d, t).dates, t, t0) && NextInTime(t, next, t0, slack)
  {
    OneCall(d, last, t, t0);
  }

  lemma {:induction false} TimelyState(times: seq<int>, t0: int, slack: int, until: int, i: nat)
    requires TimelyUntil(times, t0, slack, until) && 0 <= slack <= HOUR - SECOND && 1 <= i <= |times|
    ensures OnTime(Calls(Fresh(t0), times[..i]), times[i - 1], t0)
    ensures NextInTime(times[i - 1], NextReading(times, until, i), t0, slack)
  {
    NthCall(times, t0, slack, until, i);
    var d, t := Calls(Fresh(t0), times[..i - 1]), times[i - 1];
    if i > 1 {
      TimelyState(times, t0, slack, until, i - 1);
      NextCall(d, times[i - 2], t, NextReading(times, until, i), t0, slack);
    } else {
      assert d == Fresh(t0);
      NextCall(d, t, t, NextReading(times, until, i), t0, slack);
    }
  }

  /** Timed run: a federation whose first call comes before 23 hours and whose calls
      follow the requested requeues with a slack of at most one hour less one second,
      never on a stored deadline, is AVAILABLE up to 47 hours and LOCKED after 47 hours,
      one second and the slack. */
  lemma TimedRun(times: seq<int>, t0: int, slack: int, until: int, d: Dates)
    requires TimelyUntil(times, t0, slack, until) && 0 <= slack <= HOUR - SECOND
    requires d == Calls(Fresh(t0), times)
    ensures
      && (until <= t0 + 47 * HOUR ==> d.state == Available)
      && (until > t0 + 47 * HOUR + SECOND + slack ==> d.state == Locked && Cleared(d))
      && (d.state == Locked <==> times[|times| - 1] > t0 + 47 * HOUR)
  {
    assert times[..|times|] == times;
    TimelyState(times, t0, slack, until, |times|);
  }

  // ---------------------------------------------------------------- calls on a deadline

  /** A call on the renewal date, and no other one before the renewal, asks for a next
      call that finds the federation expired: it is locked a day early. */
  lemma LocksEarly(d: Dates, now: int, t0: int)
    requires NotRenewed(d, t0) && d.state == Available && now <= t0 + 24 * HOUR
    ensures var first := Expire(d, now);
      !first.stop &&
      (Expire(first.dates, now + first.requeue).dates.state == Locked <==> now == t0 + 23 * HOUR)
  {
  }

  /** A call on the stored expiry, and no other one that does not stop, asks for no next
      call: the call that would lock the federation is never requested. */
  lemma Stalls(d: Dates, now: int, t0: int)
    requires NotRenewed(d, t0) || RenewedOnce(d, t0)
    ensures !Expire(d, now).stop && Expire(d, now).requeue == 0 <==> d.expiry == Some(now)
    ensures d.expiry == Some(now) ==> RenewedOnce(Expire(d, now).dates, t0) && Expire(d, now).dates.state == d.state
  {
  }

  /** So a run that follows every request but lands on a deadline can stay AVAILABLE for
      good: renewed in time, then called exactly at 47 hours, after which nothing is due. */
  lemma StalledForGood(t0: int, until: int)
    requires until >= t0 + 47 * HOUR
    ensures var times := [t0, t0 + 23 * HOUR + SECOND, t0 + 24 * HOUR, t0 + 47 * HOUR];
      && (forall i :: 0 <= i < |times| ==> Followed(times, i, t0, 0, until))
      && Calls(Fresh(t0), times).state == Available
  {
    var times := [t0, t0 + 23 * HOUR + SECOND, t0 + 24 * HOUR, t0 + 47 * HOUR];
    var d := Fresh(t0);
    assert times[..0] == [];
    CallsNext(d, times, 0);
    assert Calls(d, times[..1]) == Fresh(t0);
    CallsNext(d, times, 1);
    var renewed := Dates(Some(t0 + 47 * HOUR), None, Available);
    assert Calls(d, times[..2]) == renewed;
    CallsNext(d, times, 2);
    assert Calls(d, times[..3]) == renewed;
    CallsNext(d, times, 3);
    assert times[..4] == times;
    assert Followed(times, 0, t0, 0, until) && Followed(times, 1, t0, 0, until);
    assert Followed(times, 2, t0, 0, until) && Followed(times, 3, t0, 0, until);
  }

  lemma CallsNext(d: Dates, times: seq<int>, i: nat)
    requires i < |times|
    ensures Calls(d, times[..i + 1]) == Expire(Calls(d, times[..i]), times[i]).dates
  {
    assert times[..i + 1][..i] == times[..i];
  }

  // ---------------------------------------------------------------- the requested call

  /** The lengths the lifetime is made of, in nanoseconds. */
  lemma Lengths(t0: int)
    ensures Fresh(t0).expiry == Some(t0 + 86_400_000_000_000)
    ensures Fresh(t0).renewal == Some(t0 + 82_800_000_000_000)
    ensures HOUR == 3_600_000_000_000 && SECOND == 1_000_000_000
  {
  }

  predicate Ahead(t: Option<int>, now: int) {
    t.Some? && now < t.value
  }

  /** The request, exactly: a call that does not stop asks for one second past the earliest
      stored deadline still ahead, and for nothing when none is ahead. */
  lemma RequestsExactly(d: Dates, now: int)
    requires !Expire(d, now).stop
    ensures Expire(d, now).requeue == 0 <==> !Ahead(d.expiry, now) && !Ahead(d.renewal, now)
    ensures Expire(d, now).requeue > 0 ==>
      var deadline := now + Expire(d, now).requeue - 1_000_000_000;
      d.expiry == Some(deadline) || d.renewal == Some(deadline)
    ensures Ahead(d.expiry, now) ==> now + Expire(d, now).requeue <= d.expiry.value + 1_000_000_000
    ensures Ahead(d.renewal, now) ==> now + Expire(d, now).requeue <= d.renewal.value + 1_000_000_000
  {
  }

  /** A call stops exactly when the stored expiry is past, or when no renewal is left after
      it and the expiry is past or cleared; it then locks and asks for nothing. Otherwise
      the state stays. */
  lemma StopsExactly(d: Dates, now: int)
    ensures var past := d.expiry.Some? && now > d.expiry.value;
      var renews := d.renewal.Some? && now > d.renewal.value;
      Expire(d, now).stop <==>
        past || (renews && now > d.renewal.value + 86_400_000_000_000) || (d.renewal.None? && d.expiry.None?)
    ensures Expire(d, now).stop ==> Expire(d, now).dates.state == Locked && Expire(d, now).requeue == 0
    ensures !Expire(d, now).stop ==> Expire(d, now).dates.state == d.state
  {
  }

  /** Each call of the run comes exactly when the one before asked for it. */
  predicate Obedient(times: seq<int>, t0: int) {
    && times != [] && times[0] < t0 + 23 * HOUR
    && forall i :: 0 < i < |times| ==> Requested(times, i, t0)
  }

  predicate Requested(times: seq<int>, i: nat, t0: int)
    requires 0 < i < |times|
  {
    var asked := Expire(Calls(Fresh(t0), times[..i - 1]), times[i - 1]).requeue;
    asked > 0 && times[i] == times[i - 1] + asked
  }

  /** When the calls of an obedient run come. */
  function NthTime(first: int, t0: int, i: nat): int {
    if i == 0 then first
    else if i == 1 then t0 + 23 * HOUR + SECOND
    else if i == 2 then t0 + 24 * HOUR + SECOND
    else t0 + 47 * HOUR + SECOND
  }

  function NthDates(t0: int, i: nat): Dates {
    if i == 0 then Fresh(t0)
    else if i <= 2 then Dates(Some(t0 + 47 * HOUR), None, Available)
    else Dates(None, None, Locked)
  }

  lemma {:induction false} ObedientCall(times: seq<int>, t0: int, i: nat)
    requires Obedient(times, t0) && i < |times|
    ensures i <= 3 && times[i] == NthTime(times[0], t0, i)
    ensures Calls(Fresh(t0), times[..i + 1]) == NthDates(t0, i)
    ensures OffDeadlines(Calls(Fresh(t0), times[..i]), times[i])
    ensures Expire(Calls(Fresh(t0), times[..i]), times[i]).requeue ==
            if i == 3 then 0 else NthTime(times[0], t0, i + 1) - times[i]
  {
    CallsNext(Fresh(t0), times, i);
    if i == 0 {
      assert times[..0] == [];
    } else {
      ObedientCall(times, t0, i - 1);
      assert Requested(times, i, t0);
      assert i - 1 != 3;
    }
  }

  /** A federation first called before 23 hours and then exactly when asked is called at 23
      hours, 24 hours and 47 hours, each with one second more, never on a stored deadline; it
      is AVAILABLE until the last of these and LOCKED at it. Every call but the last asks for
      another one. */
  lemma ObedientRun(times: seq<int>, t0: int, i: nat)
    requires Obedient(times, t0) && i < |times|
    ensures |times| <= 4 && times[i] == (if i == 0 then times[0] else t0 + [0, 23, 24, 47][i] * HOUR + SECOND)
    ensures OffDeadlines(Calls(Fresh(t0), times[..i]), times[i])
    ensures Calls(Fresh(t0), times[..i + 1]).state ==
            if times[i] >= t0 + 47 * HOUR + SECOND then Locked else Available
    ensures Expire(Calls(Fresh(t0), times[..i]), times[i]).requeue > 0 <==> i < 3
  {
    ObedientCall(times, t0, |times| - 1);
    ObedientCall(times, t0, i);
  }
}
