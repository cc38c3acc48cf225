/**
 The per-user hourly run limit of the Worker: a Durable Object that keeps one
 stored bucket per hour and forgets old buckets on an alarm. It is proved to be an
 exact counter of calls per hour, whatever its alarms do, early, late or never.
 Times are milliseconds; an event is one run-to-completion of a method.
 */
module RateLimiter {
  import opened Options
  import opened Sets

  const HOUR_MS := 3_600_000

  /** One call of consume. */
  datatype Call = Call(at: nat, limit: nat, allowed: bool)

  function HourOf(at: nat): nat {
    at / HOUR_MS
  }

  /* ------------------------------------------------- the exact counter it is */

  /** How many calls fell in an hour. */
  function CallsIn(calls: seq<Call>, hour: nat): nat {
    if calls == [] then 0
    else CallsIn(calls[..|calls| - 1], hour) + if HourOf(calls[|calls| - 1].at) == hour then 1 else 0
  }

  /** How many of them were allowed. */
  function AllowedIn(calls: seq<Call>, hour: nat): nat {
    if calls == [] then 0
    else
      var last := calls[|calls| - 1];
      AllowedIn(calls[..|calls| - 1], hour) + if HourOf(last.at) == hour && last.allowed then 1 else 0
  }

  /** Every call was allowed just when it was within its limit, counting itself. */
  ghost predicate Judged(calls: seq<Call>) {
    forall i :: 0 <= i < |calls| ==>
      (calls[i].allowed <==> CallsIn(calls[..i + 1], HourOf(calls[i].at)) <= calls[i].limit)
  }

  lemma CallsInSnoc(calls: seq<Call>, call: Call, hour: nat)
    ensures CallsIn(calls + [call], hour) == CallsIn(calls, hour) + if HourOf(call.at) == hour then 1 else 0
  {
    assert (calls + [call])[..|calls|] == calls;
  }

  lemma JudgedSnoc(calls: seq<Call>, call: Call)
    requires Judged(calls)
    requires call.allowed <==> CallsIn(calls, HourOf(call.at)) + 1 <= call.limit
    ensures Judged(calls + [call])
  {
    var longer := calls + [call];
    forall i | 0 <= i < |longer|
      ensures longer[i].allowed <==> CallsIn(longer[..i + 1], HourOf(longer[i].at)) <= longer[i].limit
    {
      if i < |calls| {
        assert longer[..i + 1] == calls[..i + 1];
      } else {
        assert longer[..i + 1] == longer;
        CallsInSnoc(calls, call, HourOf(call.at));
      }
    }
  }

  /** With one limit for all calls, each hour allows exactly the calls made in it, up to the limit. */
  lemma {:induction false} AllowsUpToTheLimit(calls: seq<Call>, limit: nat, hour: nat)
    requires Judged(calls) && forall i :: 0 <= i < |calls| ==> calls[i].limit == limit
    ensures AllowedIn(calls, hour) == if CallsIn(calls, hour) <= limit then CallsIn(calls, hour) else limit
  {
    if calls != [] {
      var earlier := calls[..|calls| - 1];
      forall i | 0 <= i < |earlier|
        ensures earlier[i].allowed <==> CallsIn(earlier[..i + 1], HourOf(earlier[i].at)) <= earlier[i].limit
      {
        assert earlier[..i + 1] == calls[..i + 1];
      }
      AllowsUpToTheLimit(earlier, limit, hour);
      assert calls[..|calls| - 1 + 1] == calls;
    }
  }

  /** Every call in the past hours is older. */
  lemma {:induction false} NoCallsAhead(calls: seq<Call>, hour: nat)
    requires forall i :: 0 <= i < |calls| ==> HourOf(calls[i].at) < hour
    ensures CallsIn(calls, hour) == 0
  {
    if calls != [] { NoCallsAhead(calls[..|calls| - 1], hour); }
  }

  /* -------------------------------------------------------- the stored buckets */

  /** A bucket that is still stored holds the exact count; the bucket of the current hour is never missed. */
  ghost predicate CountsCalls(buckets: map<nat, nat>, calls: seq<Call>, clock: nat) {
    && (forall h :: h in buckets ==> buckets[h] == CallsIn(calls, h))
    && (HourOf(clock) !in buckets ==> CallsIn(calls, HourOf(clock)) == 0)
    && (forall i :: 0 <= i < |calls| ==> calls[i].at <= clock)
  }

  /** Buckets are of the hour the pending alarm was set in, and the next one. */
  ghost predicate IsSmall(buckets: map<nat, nat>, alarm: Option<nat>) {
    forall h :: h in buckets ==> alarm.Some? && HourOf(alarm.value) - 1 <= h <= HourOf(alarm.value)
  }

  lemma HoursAreOrdered(t: nat, u: nat)
    requires t <= u
    ensures HourOf(t) <= HourOf(u) && HourOf(u + HOUR_MS) == HourOf(u) + 1
  {
  }

  /** Time passing: nothing is counted in an hour that has not begun. */
  lemma ClockAdvances(buckets: map<nat, nat>, calls: seq<Call>, clock: nat, now: nat)
    requires CountsCalls(buckets, calls, clock) && clock <= now
    ensures CountsCalls(buckets, calls, now)
  {
    HoursAreOrdered(clock, now);
    if HourOf(clock) < HourOf(now) {
      forall i | 0 <= i < |calls| ensures HourOf(calls[i].at) < HourOf(now) { HoursAreOrdered(calls[i].at, clock); }
      NoCallsAhead(calls, HourOf(now));
    }
  }

  function GetOrZero(buckets: map<nat, nat>, hour: nat): nat {
    if hour in buckets then buckets[hour] else 0
  }

  lemma CurrentBucket(buckets: map<nat, nat>, calls: seq<Call>, now: nat)
    requires CountsCalls(buckets, calls, now)
    ensures GetOrZero(buckets, HourOf(now)) == CallsIn(calls, HourOf(now))
  {
  }

  lemma CountsOneMore(buckets: map<nat, nat>, calls: seq<Call>, call: Call)
    requires CountsCalls(buckets, calls, call.at)
    ensures CountsCalls(buckets[HourOf(call.at) := CallsIn(calls, HourOf(call.at)) + 1], calls + [call], call.at)
  {
    forall h ensures CallsIn(calls + [call], h) == CallsIn(calls, h) + if HourOf(call.at) == h then 1 else 0 {
      CallsInSnoc(calls, call, h);
    }
  }

  lemma EmptyIsSmall(buckets: map<nat, nat>, alarm: Option<nat>)
    ensures buckets == map[] ==> IsSmall(buckets, alarm)
  {
  }

  lemma SmallWithOneMore(buckets: map<nat, nat>, alarm: nat, now: nat, used: nat)
    requires IsSmall(buckets, Some(alarm)) && now <= alarm <= now + HOUR_MS
    ensures IsSmall(buckets[HourOf(now) := used], Some(alarm))
  {
    hide HourOf;
    WithinTheInterval(now, alarm);
  }

  /** A time no later than the alarm, and no earlier than it was set. */
  lemma WithinTheInterval(now: nat, alarm: nat)
    requires now <= alarm <= now + HOUR_MS
    ensures HourOf(alarm) - 1 <= HourOf(now) <= HourOf(alarm)
  {
    HoursAreOrdered(now, alarm);
    HoursAreOrdered(alarm, now + HOUR_MS);
    HoursAreOrdered(now, now);
  }

  lemma TwoBuckets(buckets: map<nat, nat>, alarm: Option<nat>)
    requires IsSmall(buckets, alarm)
    ensures |buckets| <= 2
  {
    if alarm.Some? {
      var h := HourOf(alarm.value);
      SubsetSize(buckets.Keys, {if h == 0 then 0 else h - 1, h});
    } else {
      assert buckets.Keys == {};
    }
  }

  class RateLimiter {
    var buckets: map<nat, nat>   // stored under `hour:<n>`
    var alarm: Option<nat>
    ghost var calls: seq<Call>
    ghost var clock: nat
    ghost var onTime: bool       // so far, no event came later than a pending alarm

    ghost predicate Valid()
      reads this
    {
      && CountsCalls(buckets, calls, clock) && Judged(calls)
      && (buckets != map[] ==> alarm.Some?)
      && (alarm.Some? ==> alarm.value <= clock + HOUR_MS)
      && (onTime ==> IsSmall(buckets, alarm))
    }

    constructor ()
      ensures Valid() && calls == [] && clock == 0 && onTime
    {
      buckets, alarm, calls, clock, onTime := map[], None, [], 0, true;
    }

    /**
     consume: counts the call, over the limit or not, and answers with the exact
     number of calls in the current hour.
     */
    method Consume(now: nat, limit: nat) returns (allowed: bool, used: nat)
      requires Valid() && clock <= now
      modifies this
      ensures Valid() && clock == now && calls == old(calls) + [Call(now, limit, allowed)]
      ensures used == CallsIn(calls, now / 3_600_000) && (allowed <==> used <= limit)
      ensures onTime <==> old(onTime && (alarm.Some? ==> now <= alarm.value))
      ensures alarm == if old(alarm).Some? then old(alarm) else Some(now + 3_600_000)
      ensures onTime ==> |buckets| <= 2
    {
      hide CountsCalls, Judged, IsSmall;
      onTime := onTime && (alarm.Some? ==> now <= alarm.value);
      var key := HourOf(now);
      ClockAdvances(buckets, calls, clock, now);
      CurrentBucket(buckets, calls, now);
      used := GetOrZero(buckets, key) + 1;
      allowed := used <= limit;
      CountsOneMore(buckets, calls, Call(now, limit, allowed));
      JudgedSnoc(calls, Call(now, limit, allowed));
      CallsInSnoc(calls, Call(now, limit, allowed), key);
      buckets := buckets[key := used];
      if alarm.None? {
        alarm := Some(now + HOUR_MS);
      }
      calls, clock := calls + [Call(now, limit, allowed)], now;
      if onTime {
        assert IsSmall(old(buckets), alarm) by { EmptyIsSmall(old(buckets), alarm); }
        SmallWithOneMore(old(buckets), alarm.value, now, used);
        TwoBuckets(buckets, alarm);
      }
    }

    /** used: the exact number of calls in the current hour. */
    method Used(now: nat) returns (used: nat)
      requires Valid() && clock <= now
      ensures used == CallsIn(calls, now / 3_600_000)
    {
      ClockAdvances(buckets, calls, clock, now);
      CurrentBucket(buckets, calls, now);
      used := GetOrZero(buckets, HourOf(now));
    }

    /** alarm: forgets all but the current bucket, and what it counts is unchanged. */
    method Alarm(now: nat)
      requires Valid() && clock <= now
      modifies this
      ensures Valid() && clock == now && calls == old(calls)
      ensures forall h :: h in buckets <==> h == now / 3_600_000 && h in old(buckets)
      ensures alarm == if buckets != map[] then Some(now + 3_600_000) else None
      ensures onTime <==> old(onTime && (alarm.Some? ==> now <= alarm.value))
    {
      hide Judged;
      onTime := onTime && (alarm.Some? ==> now <= alarm.value);
      alarm := None;                // an alarm that fires is no longer set
      ClockAdvances(buckets, calls, clock, now);
      var current := HourOf(now);
      buckets := map h | h in buckets && h == current :: buckets[h];
      if current in buckets {
        alarm := Some(now + HOUR_MS);
        WithinTheInterval(now, now + HOUR_MS);
      }
      clock := now;
    }
  }
}
