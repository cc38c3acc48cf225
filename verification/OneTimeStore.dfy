/**
 The Worker's store of single-use values with a lifetime (sign-in states and
 hand-off codes): a Durable Object whose alarm purges expired entries. It is proved
 to be a plain expiring map over its history of puts and takes, whatever its alarms
 do, and, when they are on time, to keep nothing long past its expiry. Times are
 milliseconds; an event is one run-to-completion of a method.
 */
module OneTimeStore {
  import opened Options

  const PURGE_INTERVAL_MS := 3_600_000

  datatype Entry = Entry(value: string, expiresAt: nat)

  /** What callers did, in order. */
  datatype Op = Put(key: string, entry: Entry) | Take(key: string)

  /* -------------------------------------------- the plain map that it refines */

  /** The last put of the key that has not been taken since: its place in the history. */
  function Pending(history: seq<Op>, key: string): (p: Option<nat>)
    ensures p.Some? ==> p.value < |history| && history[p.value].Put? && history[p.value].key == key
  {
    if history == [] then None
    else
      var last := history[|history| - 1];
      if last.key != key then Pending(history[..|history| - 1], key)
      else if last.Put? then Some(|history| - 1) else None
  }

  /** What a take at time `now` is to answer, by the history alone. */
  function Answer(history: seq<Op>, key: string, now: nat): Option<string> {
    match Pending(history, key)
    case Some(p) => if history[p].entry.expiresAt > now then Some(history[p].entry.value) else None
    case None => None
  }

  /** Place p of the history is the last thing done to the key. */
  ghost predicate IsLastOf(history: seq<Op>, key: string, p: nat) {
    p < |history| && history[p].key == key && forall i :: p < i < |history| ==> history[i].key != key
  }

  /** It is the value of the last put of the key, if nothing was done to the key since, and it has not expired. */
  lemma {:induction false} AnswerIs(history: seq<Op>, key: string, now: nat, value: string)
    ensures Answer(history, key, now) == Some(value) <==>
      exists p: nat, expiresAt ::
        IsLastOf(history, key, p) && history[p] == Put(key, Entry(value, expiresAt)) && now < expiresAt
  {
    PendingIs(history, key);
    if Answer(history, key, now) == Some(value) {
      var p := Pending(history, key).value;
      assert history[p] == Put(key, Entry(value, history[p].entry.expiresAt));
    }
  }

  lemma {:induction false} PendingIs(history: seq<Op>, key: string)
    ensures forall p: nat :: IsLastOf(history, key, p) && history[p].Put? ==> Pending(history, key) == Some(p)
    ensures Pending(history, key).Some? ==> IsLastOf(history, key, Pending(history, key).value)
  {
    if history != [] { PendingIs(history[..|history| - 1], key); }
  }

  lemma PendingSnoc(history: seq<Op>, op: Op, key: string)
    ensures Pending(history + [op], key) ==
      if op.key != key then Pending(history, key) else if op.Put? then Some(|history|) else None
  {
    assert (history + [op])[..|history|] == history;
  }

  /** Where a take answers from put p, p lies before it, with no take of the key in between. */
  lemma {:induction false} NothingBetween(history: seq<Op>, key: string, i: nat)
    requires i < |history| && history[i] == Take(key)
    ensures Pending(history, key).Some? ==> i < Pending(history, key).value
  {
    if i < |history| - 1 && history[|history| - 1].key != key {
      NothingBetween(history[..|history| - 1], key, i);
    }
  }

  /** A value is answered once: two takes never answer from the same put. */
  lemma TakenOnce(history: seq<Op>, i: nat, j: nat, p: nat)
    requires i < j < |history| && history[i].Take? && history[j].Take?
    requires Pending(history[..i], history[i].key) == Some(p)
    ensures Pending(history[..j], history[j].key) != Some(p)
  {
    if history[i].key == history[j].key {
      NothingBetween(history[..j], history[j].key, i);
    } else {
      assert history[..i][p] == history[p] && history[..i][p].key == history[i].key;
      assert p < j && history[..j][p] == history[p];
    }
  }

  /* -------------------------------------------------------- the stored entries */

  /** A stored entry is a pending one, and a pending one that is not stored has expired. */
  ghost predicate Refines(entries: map<string, Entry>, history: seq<Op>, clock: nat) {
    forall key ::
      match Pending(history, key)
      case Some(p) => if key in entries then entries[key] == history[p].entry else history[p].entry.expiresAt <= clock
      case None => key !in entries
  }

  /** No stored entry outlives its expiry by more than a purge interval, if the alarm is on time. */
  ghost predicate PurgedInTime(entries: map<string, Entry>, alarm: Option<nat>) {
    forall key :: key in entries ==> alarm.Some? && alarm.value <= entries[key].expiresAt + PURGE_INTERVAL_MS
  }

  lemma RefinesAfterPut(entries: map<string, Entry>, history: seq<Op>, clock: nat, key: string, entry: Entry, now: nat)
    requires Refines(entries, history, clock) && clock <= now
    ensures Refines(entries[key := entry], history + [Put(key, entry)], now)
  {
    forall k
      ensures Pending(history + [Put(key, entry)], k) == if k != key then Pending(history, k) else Some(|history|)
    {
      PendingSnoc(history, Put(key, entry), k);
    }
  }

  lemma RefinesAfterTake(entries: map<string, Entry>, history: seq<Op>, clock: nat, key: string, now: nat)
    requires Refines(entries, history, clock) && clock <= now
    ensures Refines(entries - {key}, history + [Take(key)], now)
  {
    forall k ensures Pending(history + [Take(key)], k) == if k != key then Pending(history, k) else None {
      PendingSnoc(history, Take(key), k);
    }
  }

  lemma AnswerIsStored(entries: map<string, Entry>, history: seq<Op>, clock: nat, key: string, now: nat)
    requires Refines(entries, history, clock) && clock <= now
    ensures Answer(history, key, now) ==
      if key in entries && entries[key].expiresAt > now then Some(entries[key].value) else None
  {
    assert match Pending(history, key)
           case Some(p) => if key in entries then entries[key] == history[p].entry
             else history[p].entry.expiresAt <= clock
           case None => key !in entries;
  }

  /** A purge of what has expired changes no answer. */
  lemma RefinesAfterPurge(entries: map<string, Entry>, history: seq<Op>, clock: nat, kept: map<string, Entry>, now: nat)
    requires Refines(entries, history, clock) && clock <= now
    requires forall k :: k in kept ==> k in entries && kept[k] == entries[k]
    requires forall k :: k in entries && k !in kept ==> entries[k].expiresAt <= now
    ensures Refines(kept, history, now)
  {
  }

  class OneTimeStore {
    var entries: map<string, Entry>
    var alarm: Option<nat>
    ghost var history: seq<Op>
    ghost var clock: nat
    ghost var onTime: bool       // so far, no event came later than a pending alarm

    ghost predicate Valid()
      reads this
    {
      && Refines(entries, history, clock)
      && (entries != map[] ==> alarm.Some?)
      && (alarm.Some? ==> alarm.value <= clock + PURGE_INTERVAL_MS)
      && (onTime ==> PurgedInTime(entries, alarm))
    }

    constructor ()
      ensures Valid() && history == [] && clock == 0 && onTime
    {
      entries, alarm, history, clock, onTime := map[], None, [], 0, true;
    }

    /** put: the value can be taken from now on, until it expires; it replaces what was there. */
    method Put(key: string, value: string, ttlSeconds: nat, now: nat)
      requires Valid() && clock <= now
      modifies this
      ensures Valid() && clock == now
      ensures history == old(history) + [Op.Put(key, Entry(value, now + ttlSeconds * 1000))]
      ensures alarm == if old(alarm).Some? then old(alarm) else Some(now + 3_600_000)
      ensures onTime <==> old(onTime && (alarm.Some? ==> now <= alarm.value))
    {
      hide Refines;
      var entry := Entry(value, now + ttlSeconds * 1000);
      RefinesAfterPut(entries, history, clock, key, entry, now);
      onTime := onTime && (alarm.Some? ==> now <= alarm.value);
      entries := entries[key := entry];
      if alarm.None? {
        alarm := Some(now + PURGE_INTERVAL_MS);
      }
      history, clock := history + [Op.Put(key, entry)], now;
    }

    /** take: exactly the answer the history calls for, and the key is empty afterwards. */
    method Take(key: string, now: nat) returns (value: Option<string>)
      requires Valid() && clock <= now
      modifies this
      ensures Valid() && clock == now && history == old(history) + [Op.Take(key)]
      ensures value == Answer(old(history), key, now)
      ensures key !in entries && alarm == old(alarm)
      ensures onTime <==> old(onTime && (alarm.Some? ==> now <= alarm.value))
    {
      hide Refines;
      AnswerIsStored(entries, history, clock, key, now);
      RefinesAfterTake(entries, history, clock, key, now);
      onTime := onTime && (alarm.Some? ==> now <= alarm.value);
      history, clock := history + [Op.Take(key)], now;
      if key !in entries {
        assert entries - {key} == entries;
        return None;
      }
      var entry := entries[key];
      entries := entries - {key};
      return if entry.expiresAt > now then Some(entry.value) else None;
    }

    /**
     alarm: drops what has expired, and no answer changes. While alarms are on time,
     what is stored has not expired more than a purge interval ago, at any event.
     */
    method Alarm(now: nat)
      requires Valid() && clock <= now
      modifies this
      ensures Valid() && clock == now && history == old(history)
      ensures entries == map k | k in old(entries) && old(entries)[k].expiresAt > now :: old(entries)[k]
      ensures alarm == if entries != map[] then Some(now + 3_600_000) else None
      ensures onTime <==> old(onTime && (alarm.Some? ==> now <= alarm.value))
    {
      hide Refines;
      onTime := onTime && (alarm.Some? ==> now <= alarm.value);
      alarm := None;                // an alarm that fires is no longer set
      var kept := map k | k in entries && entries[k].expiresAt > now :: entries[k];
      RefinesAfterPurge(entries, history, clock, kept, now);
      entries, clock := kept, now;
      if entries != map[] {
        alarm := Some(now + PURGE_INTERVAL_MS);
      }
    }

    /** With alarms on time, an abandoned entry is gone within a purge interval of its expiry. */
    lemma GoneInTime(key: string, now: nat)
      requires Valid() && onTime && (alarm.Some? ==> now <= alarm.value)
      requires key in entries
      ensures now <= entries[key].expiresAt + 3_600_000
    {
    }
  }
}
