/**
 The run page's `groupIntoAttempts`: it cuts the flat list of step rows back
 into the attempts that wrote them.
 */
module Attempts {
  import opened Options
  import opened Sets

  /** An action_executions row as the page sees it; a row without a start time sorts first. */
  datatype Started = Started(actionId: string, startedAt: Option<nat>)

  function Flatten<T>(groups: seq<seq<T>>): seq<T> {
    if groups == [] then [] else groups[0] + Flatten(groups[1..])
  }

  lemma {:induction false} FlattenSnoc<T>(groups: seq<seq<T>>, last: seq<T>)
    ensures Flatten(groups + [last]) == Flatten(groups) + last
  {
    if groups == [] {
      assert [last][1..] == [];
    } else {
      assert (groups + [last])[1..] == groups[1..] + [last];
      FlattenSnoc(groups[1..], last);
    }
  }

  /* -------------------------------------------------- Array.prototype.sort */

  predicate NoLater(a: Started, b: Started) {
    a.startedAt.None? || (b.startedAt.Some? && a.startedAt.value <= b.startedAt.value)
  }

  ghost predicate Sorted(rows: seq<Started>) {
    forall i, j :: 0 <= i < j < |rows| ==> NoLater(rows[i], rows[j])
  }

  /** Stable insertion into a sorted list: after the rows that are no later. */
  function Insert(rows: seq<Started>, row: Started): seq<Started> {
    if rows == [] || NoLater(rows[|rows| - 1], row) then rows + [row]
    else Insert(rows[..|rows| - 1], row) + [rows[|rows| - 1]]
  }

  function StableSort(rows: seq<Started>): seq<Started> {
    if rows == [] then [] else Insert(StableSort(rows[..|rows| - 1]), rows[|rows| - 1])
  }

  lemma {:induction false} InsertKeepsRows(rows: seq<Started>, row: Started)
    ensures multiset(Insert(rows, row)) == multiset(rows) + multiset{row}
  {
    if rows != [] && !NoLater(rows[|rows| - 1], row) {
      InsertKeepsRows(rows[..|rows| - 1], row);
      assert rows == rows[..|rows| - 1] + [rows[|rows| - 1]];
    }
  }

  lemma SortedSnoc(rows: seq<Started>, last: Started)
    requires Sorted(rows) && forall r :: r in rows ==> NoLater(r, last)
    ensures Sorted(rows + [last])
  {
  }

  lemma {:induction false} InsertSorts(rows: seq<Started>, row: Started)
    requires Sorted(rows)
    ensures Sorted(Insert(rows, row))
  {
    if rows == [] || NoLater(rows[|rows| - 1], row) {
      SortedSnoc(rows, row);
    } else {
      var init, last := rows[..|rows| - 1], rows[|rows| - 1];
      InsertSorts(init, row);
      InsertKeepsRows(init, row);
      forall r | r in Insert(init, row) ensures NoLater(r, last) {
        assert r in multiset(Insert(init, row));
      }
      SortedSnoc(Insert(init, row), last);
    }
  }

  /** The sort the page relies on: sorted by start time, and the same rows. */
  lemma {:induction false} StableSortSorts(rows: seq<Started>)
    ensures Sorted(StableSort(rows)) && multiset(StableSort(rows)) == multiset(rows)
  {
    if rows != [] {
      StableSortSorts(rows[..|rows| - 1]);
      InsertSorts(StableSort(rows[..|rows| - 1]), rows[|rows| - 1]);
      InsertKeepsRows(StableSort(rows[..|rows| - 1]), rows[|rows| - 1]);
      assert rows == rows[..|rows| - 1] + [rows[|rows| - 1]];
    }
  }

  /** The rows with one start time, in the order they have. */
  function StartedAt(rows: seq<Started>, at: Option<nat>): seq<Started> {
    if rows == [] then []
    else
      var last := rows[|rows| - 1];
      StartedAt(rows[..|rows| - 1], at) + if last.startedAt == at then [last] else []
  }

  lemma StartedAtSnoc(rows: seq<Started>, row: Started, at: Option<nat>)
    ensures StartedAt(rows + [row], at) == StartedAt(rows, at) + if row.startedAt == at then [row] else []
  {
    assert (rows + [row])[..|rows|] == rows;
  }

  lemma {:induction false} InsertIsStable(rows: seq<Started>, row: Started, at: Option<nat>)
    ensures StartedAt(Insert(rows, row), at) == StartedAt(rows, at) + if row.startedAt == at then [row] else []
  {
    if rows == [] || NoLater(rows[|rows| - 1], row) {
      StartedAtSnoc(rows, row, at);
    } else {
      var init, last := rows[..|rows| - 1], rows[|rows| - 1];
      InsertIsStable(init, row, at);
      StartedAtSnoc(Insert(init, row), last, at);
    }
  }

  /** ... and rows that started together keep their order. */
  lemma {:induction false} StableSortIsStable(rows: seq<Started>, at: Option<nat>)
    ensures StartedAt(StableSort(rows), at) == StartedAt(rows, at)
  {
    if rows != [] {
      StableSortIsStable(rows[..|rows| - 1], at);
      InsertIsStable(StableSort(rows[..|rows| - 1]), rows[|rows| - 1], at);
    }
  }

  /** Rows already in start order, ties included, stay as they are. */
  /** Rows without a start time come first, the others by start time. */
  lemma StableSortOrders(rows: seq<Started>, i: nat, j: nat)
    requires i < j < |StableSort(rows)|
    ensures
      match (StableSort(rows)[i].startedAt, StableSort(rows)[j].startedAt)
      case (Some(t), Some(u)) => t <= u
      case (Some(_), None) => false
      case (None, _) => true
  {
    StableSortSorts(rows);
  }

  lemma {:induction false} SortedIsKept(rows: seq<Started>)
    requires Sorted(rows)
    ensures StableSort(rows) == rows
  {
    if rows != [] {
      SortedIsKept(rows[..|rows| - 1]);
      assert rows == rows[..|rows| - 1] + [rows[|rows| - 1]];
    }
  }

  /* -------------------------------------------------------------- grouping */

  function ActionIds(rows: seq<Started>): (ids: seq<string>)
    ensures |ids| == |rows| && forall i :: 0 <= i < |ids| ==> ids[i] == rows[i].actionId
  {
    seq(|rows|, i requires 0 <= i < |rows| => rows[i].actionId)
  }

  /**
   A cutting of `ids` into non-empty groups without repetition, in which each
   group starts with an action the group before it already had.
   */
  ghost predicate IsGrouping(ids: seq<string>, groups: seq<seq<string>>) {
    && Flatten(groups) == ids
    && (forall g :: 0 <= g < |groups| ==> groups[g] != [] && Distinct(groups[g]))
    && (forall g :: 0 < g < |groups| ==> groups[g][0] in groups[g - 1])
  }

  /** The second group starts with a repetition. */
  lemma SecondGroupRepeats(ids: seq<string>, a: seq<seq<string>>)
    requires IsGrouping(ids, a) && |a| > 1
    ensures |a[0]| < |ids| && ids[|a[0]|] in ids[..|a[0]|]
  {
    assert a[1] != [] && a[1][0] in a[0];
    assert a[1..][0] == a[1] && Flatten(a[1..]) == a[1] + Flatten(a[1..][1..]);
    assert ids == a[0] + (a[1] + Flatten(a[1..][1..]));
    assert ids[|a[0]|] == a[1][0] && ids[..|a[0]|] == a[0];
  }

  /** The first group has none. */
  lemma FirstGroupRepeatsNothing(ids: seq<string>, b: seq<seq<string>>)
    requires IsGrouping(ids, b) && b != []
    ensures |b[0]| <= |ids| && forall j :: 0 <= j < |b[0]| ==> ids[j] !in ids[..j]
  {
    assert ids == b[0] + Flatten(b[1..]);
    forall j | 0 <= j < |b[0]| ensures ids[j] !in ids[..j] {
      assert ids[j] == b[0][j] && ids[..j] == b[0][..j];
    }
  }

  lemma FirstGroupIsShorter(ids: seq<string>, a: seq<seq<string>>, b: seq<seq<string>>)
    requires IsGrouping(ids, a) && IsGrouping(ids, b) && a != [] && b != []
    ensures |b[0]| <= |a[0]|
  {
    FirstGroupRepeatsNothing(ids, b);
    if |a| > 1 {
      SecondGroupRepeats(ids, a);
    } else {
      assert a[1..] == [] && ids == a[0] + Flatten(a[1..]);
    }
  }

  lemma FlattenNonEmpty(groups: seq<seq<string>>)
    requires groups != [] && groups[0] != []
    ensures Flatten(groups) != []
  {
  }

  /** There is one such cutting at most. */
  lemma {:induction false} GroupingIsUnique(ids: seq<string>, a: seq<seq<string>>, b: seq<seq<string>>)
    requires IsGrouping(ids, a) && IsGrouping(ids, b)
    ensures a == b
    decreases |a|
  {
    if a != [] { FlattenNonEmpty(a); }
    if b != [] { FlattenNonEmpty(b); }
    if a != [] && b != [] {
      FirstGroupIsShorter(ids, a, b);
      FirstGroupIsShorter(ids, b, a);
      var rest := Flatten(a[1..]);
      assert ids == a[0] + rest == b[0] + Flatten(b[1..]);
      assert a[0] == ids[..|a[0]|] == b[0] && rest == ids[|a[0]|..] == Flatten(b[1..]);
      GroupingIsUnique(rest, a[1..], b[1..]);
      assert a == [a[0]] + a[1..] && b == [b[0]] + b[1..];
    }
  }

  /** One more row in the last group. */
  lemma GrowLast(ids: seq<string>, groups: seq<seq<string>>, current: seq<string>, id: string)
    requires IsGrouping(ids, groups + [current]) && id !in current
    ensures IsGrouping(ids + [id], groups + [current + [id]])
  {
    FlattenSnoc(groups, current);
    FlattenSnoc(groups, current + [id]);
    var before, after := groups + [current], groups + [current + [id]];
    assert before[|groups|] == current;
    forall g | 0 <= g < |after| ensures after[g] != [] && Distinct(after[g]) { assert before[g] != []; }
    forall g | 0 < g < |after| ensures after[g][0] in after[g - 1] {
      assert after[g - 1] == before[g - 1] && after[g][0] == before[g][0];
    }
  }

  /** A row that starts a new group. */
  lemma StartNew(ids: seq<string>, groups: seq<seq<string>>, id: string)
    requires IsGrouping(ids, groups) && (groups != [] ==> id in groups[|groups| - 1])
    ensures IsGrouping(ids + [id], groups + [[id]])
  {
    FlattenSnoc(groups, [id]);
  }

  function GroupIds(groups: seq<seq<Started>>): (ids: seq<seq<string>>)
    ensures |ids| == |groups| && forall g :: 0 <= g < |ids| ==> ids[g] == ActionIds(groups[g])
  {
    seq(|groups|, g requires 0 <= g < |groups| => ActionIds(groups[g]))
  }

  /** The grouping of the rows so far, with the group being filled as its last. */
  ghost predicate Filling(rows: seq<Started>, attempts: seq<seq<Started>>, current: seq<Started>) {
    && Flatten(attempts) + current == rows
    && if rows == [] then attempts == [] && current == []
       else current != [] && IsGrouping(ActionIds(rows), GroupIds(attempts) + [ActionIds(current)])
  }

  lemma FillNew(rows: seq<Started>, attempts: seq<seq<Started>>, current: seq<Started>, row: Started)
    requires Filling(rows, attempts, current) && row.actionId in ActionIds(current)
    ensures Filling(rows + [row], attempts + [current], [row])
  {
    hide IsGrouping;
    assert ActionIds(rows + [row]) == ActionIds(rows) + [row.actionId];
    assert ActionIds([row]) == [row.actionId];
    assert GroupIds(attempts + [current]) == GroupIds(attempts) + [ActionIds(current)];
    FlattenSnoc(attempts, current);
    StartNew(ActionIds(rows), GroupIds(attempts + [current]), row.actionId);
  }

  lemma FillNext(rows: seq<Started>, attempts: seq<seq<Started>>, current: seq<Started>, row: Started)
    requires Filling(rows, attempts, current) && row.actionId !in ActionIds(current)
    ensures Filling(rows + [row], attempts, current + [row])
  {
    hide IsGrouping;
    assert ActionIds(rows + [row]) == ActionIds(rows) + [row.actionId];
    assert ActionIds(current + [row]) == ActionIds(current) + [row.actionId];
    assert Flatten(attempts) + (current + [row]) == rows + [row];
    if rows == [] {
      EmptyGrouping();
      StartNew([], [], row.actionId);
      assert ActionIds(rows + [row]) == [] + [row.actionId];
      var first := ActionIds(current + [row]);
      assert first == [row.actionId] && GroupIds(attempts) == [];
      assert GroupIds(attempts) + [first] == [] + [[row.actionId]];
    } else {
      GrowLast(ActionIds(rows), GroupIds(attempts), ActionIds(current), row.actionId);
    }
  }

  lemma Filled(rows: seq<Started>, attempts: seq<seq<Started>>, current: seq<Started>)
    requires Filling(rows, attempts, current)
    ensures
      var all := if current == [] then attempts else attempts + [current];
      Flatten(all) == rows && IsGrouping(ActionIds(rows), GroupIds(all))
  {
    hide IsGrouping;
    if current == [] {
      EmptyGrouping();
    } else {
      FlattenSnoc(attempts, current);
      assert GroupIds(attempts + [current]) == GroupIds(attempts) + [ActionIds(current)];
    }
  }

  lemma EmptyGrouping()
    ensures IsGrouping([], [])
  {
  }

  /** `seen` holds the actions of the group being filled. */
  ghost predicate IsSeen(seen: set<string>, current: seq<Started>) {
    forall id :: id in seen <==> id in ActionIds(current)
  }

  lemma SeenNext(seen: set<string>, current: seq<Started>, row: Started)
    ensures IsSeen({}, [])
    ensures IsSeen(seen, current) ==> IsSeen(seen + {row.actionId}, current + [row])
  {
    assert ActionIds(current + [row]) == ActionIds(current) + [row.actionId];
  }

  /**
   For any rows, the groups concatenate to the rows in start order, and their
   actions form the one cutting described by IsGrouping.
   */
  method GroupIntoAttempts(rows: seq<Started>) returns (attempts: seq<seq<Started>>)
    ensures Flatten(attempts) == StableSort(rows)
    ensures IsGrouping(ActionIds(StableSort(rows)), GroupIds(attempts))
  {
    var sorted := StableSort(rows);
    attempts := [];
    var current: seq<Started> := [];
    var seen: set<string> := {};
    for i := 0 to |sorted|
      invariant IsSeen(seen, current)
      invariant Filling(sorted[..i], attempts, current)
    {
      hide Filling, IsSeen, IsGrouping, Flatten;
      var row := sorted[i];
      assert sorted[..i + 1] == sorted[..i] + [row];
      assert row.actionId in seen <==> row.actionId in ActionIds(current) by { SeenIs(seen, current, row.actionId); }
      if row.actionId in seen {
        FillNew(sorted[..i], attempts, current, row);
        attempts := attempts + [current];
        current, seen := [], {};
      } else {
        FillNext(sorted[..i], attempts, current, row);
      }
      SeenNext(seen, current, row);
      assert [] + [row] == [row];
      current, seen := current + [row], seen + {row.actionId};
    }
    hide Filling, IsSeen, IsGrouping, Flatten;
    assert sorted[..|sorted|] == sorted;
    Filled(sorted, attempts, current);
    if |current| > 0 {
      attempts := attempts + [current];
    }
  }

  lemma SeenIs(seen: set<string>, current: seq<Started>, id: string)
    requires IsSeen(seen, current)
    ensures id in seen <==> id in ActionIds(current)
  {
  }

  /* ------------------------------------------------ what the engine's trace is */

  /** The attempts that wrote rows. */
  function Written(attempts: seq<seq<string>>): seq<seq<string>> {
    if attempts == [] then []
    else
      var last := attempts[|attempts| - 1];
      Written(attempts[..|attempts| - 1]) + if last == [] then [] else [last]
  }

  lemma {:induction false} WrittenRows(attempts: seq<seq<string>>)
    ensures Flatten(Written(attempts)) == Flatten(attempts)
    ensures forall g :: 0 <= g < |Written(attempts)| ==> Written(attempts)[g] in attempts && Written(attempts)[g] != []
  {
    if attempts != [] {
      var earlier, last := attempts[..|attempts| - 1], attempts[|attempts| - 1];
      assert attempts == earlier + [last];
      WrittenRows(earlier);
      FlattenSnoc(earlier, last);
      FlattenSnoc(Written(earlier), last);
      if last == [] {
        assert Written(attempts) == Written(earlier) && Flatten(attempts) == Flatten(earlier);
      } else {
        assert Written(attempts) == Written(earlier) + [last] && last in attempts;
      }
    }
  }

  lemma WrittenSnoc(attempts: seq<seq<string>>, last: seq<string>)
    ensures Written(attempts + [last]) == Written(attempts) + if last == [] then [] else [last]
  {
    assert (attempts + [last])[..|attempts|] == attempts;
  }

  /** Each attempt starts with an action the one before has a row of. */
  ghost predicate Overlap(attempts: seq<seq<string>>) {
    forall g :: 0 < g < |attempts| ==> attempts[g] != [] && attempts[g][0] in attempts[g - 1]
  }

  /**
   From rows in start order that attempts of distinct actions wrote, the grouping
   recovers exactly those attempts if and only if each overlaps the one before.
   */
  lemma RecoversIff(rows: seq<Started>, written: seq<seq<string>>, groups: seq<seq<Started>>)
    requires Sorted(rows) && ActionIds(rows) == Flatten(written)
    requires forall g :: 0 <= g < |written| ==> written[g] != [] && Distinct(written[g])
    requires IsGrouping(ActionIds(StableSort(rows)), GroupIds(groups))
    ensures GroupIds(groups) == written <==> Overlap(written)
  {
    SortedIsKept(rows);
    if Overlap(written) { GroupingIsUnique(ActionIds(rows), GroupIds(groups), written); }
  }

  /**
   A call of `process`: it found `from` actions done, started those before `to`, and left
   `done` of them done; `threw` if its last action failed, as opposed to a crash.
   */
  datatype Span = Span(from: nat, to: nat, done: nat, threw: bool)

  /** How many calls failed. */
  function Failures(spans: seq<Span>): nat {
    if spans == [] then 0
    else Failures(spans[..|spans| - 1]) + if spans[|spans| - 1].threw then 1 else 0
  }

  lemma FailuresSnoc(spans: seq<Span>, span: Span)
    ensures Failures(spans + [span]) == Failures(spans) + if span.threw then 1 else 0
  {
    assert (spans + [span])[..|spans|] == spans;
  }

  /** Calls of one engine on a chain of n actions: each finds what the ones before left. */
  ghost predicate IsHistory(n: nat, spans: seq<Span>) {
    && (forall i :: 0 <= i < |spans| ==>
          spans[i].from <= spans[i].done <= spans[i].to <= spans[i].done + 1 && spans[i].to <= n)
    && (forall i :: 0 <= i < |spans| ==> spans[i].from == DoneBy(spans[..i]))
  }

  function DoneBy(spans: seq<Span>): nat {
    if spans == [] then 0 else spans[|spans| - 1].done
  }

  /** The actions each call started. */
  ghost function StartedBy(ids: seq<string>, spans: seq<Span>): seq<seq<string>>
    requires IsHistory(|ids|, spans)
  {
    if spans == [] then []
    else
      var last := spans[|spans| - 1];
      HistoryPrefix(|ids|, spans);
      StartedBy(ids, spans[..|spans| - 1]) + [ids[last.from..last.to]]
  }

  lemma HistoryPrefix(n: nat, spans: seq<Span>)
    requires IsHistory(n, spans) && spans != []
    ensures IsHistory(n, spans[..|spans| - 1])
  {
    var init := spans[..|spans| - 1];
    forall i | 0 <= i < |init| ensures init[i].from == DoneBy(init[..i]) { assert init[..i] == spans[..i]; }
  }

  /** The last call, and what the calls before it started. */
  lemma LastCall(ids: seq<string>, spans: seq<Span>)
    requires IsHistory(|ids|, spans) && spans != []
    ensures
      var init, last := spans[..|spans| - 1], spans[|spans| - 1];
      && IsHistory(|ids|, init) && last.from == DoneBy(init)
      && last.from <= last.done <= last.to <= last.done + 1 && last.to <= |ids|
      && Written(StartedBy(ids, spans)) ==
           if Wrote(last) then Written(StartedBy(ids, init)) + [ids[last.from..last.to]]
           else Written(StartedBy(ids, init))
  {
    var init, last := spans[..|spans| - 1], spans[|spans| - 1];
    HistoryPrefix(|ids|, spans);
    WrittenSnoc(StartedBy(ids, init), ids[last.from..last.to]);
  }

  /** The attempts are those of this history, which left `done` actions done. */
  ghost predicate Records(ids: seq<string>, attempts: seq<seq<string>>, spans: seq<Span>, done: nat) {
    IsHistory(|ids|, spans) && DoneBy(spans) == done && attempts == StartedBy(ids, spans)
  }

  /** One more call. */
  lemma RecordsSnoc(ids: seq<string>, attempts: seq<seq<string>>, spans: seq<Span>, span: Span)
    requires Records(ids, attempts, spans, span.from)
    requires span.from <= span.done <= span.to <= span.done + 1 && span.to <= |ids|
    ensures Records(ids, attempts + [ids[span.from..span.to]], spans + [span], span.done)
  {
    var more := spans + [span];
    assert more[..|spans|] == spans;
    forall i | 0 <= i < |more| ensures more[i].from == DoneBy(more[..i]) {
      assert i < |spans| ==> more[..i] == spans[..i];
    }
  }

  /** The call was cut short after committing an action and before starting the next. */
  predicate Cut(n: nat, span: Span) {
    span.from < span.to == span.done < n
  }

  predicate Wrote(span: Span) {
    span.from < span.to
  }

  /** After such a call, another one wrote rows. */
  ghost predicate LosesACut(n: nat, spans: seq<Span>) {
    exists i, j :: 0 <= i < j < |spans| && Cut(n, spans[i]) && Wrote(spans[j])
  }

  /** The last call that wrote rows left what is done now. */
  lemma {:induction false} LastWriter(ids: seq<string>, spans: seq<Span>) returns (p: int)
    requires IsHistory(|ids|, spans)
    ensures -1 <= p < |spans| && (forall i :: p < i < |spans| ==> !Wrote(spans[i]))
    ensures
      var written := Written(StartedBy(ids, spans));
      if p < 0 then written == []
      else
        && Wrote(spans[p]) && spans[p].done == DoneBy(spans) && spans[p].to <= |ids|
        && written != [] && written[|written| - 1] == ids[spans[p].from..spans[p].to]
    decreases |spans|
  {
    hide StartedBy, IsHistory, Written;
    if spans == [] {
      NothingWritten(ids);
      p := -1;
    } else {
      var init, last := spans[..|spans| - 1], spans[|spans| - 1];
      LastCall(ids, spans);
      if Wrote(last) {
        p := |spans| - 1;
      } else {
        p := LastWriter(ids, init);
        assert last.done == DoneBy(init);
      }
    }
  }

  /**
   Whatever calls failed, crashed anywhere or wrote nothing: each one that wrote rows
   starts with an action the one before has a row of if and only if no call that wrote
   rows comes after one cut short between committing an action and starting the next.
   */
  lemma {:induction false} OverlapIff(ids: seq<string>, spans: seq<Span>)
    requires IsHistory(|ids|, spans) && Distinct(ids)
    ensures Overlap(Written(StartedBy(ids, spans))) <==> !LosesACut(|ids|, spans)
    decreases |spans|
  {
    hide StartedBy, IsHistory, Written, LosesACut, Overlap, Distinct;
    if spans == [] {
      NothingWritten(ids);
    } else {
      LastCall(ids, spans);
      OverlapIff(ids, spans[..|spans| - 1]);
      OverlapOneMore(ids, spans[..|spans| - 1], spans[|spans| - 1]);
      assert spans == spans[..|spans| - 1] + [spans[|spans| - 1]];
    }
  }

  lemma NothingWritten(ids: seq<string>)
    ensures IsHistory(|ids|, []) && Written(StartedBy(ids, [])) == []
    ensures Overlap([]) && !LosesACut(|ids|, [])
  {
  }

  lemma OverlapOneMore(ids: seq<string>, init: seq<Span>, last: Span)
    requires IsHistory(|ids|, init) && Distinct(ids) && last.from == DoneBy(init) && last.to <= |ids|
    ensures
      var written := Written(StartedBy(ids, init));
      && (LosesACut(|ids|, init + [last]) ==> LosesACut(|ids|, init) || Wrote(last))
      && (LosesACut(|ids|, init) ==> LosesACut(|ids|, init + [last]))
      && (Wrote(last) && (Overlap(written) <==> !LosesACut(|ids|, init)) ==>
            (Overlap(written + [ids[last.from..last.to]]) <==> !LosesACut(|ids|, init + [last])))
  {
    hide StartedBy, IsHistory, Written, LosesACut, Overlap, Distinct, Cut;
    var p := LastWriter(ids, init);
    LostByTheLast(|ids|, init, last, p);
    if Wrote(last) { OverlapOfWriter(ids, init, last, p, Written(StartedBy(ids, init))); }
  }

  /** A call that writes rows overlaps the last one before it that did unless that was cut. */
  lemma OverlapOfWriter(ids: seq<string>, init: seq<Span>, last: Span, p: int, written: seq<seq<string>>)
    requires IsHistory(|ids|, init) && Distinct(ids) && Wrote(last) && last.to <= |ids| && last.from == DoneBy(init)
    requires -1 <= p < |init|
    requires
      if p < 0 then written == []
      else
        && Wrote(init[p]) && init[p].done == DoneBy(init) && init[p].to <= |ids|
        && written != [] && written[|written| - 1] == ids[init[p].from..init[p].to]
    ensures Overlap(written + [ids[last.from..last.to]]) <==>
      Overlap(written) && !(p >= 0 && Cut(|ids|, init[p]))
  {
    hide Overlap, Distinct, IsHistory, Cut;
    OverlapSnoc(written, ids[last.from..last.to]);
    if p >= 0 { WriterIsCut(ids, init, p, last.from); }
  }

  /** The action that is due next is not among those the last writer started just when that was cut. */
  lemma WriterIsCut(ids: seq<string>, spans: seq<Span>, p: nat, k: nat)
    requires IsHistory(|ids|, spans) && Distinct(ids)
    requires p < |spans| && Wrote(spans[p]) && spans[p].done == k < |ids|
    ensures spans[p].to <= |ids| && (ids[k] in ids[spans[p].from..spans[p].to] <==> !Cut(|ids|, spans[p]))
  {
    InSlice(ids, spans[p].from, spans[p].to, k);
  }

  lemma OverlapSnoc(groups: seq<seq<string>>, last: seq<string>)
    requires last != []
    ensures Overlap(groups + [last]) <==>
      Overlap(groups) && (groups != [] ==> last[0] in groups[|groups| - 1])
  {
    var more := groups + [last];
    assert more[|groups|] == last && (groups != [] ==> more[|groups| - 1] == groups[|groups| - 1]);
    if Overlap(more) {
      forall g | 0 < g < |groups| ensures groups[g] != [] && groups[g][0] in groups[g - 1] {
        assert more[g] == groups[g] && more[g - 1] == groups[g - 1];
      }
    }
  }

  lemma InSlice(ids: seq<string>, a: nat, b: nat, k: nat)
    requires Distinct(ids) && a <= b <= |ids| && a <= k < |ids|
    ensures ids[k] in ids[a..b] <==> k < b
  {
    if k < b { assert ids[a..b][k - a] == ids[k]; }
  }

  /** A further call that writes rows loses the last one before it that did, if that was cut. */
  lemma LostByTheLast(n: nat, init: seq<Span>, last: Span, p: int)
    requires -1 <= p < |init| && (p >= 0 ==> Wrote(init[p])) && forall i :: p < i < |init| ==> !Wrote(init[i])
    ensures LosesACut(n, init + [last]) <==> LosesACut(n, init) || (Wrote(last) && p >= 0 && Cut(n, init[p]))
  {
    var spans := init + [last];
    if LosesACut(n, spans) {
      var i, j :| 0 <= i < j < |spans| && Cut(n, spans[i]) && Wrote(spans[j]);
      assert spans[i] == init[i] && Wrote(init[i]);
      if j < |init| {
        assert Cut(n, init[i]) && Wrote(init[j]);
      } else if i < p {
        assert Cut(n, init[i]) && Wrote(init[p]);
      }
    }
    if LosesACut(n, init) {
      var i, j :| 0 <= i < j < |init| && Cut(n, init[i]) && Wrote(init[j]);
      assert Cut(n, spans[i]) && Wrote(spans[j]);
    }
    if Wrote(last) && p >= 0 && Cut(n, init[p]) {
      assert Cut(n, spans[p]) && Wrote(spans[|init|]);
    }
  }

  /** The groups that were written have rows, of distinct actions. */
  lemma {:induction false} StartedAreDistinct(ids: seq<string>, spans: seq<Span>)
    requires IsHistory(|ids|, spans) && Distinct(ids)
    ensures forall group :: group in StartedBy(ids, spans) ==> Distinct(group)
    decreases |spans|
  {
    if spans != [] {
      HistoryPrefix(|ids|, spans);
      StartedAreDistinct(ids, spans[..|spans| - 1]);
    }
  }
}
