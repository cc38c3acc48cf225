/**
 The order of a workflow's actions: `position` columns, assigned by create and by
 reorder, and read by ORDER BY position ASC, which leaves the order of equal
 positions open. The writes of a reorder are one transaction; its check comes before
 that, and both together are one step here.
 */
module ActionOrder {
  import opened Options
  import opened Sets

  /** An actions row; `content` stands for its type and config. */
  datatype Row = Row(workflowId: string, position: int, content: string)

  type Rows = map<string, Row>

  predicate Owns(rows: Rows, workflowId: string, id: string) {
    id in rows && rows[id].workflowId == workflowId
  }

  /** An answer of the database to listing the workflow's actions by position. */
  ghost predicate IsListing(rows: Rows, workflowId: string, list: seq<string>) {
    && Distinct(list)
    && (forall i :: 0 <= i < |list| ==> Owns(rows, workflowId, list[i]))
    && (forall id :: Owns(rows, workflowId, id) ==> id in list)
    && (forall i, j :: 0 <= i < j < |list| ==> rows[list[i]].position <= rows[list[j]].position)
  }

  ghost predicate DistinctPositions(rows: Rows, workflowId: string) {
    forall a, b :: Owns(rows, workflowId, a) && Owns(rows, workflowId, b) && rows[a].position == rows[b].position ==>
      a == b
  }

  lemma LastIsHighest(rows: Rows, workflowId: string, list: seq<string>, id: string)
    requires IsListing(rows, workflowId, list) && id in list
    ensures rows[id].position <= rows[list[|list| - 1]].position
  {
    var i :| 0 <= i < |list| && list[i] == id;
  }

  lemma ListingWithoutLast(rows: Rows, workflowId: string, list: seq<string>)
    requires IsListing(rows, workflowId, list) && list != []
    ensures IsListing(rows - {list[|list| - 1]}, workflowId, list[..|list| - 1])
  {
    var last, shorter := list[|list| - 1], list[..|list| - 1];
    var fewer := rows - {last};
    forall i | 0 <= i < |shorter| ensures Owns(fewer, workflowId, shorter[i]) && fewer[shorter[i]] == rows[list[i]] {
      assert shorter[i] == list[i] && Owns(rows, workflowId, list[i]) && list[i] != last;
    }
    forall id | Owns(fewer, workflowId, id) ensures id in shorter {
      assert Owns(rows, workflowId, id) && id in list && id != last;
      var i :| 0 <= i < |list| && list[i] == id;
      assert shorter[i] == id;
    }
    assert Distinct(shorter);
  }

  lemma FirstIsListed(rows: Rows, workflowId: string, a: seq<string>, b: seq<string>)
    requires IsListing(rows, workflowId, a) && IsListing(rows, workflowId, b)
    ensures a != [] ==> a[0] in b
  {
    if a != [] { assert Owns(rows, workflowId, a[0]); }
  }

  lemma SameLast(rows: Rows, workflowId: string, a: seq<string>, b: seq<string>)
    requires IsListing(rows, workflowId, a) && IsListing(rows, workflowId, b) && DistinctPositions(rows, workflowId)
    requires a != [] && b != []
    ensures a[|a| - 1] == b[|b| - 1]
  {
    var x, y := a[|a| - 1], b[|b| - 1];
    assert Owns(rows, workflowId, x) && Owns(rows, workflowId, y);
    LastIsHighest(rows, workflowId, a, y);
    LastIsHighest(rows, workflowId, b, x);
  }

  lemma FewerDistinctPositions(rows: Rows, workflowId: string, id: string)
    requires DistinctPositions(rows, workflowId)
    ensures DistinctPositions(rows - {id}, workflowId)
  {
    assert forall a :: Owns(rows - {id}, workflowId, a) ==> Owns(rows, workflowId, a);
  }

  /** With distinct positions there is only one listing. */
  lemma {:induction false} OneListing(rows: Rows, workflowId: string, a: seq<string>, b: seq<string>)
    requires IsListing(rows, workflowId, a) && IsListing(rows, workflowId, b) && DistinctPositions(rows, workflowId)
    ensures a == b
    decreases |a|
  {
    hide IsListing, DistinctPositions;
    FirstIsListed(rows, workflowId, a, b);
    FirstIsListed(rows, workflowId, b, a);
    if a != [] {
      SameLast(rows, workflowId, a, b);
      ListingWithoutLast(rows, workflowId, a);
      ListingWithoutLast(rows, workflowId, b);
      FewerDistinctPositions(rows, workflowId, a[|a| - 1]);
      OneListing(rows - {a[|a| - 1]}, workflowId, a[..|a| - 1], b[..|b| - 1]);
      assert a == a[..|a| - 1] + [a[|a| - 1]];
    }
  }

  /* ------------------------------------------------------------------ reorder */

  function LastIndex(ids: seq<string>, id: string): nat
    requires id in ids
  {
    if ids[|ids| - 1] == id then |ids| - 1
    else
      assert ids == ids[..|ids| - 1] + [ids[|ids| - 1]];
      LastIndex(ids[..|ids| - 1], id)
  }

  function Remove(ids: seq<string>, id: string): seq<string> {
    if ids == [] then []
    else Remove(ids[..|ids| - 1], id) + if ids[|ids| - 1] == id then [] else [ids[|ids| - 1]]
  }

  /** The list without repetitions, the last of each kept. */
  function KeepLast(ids: seq<string>): seq<string> {
    if ids == [] then []
    else Remove(KeepLast(ids[..|ids| - 1]), ids[|ids| - 1]) + [ids[|ids| - 1]]
  }

  /** In order of their last occurrence in ids. */
  ghost predicate InLastOrder(list: seq<string>, ids: seq<string>) {
    && (forall i :: 0 <= i < |list| ==> list[i] in ids)
    && (forall i, j :: 0 <= i < j < |list| ==> LastIndex(ids, list[i]) < LastIndex(ids, list[j]))
  }

  lemma {:induction false} RemoveMembers(list: seq<string>, gone: string, id: string)
    ensures id in Remove(list, gone) <==> id in list && id != gone
  {
    if list != [] {
      RemoveMembers(list[..|list| - 1], gone, id);
      assert list == list[..|list| - 1] + [list[|list| - 1]];
    }
  }

  lemma {:induction false} RemoveKeepsOrder(list: seq<string>, gone: string, ids: seq<string>)
    requires InLastOrder(list, ids)
    ensures InLastOrder(Remove(list, gone), ids)
  {
    hide LastIndex;
    if list != [] {
      var shorter, last := list[..|list| - 1], list[|list| - 1];
      assert forall i :: 0 <= i < |shorter| ==> shorter[i] == list[i] && shorter[i] in list;
      RemoveKeepsOrder(shorter, gone, ids);
      var kept := Remove(shorter, gone);
      forall i | 0 <= i < |kept| ensures kept[i] in ids && LastIndex(ids, kept[i]) < LastIndex(ids, last) {
        assert kept[i] in kept;
        RemoveMembers(shorter, gone, kept[i]);
        var j :| 0 <= j < |shorter| && shorter[j] == kept[i];
        assert list[j] == kept[i];
      }
    }
  }

  lemma LastIndexSnoc(ids: seq<string>, last: string, id: string)
    requires id in ids
    ensures LastIndex(ids + [last], id) == if id == last then |ids| else LastIndex(ids, id)
    ensures LastIndex(ids, id) < |ids|
  {
    assert (ids + [last])[..|ids|] == ids;
    LastIndexBound(ids, id);
  }

  lemma {:induction false} LastIndexBound(ids: seq<string>, id: string)
    requires id in ids
    ensures LastIndex(ids, id) < |ids| && ids[LastIndex(ids, id)] == id
  {
    if ids[|ids| - 1] != id {
      assert ids == ids[..|ids| - 1] + [ids[|ids| - 1]];
      LastIndexBound(ids[..|ids| - 1], id);
    }
  }

  /** KeepLast has the same members, each once, in the order of their last occurrences. */
  lemma {:induction false} KeepLastIsInOrder(ids: seq<string>)
    ensures forall id :: id in KeepLast(ids) <==> id in ids
    ensures InLastOrder(KeepLast(ids), ids)
  {
    if ids != [] {
      var shorter, last := ids[..|ids| - 1], ids[|ids| - 1];
      assert ids == shorter + [last];
      KeepLastIsInOrder(shorter);
      RemoveKeepsOrder(KeepLast(shorter), last, shorter);
      var kept := Remove(KeepLast(shorter), last);
      forall id ensures id in kept <==> id in shorter && id != last { RemoveMembers(KeepLast(shorter), last, id); }
      forall id | id in kept ensures LastIndex(ids, id) == LastIndex(shorter, id) < |shorter| {
        LastIndexSnoc(shorter, last, id);
      }
    }
  }

  ghost predicate Covers(rows: Rows, ids: seq<string>) {
    forall i :: 0 <= i < |ids| ==> ids[i] in rows
  }

  /** The submitted ids are the workflow's actions: none missing, none foreign. */
  ghost predicate IsComplete(rows: Rows, workflowId: string, ids: seq<string>) {
    && (forall i :: 0 <= i < |ids| ==> Owns(rows, workflowId, ids[i]))
    && (forall id :: Owns(rows, workflowId, id) ==> id in ids)
  }

  /** The first submitted id that is not one of the workflow's actions. */
  ghost predicate IsFirstForeign(rows: Rows, workflowId: string, ids: seq<string>, id: string) {
    exists k :: 0 <= k < |ids| && ids[k] == id && !Owns(rows, workflowId, id)
                && forall j :: 0 <= j < k ==> Owns(rows, workflowId, ids[j])
  }

  /** The rows after the first n updates of the transaction. */
  ghost function Positioned(rows: Rows, ids: seq<string>, n: nat): Rows
    requires n <= |ids| && Covers(rows, ids)
  {
    if n == 0 then rows
    else
      var before := Positioned(rows, ids, n - 1);
      if ids[n - 1] in before then before[ids[n - 1] := before[ids[n - 1]].(position := n - 1)] else before
  }

  /** Afterwards, an action is at the place of its last occurrence, and otherwise unchanged. */
  lemma {:induction false} PositionedAt(rows: Rows, ids: seq<string>, n: nat, id: string)
    requires n <= |ids| && Covers(rows, ids)
    ensures id in Positioned(rows, ids, n) <==> id in rows
    ensures
      id in rows ==>
        Positioned(rows, ids, n)[id] == if id in ids[..n] then rows[id].(position := LastIndex(ids[..n], id))
          else rows[id]
  {
    if n > 0 {
      assert ids[..n] == ids[..n - 1] + [ids[n - 1]];
      PositionedAt(rows, ids, n - 1, id);
      PositionedAt(rows, ids, n - 1, ids[n - 1]);
      if id in ids[..n - 1] { LastIndexSnoc(ids[..n - 1], ids[n - 1], id); }
    }
  }

  /**
   After an accepted reorder, the workflow's actions have distinct positions, and are
   listed as the submitted ids, each at its last occurrence.
   */
  lemma ReorderedListing(rows: Rows, workflowId: string, ids: seq<string>, list: seq<string>)
    requires Covers(rows, ids) && IsComplete(rows, workflowId, ids)
    ensures DistinctPositions(Positioned(rows, ids, |ids|), workflowId)
    ensures IsListing(Positioned(rows, ids, |ids|), workflowId, list) <==> list == KeepLast(ids)
  {
    var after := Positioned(rows, ids, |ids|);
    assert ids[..|ids|] == ids;
    forall id
      ensures Owns(after, workflowId, id) <==> id in ids
      ensures id in ids ==>
        after[id].position == LastIndex(ids, id) && LastIndex(ids, id) < |ids| && ids[LastIndex(ids, id)] == id
    {
      PositionedAt(rows, ids, |ids|, id);
      if id in ids { LastIndexBound(ids, id); }
    }
    KeepLastIsInOrder(ids);
    KeptIsListing(after, workflowId, ids);
    if IsListing(after, workflowId, list) { OneListing(after, workflowId, list, KeepLast(ids)); }
  }

  lemma KeptIsListing(rows: Rows, workflowId: string, ids: seq<string>)
    requires forall id :: Owns(rows, workflowId, id) <==> id in ids
    requires forall id :: Owns(rows, workflowId, id) ==> rows[id].position == LastIndex(ids, id)
    requires InLastOrder(KeepLast(ids), ids) && forall id :: id in KeepLast(ids) <==> id in ids
    ensures IsListing(rows, workflowId, KeepLast(ids))
  {
    var list := KeepLast(ids);
    forall i, j | 0 <= i < j < |list| ensures list[i] != list[j] && rows[list[i]].position <= rows[list[j]].position {
      assert LastIndex(ids, list[i]) < LastIndex(ids, list[j]);
    }
  }

  /* ------------------------------------------------------------------- create */

  /** What a create without a position is given: one past the last, or 0 for the first. */
  ghost predicate IsDefaultPosition(rows: Rows, workflowId: string, position: int) {
    && (forall id :: Owns(rows, workflowId, id) ==> rows[id].position < position)
    && (if exists id :: Owns(rows, workflowId, id)
        then exists id :: Owns(rows, workflowId, id) && rows[id].position == position - 1
        else position == 0)
  }

  lemma ListedAtEnd(rows: Rows, workflowId: string, id: string, row: Row, list: seq<string>)
    requires id !in rows && row.workflowId == workflowId && IsListing(rows, workflowId, list)
    requires forall other :: Owns(rows, workflowId, other) ==> rows[other].position < row.position
    ensures IsListing(rows[id := row], workflowId, list + [id])
  {
    var after, longer := rows[id := row], list + [id];
    forall i, j | 0 <= i < j < |longer|
      ensures longer[i] != longer[j] && after[longer[i]].position <= after[longer[j]].position
    {
      assert Owns(rows, workflowId, list[i]);
      if j < |list| { assert Owns(rows, workflowId, list[j]); }
    }
    forall other | Owns(after, workflowId, other) ensures other in longer {
      if other != id { assert Owns(rows, workflowId, other) && other in list; }
    }
  }

  /** An action created without a position is listed last, after any listing there was. */
  lemma CreatedIsLast(rows: Rows, workflowId: string, id: string, row: Row, list: seq<string>)
    requires id !in rows && row.workflowId == workflowId && IsDefaultPosition(rows, workflowId, row.position)
    ensures IsListing(rows[id := row], workflowId, list) <==>
      list != [] && list[|list| - 1] == id && IsListing(rows, workflowId, list[..|list| - 1])
  {
    hide Distinct;
    var after := rows[id := row];
    if IsListing(after, workflowId, list) {
      assert Owns(after, workflowId, id) && id in list;
      LastIsHighest(after, workflowId, list, id);
      assert Owns(after, workflowId, list[|list| - 1]);
      ListingWithoutLast(after, workflowId, list);
      assert after - {id} == rows;
    }
    if list != [] && list[|list| - 1] == id && IsListing(rows, workflowId, list[..|list| - 1]) {
      ListedAtEnd(rows, workflowId, id, row, list[..|list| - 1]);
      assert list == list[..|list| - 1] + [id];
    }
  }

  /* -------------------------------------------------------------- the service */

  datatype ReorderResult = Reordered | DoesNotBelong(id: string) | WrongCount(expected: nat, received: nat)

  class ActionsService {
    var rows: Rows

    function IdsOf(workflowId: string): set<string>
      reads this
    {
      set id | id in rows && rows[id].workflowId == workflowId
    }

    /**
     reorder: accepted just when the submitted ids are the workflow's actions, all of
     them and no others, however often each is submitted; refused, it changes nothing.
     */
    method Reorder(workflowId: string, orderedIds: seq<string>) returns (result: ReorderResult)
      modifies this
      ensures result.Reordered? <==> IsComplete(old(rows), workflowId, orderedIds)
      ensures !result.Reordered? ==> rows == old(rows)
      ensures result.DoesNotBelong? ==> IsFirstForeign(rows, workflowId, orderedIds, result.id)
      ensures result.WrongCount? ==>
        result.received == |set id | id in orderedIds| < |IdsOf(workflowId)| == result.expected
      ensures result.Reordered? ==>
        && (forall list :: IsListing(rows, workflowId, list) <==> list == KeepLast(orderedIds))
        && DistinctPositions(rows, workflowId)
      ensures forall id :: id in rows <==> id in old(rows)
      ensures forall id :: id in rows ==>
        if Owns(rows, workflowId, id) then rows[id] == old(rows)[id].(position := rows[id].position)
        else rows[id] == old(rows)[id]
    {
      var existing := IdsOf(workflowId);
      var provided: set<string> := {};
      for i := 0 to |orderedIds|
        invariant forall id :: id in provided <==> id in orderedIds[..i]
        invariant provided <= existing && forall j :: 0 <= j < i ==> Owns(rows, workflowId, orderedIds[j])
      {
        assert orderedIds[..i + 1] == orderedIds[..i] + [orderedIds[i]];
        if orderedIds[i] !in existing {
          return DoesNotBelong(orderedIds[i]);
        }
        provided := provided + {orderedIds[i]};
      }
      assert orderedIds[..|orderedIds|] == orderedIds;
      SubsetSize(provided, existing);
      assert forall id :: id in existing <==> Owns(rows, workflowId, id);
      if |provided| != |existing| {
        assert provided != existing;
        assert exists id :: id in existing && id !in provided;
        assert provided == set id | id in orderedIds;
        return WrongCount(|existing|, |provided|);
      }
      ghost var was := rows;
      assert Covers(was, orderedIds) && IsComplete(was, workflowId, orderedIds) by {
        forall i | 0 <= i < |orderedIds| ensures Owns(was, workflowId, orderedIds[i]) {
          assert orderedIds[i] in orderedIds;
        }
      }
      for index := 0 to |orderedIds|
        invariant Covers(was, orderedIds) && IsComplete(was, workflowId, orderedIds)
        invariant rows == Positioned(was, orderedIds, index)
      {
        PositionedAt(was, orderedIds, index, orderedIds[index]);
        rows := rows[orderedIds[index] := rows[orderedIds[index]].(position := index)];
      }
      forall id
        ensures id in rows <==> id in was
        ensures id in rows ==>
          if id in orderedIds then rows[id] == was[id].(position := rows[id].position) else rows[id] == was[id]
      {
        PositionedAt(was, orderedIds, |orderedIds|, id);
      }
      forall list ensures IsListing(rows, workflowId, list) <==> list == KeepLast(orderedIds) {
        ReorderedListing(was, workflowId, orderedIds, list);
      }
      ReorderedListing(was, workflowId, orderedIds, []);
      return Reordered;
    }

    /** The highest position of the workflow's actions: ORDER BY position DESC LIMIT 1. */
    method LastAction(workflowId: string) returns (position: Option<int>)
      ensures position.None? <==> forall id :: !Owns(rows, workflowId, id)
      ensures position.Some? ==>
        && (exists id :: Owns(rows, workflowId, id) && rows[id].position == position.value)
        && (forall id :: Owns(rows, workflowId, id) ==> rows[id].position <= position.value)
    {
      var todo := IdsOf(workflowId);
      position := None;
      while todo != {}
        invariant todo <= IdsOf(workflowId)
        invariant position.None? <==> forall id :: Owns(rows, workflowId, id) ==> id in todo
        invariant position.Some? ==>
          && (exists id :: Owns(rows, workflowId, id) && rows[id].position == position.value)
          && (forall id :: Owns(rows, workflowId, id) && id !in todo ==> rows[id].position <= position.value)
      {
        var id :| id in todo;
        if position.None? || position.value < rows[id].position {
          position := Some(rows[id].position);
        }
        todo := todo - {id};
      }
    }

    /** create; `id` is the generated one. */
    method Create(workflowId: string, order: Option<int>, content: string, id: string)
      requires id !in rows
      modifies this
      ensures id in rows && rows == old(rows)[id := Row(workflowId, rows[id].position, content)]
      ensures order.Some? ==> rows[id].position == order.value
      ensures order.None? ==>
        && IsDefaultPosition(old(rows), workflowId, rows[id].position)
        && forall list :: IsListing(rows, workflowId, list) <==>
             list != [] && list[|list| - 1] == id && IsListing(old(rows), workflowId, list[..|list| - 1])
    {
      var position := order.GetOr(0);
      if order.None? {
        var last := LastAction(workflowId);
        position := if last.Some? then last.value + 1 else 0;
        assert IsDefaultPosition(rows, workflowId, position);
        forall list
          ensures IsListing(rows[id := Row(workflowId, position, content)], workflowId, list) <==>
            list != [] && list[|list| - 1] == id && IsListing(rows, workflowId, list[..|list| - 1])
        {
          CreatedIsLast(rows, workflowId, id, Row(workflowId, position, content), list);
        }
      }
      rows := rows[id := Row(workflowId, position, content)];
    }
  }
}
