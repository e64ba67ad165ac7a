/**
 * The operation queue shown while long tasks run: a list of operation
 * records, each an object whose `id` and `startTime` the queue sets when it
 * adds it.
 */
module OperationQueue {
  import opened JsonData

  /** An operation record: its properties by name. */
  type Record = map<string, Json>

  /** `{ ...operation, id, startTime }`. */
  function NewEntry(operation: Record, id: Json, now: int): (r: Record)
    ensures "id" in r && "startTime" in r && r["id"] == id && r["startTime"] == JInt(now)
    ensures forall k :: k in operation && k != "id" && k != "startTime" ==> k in r && r[k] == operation[k]
  {
    operation["id" := id]["startTime" := JInt(now)]
  }

  predicate Matches(entry: Record, id: Json) {
    "id" in entry && entry["id"] == id
  }

  /** `prev.map(op => op.id === id ? { ...op, ...updates } : op)`. */
  function UpdateEntries(ops: seq<Record>, id: Json, updates: Record): (r: seq<Record>)
    ensures |r| == |ops|
    ensures forall i :: 0 <= i < |ops| && !Matches(ops[i], id) ==> r[i] == ops[i]
    ensures forall i :: 0 <= i < |ops| && Matches(ops[i], id) ==> r[i] == ops[i] + updates
  {
    seq(|ops|, i requires 0 <= i < |ops| => if Matches(ops[i], id) then ops[i] + updates else ops[i])
  }

  /** `prev.filter(op => op.id !== id)`. */
  function RemoveEntries(ops: seq<Record>, id: Json): (r: seq<Record>)
    ensures |r| <= |ops|
    ensures forall i :: 0 <= i < |r| ==> !Matches(r[i], id) && r[i] in ops
    ensures forall e :: e in ops && !Matches(e, id) ==> e in r
  {
    if ops == [] then []
    else (if Matches(ops[0], id) then [] else [ops[0]]) + RemoveEntries(ops[1..], id)
  }

  /** Removal keeps the surviving entries in their order: removing from a concatenation removes from each part. */
  lemma {:induction false} RemoveAppend(a: seq<Record>, b: seq<Record>, id: Json)
    ensures RemoveEntries(a + b, id) == RemoveEntries(a, id) + RemoveEntries(b, id)
  {
    if a == [] {
      assert a + b == b;
    } else {
      assert (a + b)[1..] == a[1..] + b;
      RemoveAppend(a[1..], b, id);
    }
  }

  /** An operation added and then removed by its fresh id leaves the list as it was. */
  lemma {:induction false} AddThenRemove(ops: seq<Record>, operation: Record, id: Json, now: int)
    requires forall i :: 0 <= i < |ops| ==> !Matches(ops[i], id)
    ensures RemoveEntries(ops + [NewEntry(operation, id, now)], id) == ops
  {
    RemoveAppend(ops, [NewEntry(operation, id, now)], id);
    RemoveNone(ops, id);
  }

  lemma {:induction false} RemoveNone(ops: seq<Record>, id: Json)
    requires forall i :: 0 <= i < |ops| ==> !Matches(ops[i], id)
    ensures RemoveEntries(ops, id) == ops
  {
    if ops != [] {
      RemoveNone(ops[1..], id);
    }
  }

  /** The provider's `operations` state and its three updaters. */
  class Queue {
    var operations: seq<Record>

    constructor()
      ensures operations == []
    {
      operations := [];
    }

    /** `addOperation`; `id` is `Date.now() + Math.random()` and `now` is `Date.now()`. */
    method Add(operation: Record, id: Json, now: int) returns (r: Json)
      modifies this
      ensures r == id
      ensures operations == old(operations) + [NewEntry(operation, id, now)]
    {
      operations := operations + [NewEntry(operation, id, now)];
      r := id;
    }

    method Update(id: Json, updates: Record)
      modifies this
      ensures operations == UpdateEntries(old(operations), id, updates)
    {
      operations := UpdateEntries(operations, id, updates);
    }

    method Remove(id: Json)
      modifies this
      ensures operations == RemoveEntries(old(operations), id)
    {
      operations := RemoveEntries(operations, id);
    }

    /** The queue display renders only when some operation is listed. */
    function Shown(): (r: bool)
      reads this
      ensures r <==> |operations| > 0
    {
      operations != []
    }
  }
}
