// The work queues of a compilation session.
module Schedulers {
  import opened Common

  // Of a declaration's record, the part that is its life cycle.
  datatype Record = Record(queued: bool, emitted: bool, emitting: bool)

  // Declarations wait here once in the whole run, however often they are enqueued.
  class DeclarationScheduler<T(==, !new)> {
    var queue: seq<T>
    var records: map<T, Record>
    // Everything popped so far, in order.
    ghost var popped: seq<T>

    constructor ()
      ensures Valid() && queue == [] && popped == []
    {
      queue, records, popped := [], map[], [];
    }

    ghost predicate Valid()
      reads this
    {
      && Distinct(queue) && Distinct(popped)
      && (forall o :: o in queue <==> o in records && records[o].queued)
      && (forall o :: o in popped <==> o in records && records[o].emitted)
      && (forall o :: o in records ==> !(records[o].queued && records[o].emitted))
    }

    method RecordOf(declared: T) returns (record: Record)
      modifies this
      ensures record == if declared in old(records) then old(records)[declared] else Record(false, false, false)
      ensures records == old(records)[declared := record]
      ensures queue == old(queue) && popped == old(popped)
    {
      record := if declared in records then records[declared] else Record(false, false, false);
      records := records[declared := record];
    }

    method Enqueue(declared: T)
      requires Valid()
      modifies this
      ensures Valid() && popped == old(popped)
      ensures queue ==
        if declared in old(queue) || declared in old(popped) then old(queue) else old(queue) + [declared]
      ensures declared in records && records[declared].emitting
    {
      var record := RecordOf(declared);
      records := records[declared := record.(emitting := true)];
      if record.emitted || record.queued {
        return;
      }
      records := records[declared := record.(emitting := true, queued := true)];
      queue := queue + [declared];
    }

    method Next() returns (next: Option<T>)
      requires Valid()
      modifies this
      ensures Valid()
      ensures old(queue) == [] ==> next == None && queue == old(queue) && popped == old(popped)
      ensures old(queue) != [] ==>
        next == Some(old(queue)[0]) && queue == old(queue)[1..] && popped == old(popped) + [next.value]
    {
      if |queue| == 0 {
        return None;
      }
      var declared := queue[0];
      assert declared in queue && declared !in queue[1..];
      assert forall o :: o in queue <==> o == declared || o in queue[1..];
      queue := queue[1..];
      records := records[declared := records[declared].(queued := false, emitted := true)];
      popped := popped + [declared];
      return Some(declared);
    }

    method HasPending() returns (pending: bool)
      requires Valid()
      ensures pending <==> queue != []
    {
      if |queue| != 0 {
        return true;
      }
      return exists o :: o in records && records[o].queued;
    }
  }

  // Packages wait here for their one initialization.
  class InitializationScheduler<T(==, !new)> {
    var queue: seq<T>
    var pending: set<T>
    var emitted: set<T>
    // Everything popped so far, in order.
    ghost var popped: seq<T>

    constructor ()
      ensures Valid() && queue == [] && popped == []
    {
      queue, pending, emitted, popped := [], {}, {}, [];
    }

    ghost predicate Valid()
      reads this
    {
      && Distinct(queue) && Distinct(popped)
      && pending == Elements(queue) && emitted == Elements(popped) && pending !! emitted
    }

    method Enqueue(item: T)
      requires Valid()
      modifies this
      ensures Valid() && popped == old(popped)
      ensures queue == if item in old(queue) || item in old(popped) then old(queue) else old(queue) + [item]
    {
      if item in emitted {
        return;
      }
      if item in pending {
        return;
      }
      pending := pending + {item};
      queue := queue + [item];
    }

    method Next() returns (next: Option<T>)
      requires Valid()
      modifies this
      ensures Valid()
      ensures old(queue) == [] ==> next == None && queue == old(queue) && popped == old(popped)
      ensures old(queue) != [] ==>
        next == Some(old(queue)[0]) && queue == old(queue)[1..] && popped == old(popped) + [next.value]
    {
      if |queue| == 0 {
        return None;
      }
      var item := queue[0];
      assert queue == [item] + queue[1..];
      queue := queue[1..];
      pending := pending - {item};
      emitted := emitted + {item};
      popped := popped + [item];
      return Some(item);
    }

    method HasPending() returns (waiting: bool)
      requires Valid()
      ensures waiting <==> queue != []
    {
      waiting := |queue| != 0 || |pending| != 0;
      assert queue == [] ==> pending == {};
    }
  }
}
