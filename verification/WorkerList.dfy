/**
  The singly-linked list macros of server/include/aesdsocket/queue.h, on the
  server's list of worker entries.
 */
module WorkerList {

  /**
    A list entry and its worker (server/include/aesdsocket/aesd_worker.h).  The
    worker's thread sets its `exited` flag at any time, so what a traversal reads
    of that flag is a parameter of the traversal.
   */
  class WorkerEntry {
    var next: WorkerEntry?
    var shutdown: bool
    var ended: bool        // the thread has ended
    ghost var joins: nat   // how often it has been joined
    ghost var freed: bool

    constructor ()
      ensures !shutdown && !ended && joins == 0 && !freed
    {
      next := null;
      shutdown, ended := false, false;
      joins, freed := 0, false;
    }

    /** Reads the link of an entry that has not been freed. */
    method Next() returns (e: WorkerEntry?)
      requires !freed
      ensures e == next
    {
      e := next;
    }

    method SetNext(e: WorkerEntry?)
      requires !freed
      modifies this`next
      ensures next == e
    {
      next := e;
    }

    /** Tells the worker's thread to end. */
    method Stop()
      requires !freed
      modifies this`shutdown
      ensures shutdown
    {
      shutdown := true;
    }

    /** `pthread_join` returns once the thread has ended, which it may do at any time. */
    method Join()
      requires !freed
      modifies this`ended, this`joins
      ensures ended && joins == old(joins) + 1
    {
      ended := true;
      joins := joins + 1;
    }

    /** `aesd_worker_entry_delete`: only once, and only after the thread has ended. */
    method Delete()
      requires !freed && ended
      modifies this`freed
      ensures freed
    {
      freed := true;
    }
  }

  class WorkerSlist {
    var first: WorkerEntry?
    ghost var entries: seq<WorkerEntry>

    /** The entry after position `i`. */
    ghost function NextIn(i: nat): WorkerEntry?
      requires i < |entries|
      reads this
    {
      if i + 1 < |entries| then entries[i + 1] else null
    }

    ghost predicate Valid()
      reads this, entries
    {
      && first == (if entries == [] then null else entries[0])
      && (forall i {:trigger entries[i].next} :: 0 <= i < |entries| ==> entries[i].next == NextIn(i))
      && (forall i, j :: 0 <= i < j < |entries| ==> entries[i] != entries[j])
      && (forall i {:trigger entries[i].freed} :: 0 <= i < |entries| ==> !entries[i].freed)
    }

    /** SLIST_INIT */
    constructor ()
      ensures Valid() && entries == []
    {
      first := null;
      entries := [];
    }

    /** SLIST_INSERT_HEAD */
    method InsertHead(entry: WorkerEntry)
      requires Valid() && entry !in entries && !entry.freed
      modifies this, entry`next
      ensures Valid() && entries == [entry] + old(entries)
    {
      entry.SetNext(first);
      first := entry;
      entries := [entry] + entries;
      assert forall i :: 1 <= i < |entries| ==> entries[i] == old(entries)[i - 1];
    }

    /** SLIST_REMOVE: looks for the element from the head again, through entries that are not freed. */
    method Remove(entry: WorkerEntry, ghost k: nat)
      requires Valid() && k < |entries| && entries[k] == entry
      modifies this, (set e | e in entries)`next
      ensures Valid() && entries == old(entries)[..k] + old(entries)[k + 1..]
      ensures entry.next == old(entry.next)
    {
      assert entries[0].next == NextIn(0);
      if first == entry {
        first := first.Next();
      } else {
        var current := first;
        ghost var i := 0;
        var following := current.Next();
        while following != entry
          invariant 0 <= i < k && current == entries[i] && following == entries[i].next
          modifies {}
          decreases k - i
        {
          assert entries[i].next == NextIn(i);
          current := following;
          i := i + 1;
          assert entries[i].next == NextIn(i) && !entries[i].freed;
          following := current.Next();
        }
        assert entries[i].next == NextIn(i) && i + 1 == k;
        following := following.Next();
        current.SetNext(following);
      }
      entries := entries[..k] + entries[k + 1..];
    }
  }
}
