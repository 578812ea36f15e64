/**
  The life of the server's workers (server/src/aesd_server.c): accepting,
  checking for workers that have exited, and shutting down.
 */
module Server {
  import opened Bytes
  import opened WorkerList

  /** Whether the traversal finds the flag of the `i`-th entry set. */
  predicate Found(seen: seq<bool>, i: nat) {
    i < |seen| && seen[i]
  }

  /** What the traversal finds in a list of `n` entries. */
  function Flags(n: nat, seen: seq<bool>): (flags: seq<bool>)
    ensures |flags| == n && forall i :: 0 <= i < n ==> flags[i] == Found(seen, i)
  {
    seq(n, i requires 0 <= i < n => Found(seen, i))
  }

  /** The elements whose flag is not set, in order. */
  function Keep<T>(s: seq<T>, flags: seq<bool>): seq<T>
    requires |flags| == |s|
  {
    if s == [] then []
    else Keep(s[..|s| - 1], flags[..|s| - 1]) + if flags[|s| - 1] then [] else [s[|s| - 1]]
  }

  /** The elements whose flag is set, in order. */
  function Picked<T>(s: seq<T>, flags: seq<bool>): seq<T>
    requires |flags| == |s|
  {
    if s == [] then []
    else Picked(s[..|s| - 1], flags[..|s| - 1]) + if flags[|s| - 1] then [s[|s| - 1]] else []
  }

  lemma KeepStep<T>(s: seq<T>, flags: seq<bool>, i: nat)
    requires |flags| == |s| && i < |s|
    ensures Keep(s[..i + 1], flags[..i + 1]) == Keep(s[..i], flags[..i]) + if flags[i] then [] else [s[i]]
    ensures Picked(s[..i + 1], flags[..i + 1]) == Picked(s[..i], flags[..i]) + if flags[i] then [s[i]] else []
  {
    assert s[..i + 1][..i] == s[..i] && flags[..i + 1][..i] == flags[..i];
  }

  /** Of distinct elements, exactly those whose flag is set are picked, and exactly the others kept. */
  lemma {:induction false} KeepExactly<T>(s: seq<T>, flags: seq<bool>)
    requires |flags| == |s| && forall i, j :: 0 <= i < j < |s| ==> s[i] != s[j]
    ensures forall i :: 0 <= i < |Keep(s, flags)| ==> Keep(s, flags)[i] in s
    ensures forall i :: 0 <= i < |Picked(s, flags)| ==> Picked(s, flags)[i] in s
    ensures forall i :: 0 <= i < |s| ==> (s[i] in Picked(s, flags) <==> flags[i])
    ensures forall i :: 0 <= i < |s| ==> (s[i] in Keep(s, flags) <==> !flags[i])
  {
    if s != [] {
      var k := |s| - 1;
      KeepExactly(s[..k], flags[..k]);
      assert forall i :: 0 <= i < k ==> s[i] == s[..k][i] && flags[i] == flags[..k][i];
      assert s[k] !in s[..k];
    }
  }

  /** Where a kept element stands: behind those kept before it, and before those kept behind it. */
  lemma {:induction false} KeepInOrder<T>(s: seq<T>, flags: seq<bool>, i: nat)
    requires |flags| == |s| && i < |s| && !flags[i]
    ensures |Keep(s[..i], flags[..i])| < |Keep(s, flags)|
    ensures Keep(s, flags)[|Keep(s[..i], flags[..i])|] == s[i]
    ensures forall j :: i < j <= |s| ==> |Keep(s[..i], flags[..i])| < |Keep(s[..j], flags[..j])|
  {
    var k := |s| - 1;
    if i < k {
      KeepInOrder(s[..k], flags[..k], i);
      assert s[..k][..i] == s[..i] && flags[..k][..i] == flags[..i];
      assert forall j :: i < j <= k ==> s[..k][..j] == s[..j] && flags[..k][..j] == flags[..j];
    }
    assert s[..|s|] == s && flags[..|s|] == flags;
  }

  /** `a` stands somewhere before `b`. */
  ghost predicate Before<T>(s: seq<T>, a: T, b: T) {
    exists p, q :: 0 <= p < q < |s| && s[p] == a && s[q] == b
  }

  lemma KeptBefore<T>(s: seq<T>, flags: seq<bool>, i: nat, j: nat)
    requires |flags| == |s| && i < j < |s| && !flags[i] && !flags[j]
    ensures Before(Keep(s, flags), s[i], s[j])
  {
    KeepInOrder(s, flags, i);
    KeepInOrder(s, flags, j);
    var p, q := |Keep(s[..i], flags[..i])|, |Keep(s[..j], flags[..j])|;
    assert p < q && Keep(s, flags)[p] == s[i] && Keep(s, flags)[q] == s[j];
  }

  lemma AllVisited<T>(s: seq<T>, flags: seq<bool>)
    requires |flags| == |s|
    ensures Keep(s[..|s|], flags[..|s|]) + s[|s|..] == Keep(s, flags)
    ensures Picked(s[..|s|], flags[..|s|]) == Picked(s, flags)
  {
    assert s[..|s|] == s && flags[..|s|] == flags && s[|s|..] == [];
  }

  lemma TakeFirst<T>(a: seq<T>, s: seq<T>, i: nat)
    requires i < |s|
    ensures a + s[i..] == a + [s[i]] + s[i + 1..]
  {
    assert s[i..] == [s[i]] + s[i + 1..];
  }

  /** Exactly the listed entries whose flag was found set move from the list to the end of those reaped. */
  ghost predicate Checked<T>(es: seq<T>, seen: seq<bool>, es': seq<T>, reaped: seq<T>, reaped': seq<T>) {
    && (forall i :: 0 <= i < |es| ==> (es[i] in es' <==> !(i < |seen| && seen[i])))
    && (forall i :: 0 <= i < |es'| ==> es'[i] in es)
    && reaped <= reaped'
    && (forall i :: 0 <= i < |es| ==> (es[i] in reaped'[|reaped|..] <==> i < |seen| && seen[i]))
    && (forall i :: |reaped| <= i < |reaped'| ==> reaped'[i] in es)
    && |es'| + |reaped'| == |es| + |reaped|
    && (forall i, j :: 0 <= i < j < |es| && es[i] in es' && es[j] in es' ==> Before(es', es[i], es[j]))
  }

  lemma CheckedAll<T>(es: seq<T>, seen: seq<bool>, before: seq<T>)
    requires forall i, j :: 0 <= i < j < |es| ==> es[i] != es[j]
    ensures var flags := Flags(|es|, seen);
            Checked(es, seen, Keep(es, flags), before, before + Picked(es, flags))
  {
    var flags := Flags(|es|, seen);
    KeepExactly(es, flags);
    KeepCounts(es, flags);
    assert (before + Picked(es, flags))[|before|..] == Picked(es, flags);
    forall i, j | 0 <= i < j < |es| && es[i] in Keep(es, flags) && es[j] in Keep(es, flags)
      ensures Before(Keep(es, flags), es[i], es[j])
    {
      KeptBefore(es, flags, i, j);
    }
  }

  lemma {:induction false} KeepCounts<T>(s: seq<T>, flags: seq<bool>)
    requires |flags| == |s|
    ensures |Keep(s, flags)| + |Picked(s, flags)| == |s|
  {
    if s != [] {
      KeepCounts(s[..|s| - 1], flags[..|s| - 1]);
    }
  }

  // ----- Which clients are listed, and which are done

  /** The number of clients accepted. */
  function Accepted(rounds: seq<Option<seq<bool>>>): nat {
    if rounds == [] then 0
    else Accepted(rounds[..|rounds| - 1]) + if rounds[|rounds| - 1].Some? then 1 else 0
  }

  lemma {:induction false} AcceptedCounts(rounds: seq<Option<seq<bool>>>)
    ensures Accepted(rounds) == |set r | 0 <= r < |rounds| && rounds[r].Some?|
  {
    var accepted := set r | 0 <= r < |rounds| && rounds[r].Some?;
    if rounds != [] {
      var k := |rounds| - 1;
      AcceptedCounts(rounds[..k]);
      var before := set r | 0 <= r < k && rounds[..k][r].Some?;
      assert accepted == before + if rounds[k].Some? then {k} else {};
    }
  }

  /** The numbers of the listed clients once client number `n` has been listed first. */
  function ListFirst(n: nat, listed: seq<nat>): seq<nat> {
    [n] + listed
  }

  /**
    The clients listed and those joined and deleted after these rounds.  Clients are
    numbered as they are accepted; a round is the flags found set, if there was one.
   */
  function Listing(rounds: seq<Option<seq<bool>>>): (seq<nat>, seq<nat>) {
    if rounds == [] then ([], [])
    else
      var k := |rounds| - 1;
      var (listed, done) := Listing(rounds[..k]);
      match rounds[k]
      case None => (listed, done)
      case Some(seen) =>
        var es := ListFirst(Accepted(rounds[..k]), listed);
        (Keep(es, Flags(|es|, seen)), done + Picked(es, Flags(|es|, seen)))
  }

  lemma {:induction false} ListingDistinct(rounds: seq<Option<seq<bool>>>)
    ensures var (listed, done) := Listing(rounds);
            && |listed| + |done| == Accepted(rounds)
            && (forall i :: 0 <= i < |listed| ==> listed[i] < Accepted(rounds))
            && (forall i, j :: 0 <= i < j < |listed| ==> listed[i] != listed[j])
  {
    if rounds != [] {
      var k := |rounds| - 1;
      ListingDistinct(rounds[..k]);
      if rounds[k].Some? {
        var es := ListFirst(Accepted(rounds[..k]), Listing(rounds[..k]).0);
        KeepCounts(es, Flags(|es|, rounds[k].value));
        KeepDistinct(es, Flags(|es|, rounds[k].value));
      }
    }
  }

  lemma {:induction false} KeepDistinct<T>(s: seq<T>, flags: seq<bool>)
    requires |flags| == |s| && forall i, j :: 0 <= i < j < |s| ==> s[i] != s[j]
    ensures forall i :: 0 <= i < |Keep(s, flags)| ==> Keep(s, flags)[i] in s
    ensures forall i, j :: 0 <= i < j < |Keep(s, flags)| ==> Keep(s, flags)[i] != Keep(s, flags)[j]
  {
    if s != [] {
      var front := s[..|s| - 1];
      KeepDistinct(front, flags[..|s| - 1]);
      assert s[|s| - 1] !in front && forall x :: x in front ==> x in s;
    }
  }

  /** One round: nothing without a client; else the client is listed first, and then the list is checked. */
  lemma ListingStep(rounds: seq<Option<seq<bool>>>, round: Option<seq<bool>>)
    ensures Listing([]) == ([], [])
    ensures var (listed, done) := Listing(rounds);
            var (listed', done') := Listing(rounds + [round]);
            if round.None? then listed' == listed && done' == done
            else Checked(ListFirst(Accepted(rounds), listed), round.value, listed', done, done')
  {
    assert (rounds + [round])[..|rounds|] == rounds;
    if round.Some? {
      ListingDistinct(rounds);
      CheckedAll(ListFirst(Accepted(rounds), Listing(rounds).0), round.value, Listing(rounds).1);
    }
  }

  /** The entries `es` are those of the clients numbered `ids`. */
  ghost predicate Stand<T>(clients: seq<T>, ids: seq<nat>, es: seq<T>) {
    |ids| == |es| && forall i :: 0 <= i < |es| ==> ids[i] < |clients| && es[i] == clients[ids[i]]
  }

  lemma {:induction false} KeepStand<T>(clients: seq<T>, ids: seq<nat>, es: seq<T>, flags: seq<bool>)
    requires Stand(clients, ids, es) && |flags| == |es|
    ensures Stand(clients, Keep(ids, flags), Keep(es, flags))
    ensures Stand(clients, Picked(ids, flags), Picked(es, flags))
  {
    if es != [] {
      KeepStand(clients, ids[..|es| - 1], es[..|es| - 1], flags[..|es| - 1]);
    }
  }

  lemma ListingSnoc(rounds: seq<Option<seq<bool>>>, seen: seq<bool>)
    ensures var ids := ListFirst(Accepted(rounds), Listing(rounds).0);
            var flags := Flags(|ids|, seen);
            && Accepted(rounds + [Some(seen)]) == Accepted(rounds) + 1
            && Listing(rounds + [Some(seen)]) == (Keep(ids, flags), Listing(rounds).1 + Picked(ids, flags))
  {
    assert (rounds + [Some(seen)])[..|rounds|] == rounds;
  }

  lemma StandMore<T>(clients: seq<T>, e: T, ids: seq<nat>, es: seq<T>)
    requires Stand(clients, ids, es)
    ensures Stand(clients + [e], ids, es) && Stand(clients + [e], ListFirst(|clients|, ids), [e] + es)
  {
  }

  lemma StandBoth<T>(clients: seq<T>, a: seq<nat>, es: seq<T>, b: seq<nat>, fs: seq<T>)
    requires Stand(clients, a, es) && Stand(clients, b, fs)
    ensures Stand(clients, a + b, es + fs)
  {
  }

  /** One round, on the entries. */
  lemma RoundStands<T>(clients: seq<T>, e: T, listed: seq<nat>, es: seq<T>, done: seq<nat>, fs: seq<T>, seen: seq<bool>)
    requires Stand(clients, listed, es) && Stand(clients, done, fs)
    ensures var ids, flags := ListFirst(|clients|, listed), Flags(|es| + 1, seen);
            && Stand(clients + [e], Keep(ids, flags), Keep([e] + es, flags))
            && Stand(clients + [e], done + Picked(ids, flags), fs + Picked([e] + es, flags))
  {
    var ids, flags := ListFirst(|clients|, listed), Flags(|es| + 1, seen);
    StandMore(clients, e, listed, es);
    StandMore(clients, e, done, fs);
    KeepStand(clients + [e], ids, [e] + es, flags);
    StandBoth(clients + [e], done, fs, Picked(ids, flags), Picked([e] + es, flags));
  }

  lemma RoundDone<T>(rounds: seq<Option<seq<bool>>>, seen: seq<bool>, clients: seq<T>, e: T, es: seq<T>, fs: seq<T>)
    requires |clients| == Accepted(rounds)
    requires Stand(clients, Listing(rounds).0, es) && Stand(clients, Listing(rounds).1, fs)
    ensures var flags := Flags(|es| + 1, seen);
            && Accepted(rounds + [Some(seen)]) == |clients| + 1
            && Stand(clients + [e], Listing(rounds + [Some(seen)]).0, Keep([e] + es, flags))
            && Stand(clients + [e], Listing(rounds + [Some(seen)]).1, fs + Picked([e] + es, flags))
  {
    RoundStands(clients, e, Listing(rounds).0, es, Listing(rounds).1, fs, seen);
    ListingSnoc(rounds, seen);
  }

  ghost predicate Listed(e: WorkerEntry)
    reads e
  {
    e.joins == 0 && !e.freed
  }

  ghost predicate Reaped(e: WorkerEntry)
    reads e
  {
    e.joins == 1 && e.ended && e.freed
  }

  class AesdServer {
    const workers: WorkerSlist
    var running: bool
    ghost var started: set<WorkerEntry>
    ghost var reaped: seq<WorkerEntry>    // joined and deleted, in this order

    /**
      Every worker ever started is either listed, and then neither joined nor
      freed, or has been joined once, after its thread had ended, and freed.
     */
    ghost predicate Valid()
      reads this, workers, workers.entries, reaped
    {
      && workers.Valid()
      && (forall e :: e in started ==> e in workers.entries || e in reaped)
      && (forall e :: e in workers.entries ==> e in started)
      && (forall e :: e in reaped ==> e in started)
      && (forall i, j :: 0 <= i < j < |reaped| ==> reaped[i] != reaped[j])
      && (forall e :: e in workers.entries ==> Listed(e))
      && (forall e :: e in reaped ==> Reaped(e))
    }

    constructor ()
      ensures Valid() && started == {} && reaped == [] && workers.entries == [] && !running && fresh(workers)
    {
      workers := new WorkerSlist();
      running := false;
      started, reaped := {}, [];
    }

    /** The successful end of `accept_client`: the thread runs, then the entry is listed. */
    method AcceptClient() returns (entry: WorkerEntry)
      requires Valid()
      modifies this`started, workers
      ensures Valid() && fresh(entry) && entry !in old(started)
      ensures workers.entries == [entry] + old(workers.entries)
      ensures started == old(started) + {entry} && reaped == old(reaped)
    {
      entry := new WorkerEntry();
      assert entry !in started;
      workers.InsertHead(entry);
      started := started + {entry};
    }

    /** Joins a worker that is no longer listed, and deletes it. */
    method Finish(entry: WorkerEntry)
      requires workers.Valid() && entry !in workers.entries && Listed(entry)
      modifies entry`ended, entry`joins, entry`freed
      ensures workers.Valid() && Reaped(entry)
    {
      entry.Join();
      entry.Delete();
    }

    /** Takes one entry off the list, joins it and deletes it. */
    method Reap(entry: WorkerEntry, ghost k: nat)
      requires Valid() && k < |workers.entries| && workers.entries[k] == entry
      modifies this`reaped, workers, (set e | e in workers.entries)`next, entry`ended, entry`joins, entry`freed
      ensures Valid()
      ensures workers.entries == old(workers.entries)[..k] + old(workers.entries)[k + 1..]
      ensures reaped == old(reaped) + [entry]
    {
      ghost var before := workers.entries;
      assert entry in before && Listed(entry);
      RemoveOne(before, k);
      workers.Remove(entry, k);
      ghost var after := workers.entries;
      assert forall e :: e in after ==> e != entry && Listed(e);
      assert entry !in reaped && !entry.freed;
      Finish(entry);
      assert forall e :: e in after ==> Listed(e);
      assert forall e :: e in reaped ==> Reaped(e);
      reaped := reaped + [entry];
      assert forall e :: e in old(workers.entries) <==> e in after || e == entry;
    }

    /** One turn of the traversal in `check_workers`. */
    method CheckWorker(entry: WorkerEntry, exited: bool, ghost kept: seq<WorkerEntry>, ghost rest: seq<WorkerEntry>)
      returns (next: WorkerEntry?)
      requires Valid() && workers.entries == kept + [entry] + rest
      modifies this`reaped, workers, (set e | e in workers.entries)`next, entry`ended, entry`joins, entry`freed
      ensures Valid() && next == if rest == [] then null else rest[0]
      ensures workers.entries == (if exited then kept else kept + [entry]) + rest
      ensures reaped == old(reaped) + (if exited then [entry] else [])
    {
      ghost var k := |kept|;
      assert workers.entries[k] == entry && workers.entries[k].next == workers.NextIn(k);
      next := entry.Next();
      if exited {
        Reap(entry, k);
        assert (kept + [entry] + rest)[..k] == kept && (kept + [entry] + rest)[k + 1..] == rest;
      }
    }

    /** The list after `i` of the entries `es` have been visited. */
    ghost predicate Visited(es: seq<WorkerEntry>, flags: seq<bool>, before: seq<WorkerEntry>, i: nat)
      requires i <= |es| == |flags|
      reads this, workers
    {
      && workers.entries == Keep(es[..i], flags[..i]) + es[i..]
      && reaped == before + Picked(es[..i], flags[..i])
    }

    method CheckNext(entry: WorkerEntry, exited: bool,
                     ghost es: seq<WorkerEntry>, ghost flags: seq<bool>, ghost before: seq<WorkerEntry>, ghost i: nat)
      returns (next: WorkerEntry?)
      requires Valid() && i < |es| == |flags| && Visited(es, flags, before, i)
      requires entry == es[i] && exited == flags[i]
      modifies this`reaped, workers, (set e | e in workers.entries)`next, entry`ended, entry`joins, entry`freed
      ensures Valid() && Visited(es, flags, before, i + 1)
      ensures next == if i + 1 < |es| then es[i + 1] else null
      ensures forall e :: e in workers.entries ==> e in old(workers.entries)
    {
      ghost var kept := Keep(es[..i], flags[..i]);
      TakeFirst(kept, es, i);
      KeepStep(es, flags, i);
      Associates(before, Picked(es[..i], flags[..i]), [entry]);
      next := CheckWorker(entry, exited, kept, es[i + 1..]);
    }

    /** The loop of `check_workers`. */
    method CheckAll(seen: seq<bool>)
      requires Valid()
      modifies this`reaped, workers, set e | e in workers.entries
      ensures Valid()
      ensures var flags := Flags(|old(workers.entries)|, seen);
              && workers.entries == Keep(old(workers.entries), flags)
              && reaped == old(reaped) + Picked(old(workers.entries), flags)
    {
      ghost var es, flags, before := workers.entries, Flags(|workers.entries|, seen), reaped;
      var i := 0;
      var entry := workers.first;
      while entry != null
        invariant i <= |es| && Valid() && Visited(es, flags, before, i)
        invariant entry == if i < |es| then es[i] else null
        invariant forall e :: e in workers.entries ==> e in es
        decreases |es| - i
      {
        entry := CheckNext(entry, Found(seen, i), es, flags, before, i);
        i := i + 1;
      }
      assert Visited(es, flags, before, |es|);
      assert workers.entries == Keep(es, flags) && reaped == before + Picked(es, flags) by { AllVisited(es, flags); }
    }

    /**
      `check_workers`: whichever flags the traversal finds set, exactly those
      entries are joined and deleted, once each, and no others; the rest stays
      listed in the same order.
     */
    method CheckWorkers(seen: seq<bool>)
      requires Valid()
      modifies this`reaped, workers, set e | e in workers.entries
      ensures Valid()
      ensures Checked(old(workers.entries), seen, workers.entries, old(reaped), reaped)
      ensures var flags := Flags(|old(workers.entries)|, seen);
              && workers.entries == Keep(old(workers.entries), flags)
              && reaped == old(reaped) + Picked(old(workers.entries), flags)
    {
      ghost var es, before, flags := workers.entries, reaped, Flags(|workers.entries|, seen);
      CheckAll(seen);
      CheckedAll(es, seen, before);
    }

    /** One turn of the loop in `srv_shutdown`: a worker is told to stop before it is joined. */
    method StopWorker(entry: WorkerEntry, ghost rest: seq<WorkerEntry>) returns (next: WorkerEntry?)
      requires Valid() && workers.entries == [entry] + rest
      modifies this`reaped, workers, (set e | e in workers.entries)`next,
               entry`shutdown, entry`ended, entry`joins, entry`freed
      ensures Valid() && workers.entries == rest && reaped == old(reaped) + [entry]
      ensures next == (if rest == [] then null else rest[0]) && entry.shutdown
    {
      entry.Stop();
      assert [entry] + rest == [] + [entry] + rest;
      next := CheckWorker(entry, true, [], rest);
    }

    /** `srv_shutdown`: empties the list, joining and deleting every worker on it. */
    method Shutdown()
      requires Valid()
      modifies this`reaped, workers, set e | e in workers.entries
      ensures Valid() && workers.entries == []
      ensures reaped == old(reaped) + old(workers.entries)
      ensures forall e :: e in old(workers.entries) ==> e.shutdown
    {
      ghost var es, before := workers.entries, reaped;
      var entry := workers.first;
      ghost var i := 0;
      while entry != null
        invariant i <= |es| && Valid()
        invariant entry == if i < |es| then es[i] else null
        invariant workers.entries == es[i..] && reaped == before + es[..i]
        invariant forall e :: e in es[..i] ==> e.shutdown
        invariant forall e :: e in workers.entries ==> e in es
        decreases |es| - i
      {
        StopStep(es, before, i);
        entry := StopWorker(entry, es[i + 1..]);
        i := i + 1;
      }
      assert es[..|es|] == es;
    }

    /** One turn of the run loop in which a client was accepted. */
    method AcceptAndCheck(seen: seq<bool>) returns (entry: WorkerEntry)
      requires Valid()
      modifies this`started, this`reaped, workers, set e | e in workers.entries
      ensures Valid() && fresh(entry) && entry !in old(started) && started == old(started) + {entry}
      ensures var es := [entry] + old(workers.entries);
              && workers.entries == Keep(es, Flags(|es|, seen))
              && reaped == old(reaped) + Picked(es, Flags(|es|, seen))
    {
      entry := AcceptClient();
      CheckWorkers(seen);
    }

    /** What holds after these rounds. */
    ghost predicate After(rounds: seq<Option<seq<bool>>>, clients: seq<WorkerEntry>)
      reads this, workers
    {
      && |started| == |clients| == Accepted(rounds)
      && Stand(clients, Listing(rounds).0, workers.entries)
      && Stand(clients, Listing(rounds).1, reaped)
    }

    method OneRound(seen: seq<bool>, ghost rounds: seq<Option<seq<bool>>>, ghost clients: seq<WorkerEntry>)
      returns (ghost clients': seq<WorkerEntry>)
      requires Valid() && After(rounds, clients)
      modifies this`started, this`reaped, workers, set e | e in workers.entries
      ensures Valid() && After(rounds + [Some(seen)], clients')
      ensures fresh(started - old(started))
    {
      ghost var es, done := workers.entries, reaped;
      var entry := AcceptAndCheck(seen);
      assert |[entry] + es| == |es| + 1;
      RoundDone(rounds, seen, clients, entry, es, done);
      clients' := clients + [entry];
    }

    /**
      `aesd_server_run`: for each round `None` is a client that was not accepted,
      and `Some` one that was, with the flags that `check_workers` then finds set.
      When `running` becomes false the server shuts down.
     */
    method Run(rounds: seq<Option<seq<bool>>>) returns (ghost clients: seq<WorkerEntry>)
      requires Valid() && started == {} && reaped == [] && workers.entries == []
      modifies this, workers, workers.entries
      ensures Valid() && !running && workers.entries == []
      ensures (forall e :: e in started ==> e in reaped) && (forall e :: e in reaped ==> e in started)
      ensures |started| == |reaped| == |clients| == |set r | 0 <= r < |rounds| && rounds[r].Some?|
      ensures Stand(clients, Listing(rounds).1 + Listing(rounds).0, reaped)
    {
      running, clients := true, [];
      var r := 0;
      while running
        invariant r <= |rounds| && Valid() && After(rounds[..r], clients)
        invariant fresh(started)
        invariant !running ==> r == |rounds|
        decreases |rounds| - r, running
      {
        if r == |rounds| {
          running := false;
        } else {
          assert rounds[..r + 1] == rounds[..r] + [rounds[r]];
          if rounds[r].Some? {
            assert fresh(set e | e in workers.entries);
            clients := OneRound(rounds[r].value, rounds[..r], clients);
          } else {
            RoundWithout(rounds[..r]);
          }
          r := r + 1;
        }
      }
      assert rounds[..r] == rounds && fresh(set e | e in workers.entries);
      EndRun(rounds, clients);
    }

    /** `srv_shutdown` at the end of the run loop. */
    method EndRun(ghost rounds: seq<Option<seq<bool>>>, ghost clients: seq<WorkerEntry>)
      requires Valid() && After(rounds, clients)
      modifies this`reaped, workers, set e | e in workers.entries
      ensures Valid() && workers.entries == []
      ensures (forall e :: e in started ==> e in reaped) && (forall e :: e in reaped ==> e in started)
      ensures |started| == |reaped| == |clients| == |set r | 0 <= r < |rounds| && rounds[r].Some?|
      ensures Stand(clients, Listing(rounds).1 + Listing(rounds).0, reaped)
    {
      ghost var es, done := workers.entries, reaped;
      Shutdown();
      StandBoth(clients, Listing(rounds).1, done, Listing(rounds).0, es);
      CountDistinct(reaped, started);
      AcceptedCounts(rounds);
    }
  }

  lemma RoundWithout(rounds: seq<Option<seq<bool>>>)
    ensures Accepted(rounds + [None]) == Accepted(rounds) && Listing(rounds + [None]) == Listing(rounds)
  {
    assert (rounds + [None])[..|rounds|] == rounds;
  }

  lemma StopStep<T>(s: seq<T>, before: seq<T>, i: nat)
    requires i < |s|
    ensures s[i..] == [s[i]] + s[i + 1..]
    ensures before + s[..i] + [s[i]] == before + s[..i + 1]
  {
    assert s[..i + 1] == s[..i] + [s[i]];
  }

  lemma {:induction false} CountDistinct<T>(s: seq<T>, u: set<T>)
    requires forall i, j :: 0 <= i < j < |s| ==> s[i] != s[j]
    requires (forall e :: e in s ==> e in u) && (forall e :: e in u ==> e in s)
    ensures |s| == |u|
  {
    if s != [] {
      var front, last := s[..|s| - 1], s[|s| - 1];
      assert s == front + [last];
      CountDistinct(front, u - {last});
    }
  }

  lemma RemoveOne<T>(s: seq<T>, k: nat)
    requires k < |s| && forall i, j :: 0 <= i < j < |s| ==> s[i] != s[j]
    ensures s[k] !in s[..k] + s[k + 1..]
    ensures forall e :: e in s <==> e in s[..k] + s[k + 1..] || e == s[k]
  {
    assert s == s[..k] + [s[k]] + s[k + 1..];
  }
}
