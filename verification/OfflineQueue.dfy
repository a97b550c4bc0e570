/** The offline mutation queue of mobile/src/api/client.js. */
module OfflineQueue {
  import opened Common

  datatype Mutation = Mutation(path: string, verb: string, body: string)

  datatype Entry = Entry(id: nat, mutation: Mutation, synced: bool)

  /** How one HTTP exchange ends. */
  datatype Outcome = NetworkError | Refused(status: nat) | Accepted

  /** The entries whose exchange failed for want of a network, in order. */
  function Kept(entries: seq<Entry>, outcomes: seq<Outcome>): seq<Entry>
    requires |entries| == |outcomes|
  {
    if entries == [] then []
    else
      var n := |entries| - 1;
      Kept(entries[..n], outcomes[..n]) + (if outcomes[n].NetworkError? then [entries[n]] else [])
  }

  function Unsynced(entries: seq<Entry>): seq<Entry> {
    if entries == [] then []
    else Unsynced(entries[..|entries| - 1]) + (if entries[|entries| - 1].synced then [] else [entries[|entries| - 1]])
  }

  /** How many mutations are enqueued while the first `n` entries are retried: those of the application,
      and the failed retries themselves unless they are GETs. */
  function Enqueued(entries: seq<Entry>, outcomes: seq<Outcome>, meanwhile: seq<seq<Mutation>>, n: nat): nat
    requires n <= |entries| == |outcomes| == |meanwhile|
  {
    if n == 0 then 0
    else
      Enqueued(entries, outcomes, meanwhile, n - 1) + |meanwhile[n - 1]| +
      (if outcomes[n - 1].NetworkError? && entries[n - 1].mutation.verb != "GET" then 1 else 0)
  }

  ghost predicate Pending(entries: seq<Entry>) {
    forall i | 0 <= i < |entries| :: !entries[i].synced
  }

  function Entries(stored: Option<seq<Entry>>): seq<Entry> {
    match stored
    case None => []
    case Some(entries) => entries
  }

  class Client {
    var stored: Option<seq<Entry>>
    var mutCount: nat

    ghost predicate Valid()
      reads this
    {
      Pending(Entries(stored))
    }

    constructor ()
      ensures Valid() && stored == None && mutCount == 0
    {
      stored, mutCount := None, 0;
    }

    method EnqueueMutation(m: Mutation)
      requires Valid()
      modifies this
      ensures Valid() && mutCount == old(mutCount) + 1
      ensures stored == Some(Entries(old(stored)) + [Entry(mutCount, m, false)])
    {
      var entries := Entries(stored);
      mutCount := mutCount + 1;
      entries := entries + [Entry(mutCount, m, false)];
      stored := Some(entries);
    }

    /** A request that finds no network queues itself unless it is a GET. */
    method Request(m: Mutation, outcome: Outcome) returns (r: Outcome)
      requires Valid()
      modifies this
      ensures Valid() && r == outcome
      ensures outcome.NetworkError? && m.verb != "GET" ==>
                stored == Some(Entries(old(stored)) + [Entry(mutCount, m, false)]) && mutCount == old(mutCount) + 1
      ensures !outcome.NetworkError? || m.verb == "GET" ==> stored == old(stored) && mutCount == old(mutCount)
    {
      if outcome.NetworkError? {
        if m.verb != "GET" {
          EnqueueMutation(m);
        }
      }
      r := outcome;
    }

    /** Retry every queued entry. `meanwhile[i]` are mutations the application enqueues while entry
        `i` is in flight. The queue ends up with exactly the entries that found no network, in their
        old order: neither the copies failed retries enqueue nor anything enqueued meanwhile stays. */
    method SyncMutations(outcomes: seq<Outcome>, meanwhile: seq<seq<Mutation>>) returns (synced: nat)
      requires Valid() && |outcomes| == |meanwhile| == |Entries(stored)|
      modifies this
      ensures Valid()
      ensures old(stored).None? ==> stored == None && synced == 0
      ensures old(stored).Some? ==> stored == Some(Kept(old(stored).value, outcomes))
      ensures synced + |Entries(stored)| == |Entries(old(stored))|
      ensures mutCount == old(mutCount) + Enqueued(Entries(old(stored)), outcomes, meanwhile, |outcomes|)
    {
      if stored.None? {
        return 0;
      }
      var entries := stored.value;
      ghost var start := entries;
      synced := 0;
      for i := 0 to |entries|
        invariant Valid() && |entries| == |start|
        invariant forall j | i <= j < |entries| :: entries[j] == start[j]
        invariant Unsynced(entries[..i]) == Kept(start[..i], outcomes[..i])
        invariant synced + |Kept(start[..i], outcomes[..i])| == i
        invariant mutCount == old(mutCount) + Enqueued(start, outcomes, meanwhile, i)
      {
        ghost var before := entries;
        for k := 0 to |meanwhile[i]|
          invariant Valid() && mutCount == old(mutCount) + Enqueued(start, outcomes, meanwhile, i) + k
        {
          EnqueueMutation(meanwhile[i][k]);
        }
        var r := Request(entries[i].mutation, outcomes[i]);
        if !r.NetworkError? {
          entries := entries[i := entries[i].(synced := true)];
          synced := synced + 1;
        }
        SyncNext(start, before, entries, outcomes, i);
      }
      assert entries[..|entries|] == entries && start[..|start|] == start && outcomes[..|outcomes|] == outcomes;
      KeptArePending(start, outcomes);
      stored := Some(Unsynced(entries));
    }
  }

  /** Marking one more entry, or leaving it unmarked after a network failure. */
  lemma SyncNext(start: seq<Entry>, before: seq<Entry>, after: seq<Entry>, outcomes: seq<Outcome>, i: nat)
    requires |start| == |before| == |after| == |outcomes| && i < |start| && Pending(start) && before[i] == start[i]
    requires after == if outcomes[i].NetworkError? then before else before[i := before[i].(synced := true)]
    requires Unsynced(before[..i]) == Kept(start[..i], outcomes[..i])
    ensures Unsynced(after[..i + 1]) == Kept(start[..i + 1], outcomes[..i + 1])
    ensures |Kept(start[..i + 1], outcomes[..i + 1])| == |Kept(start[..i], outcomes[..i])| + if outcomes[i].NetworkError? then 1 else 0
  {
    assert after[..i + 1][..i] == before[..i];
    assert start[..i + 1][..i] == start[..i] && outcomes[..i + 1][..i] == outcomes[..i];
  }

  lemma {:induction false} KeptArePending(entries: seq<Entry>, outcomes: seq<Outcome>)
    requires |entries| == |outcomes| && Pending(entries)
    ensures Pending(Kept(entries, outcomes))
    ensures forall e | e in Kept(entries, outcomes) :: e in entries
  {
    if entries != [] {
      var n := |entries| - 1;
      KeptArePending(entries[..n], outcomes[..n]);
      assert entries == entries[..n] + [entries[n]];
    }
  }

  /** A sync without any network leaves the queue as it was. */
  lemma {:induction false} OfflineSyncIsIdentity(entries: seq<Entry>, outcomes: seq<Outcome>)
    requires |entries| == |outcomes| && forall i | 0 <= i < |outcomes| :: outcomes[i].NetworkError?
    ensures Kept(entries, outcomes) == entries
  {
    if entries != [] {
      var n := |entries| - 1;
      OfflineSyncIsIdentity(entries[..n], outcomes[..n]);
      assert entries == entries[..n] + [entries[n]];
    }
  }

  /** The positions whose exchange found no network. */
  function KeptAt(outcomes: seq<Outcome>): seq<nat> {
    if outcomes == [] then []
    else KeptAt(outcomes[..|outcomes| - 1]) + (if outcomes[|outcomes| - 1].NetworkError? then [|outcomes| - 1] else [])
  }

  /** The entry at a position stays exactly when its own exchange found no network. */
  lemma {:induction false} StaysIffOffline(outcomes: seq<Outcome>)
    ensures forall i: nat :: i in KeptAt(outcomes) <==> i < |outcomes| && outcomes[i].NetworkError?
  {
    if outcomes != [] {
      StaysIffOffline(outcomes[..|outcomes| - 1]);
    }
  }

  /** A sync drops entries and never reorders them: what remains are the entries at the positions kept,
      in ascending order of position, whatever numbers the entries carry. */
  lemma {:induction false} SyncKeepsOrder(entries: seq<Entry>, outcomes: seq<Outcome>)
    requires |entries| == |outcomes|
    ensures |Kept(entries, outcomes)| == |KeptAt(outcomes)|
    ensures forall j | 0 <= j < |KeptAt(outcomes)| ::
              KeptAt(outcomes)[j] < |entries| && Kept(entries, outcomes)[j] == entries[KeptAt(outcomes)[j]]
    ensures forall i, j | 0 <= i < j < |KeptAt(outcomes)| :: KeptAt(outcomes)[i] < KeptAt(outcomes)[j]
  {
    if entries != [] {
      SyncKeepsOrder(entries[..|entries| - 1], outcomes[..|entries| - 1]);
    }
  }
}
