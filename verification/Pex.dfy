/** The peer-exchange store of pkg/pex/protocol.go.

    `handleRequest`, `handleResponse` and the reply part of `sendMessage` run the
    same loop: they skip the node itself and merge one entry at a time under the
    mutex, so entries of concurrent handlers may interleave anywhere.
 */
module Pex {
  import opened Keys

  datatype PeerEntry = PeerEntry(publicKey: Key, endpoints: seq<string>, latencyMs: int)

  /** A launched `connect(publicKey, endpoint)`. */
  datatype Launch = Launch(publicKey: Key, endpoint: string)

  datatype Store = Store(entries: map<Key, PeerEntry>, launches: seq<Launch>)

  const EMPTY: Store := Store(map[], [])

  /** The critical section for one entry. */
  function Merge(self: Key, s: Store, e: PeerEntry): Store {
    if e.publicKey == self || e.publicKey in s.entries || |e.endpoints| == 0 then s
    else Store(s.entries[e.publicKey := e], s.launches + [Launch(e.publicKey, e.endpoints[0])])
  }

  /** The store after the entries of `arrived`, in the order they got the mutex. */
  function MergeAll(self: Key, arrived: seq<PeerEntry>): Store {
    if arrived == [] then EMPTY
    else Merge(self, MergeAll(self, arrived[..|arrived| - 1]), arrived[|arrived| - 1])
  }

  lemma MergeAllSnoc(self: Key, arrived: seq<PeerEntry>, e: PeerEntry)
    ensures MergeAll(self, arrived + [e]) == Merge(self, MergeAll(self, arrived), e)
  {
    assert (arrived + [e])[..|arrived|] == arrived;
  }

  class Protocol {
    const publicKey: Key
    var entries: map<Key, PeerEntry>
    ghost var launches: seq<Launch>
    ghost var arrived: seq<PeerEntry>

    ghost predicate Valid()
      reads this
    {
      Store(entries, launches) == MergeAll(publicKey, arrived)
    }

    constructor (publicKey: Key)
      ensures Valid() && this.publicKey == publicKey && arrived == []
    {
      this.publicKey := publicKey;
      entries := map[];
      launches, arrived := [], [];
    }

    /** One turn of a handler's loop. */
    method MergeEntry(entry: PeerEntry)
      requires Valid()
      modifies this
      ensures Valid()
      ensures arrived == old(arrived) + [entry]
    {
      MergeAllSnoc(publicKey, arrived, entry);
      arrived := arrived + [entry];
      if entry.publicKey == publicKey {
        return;
      }
      if entry.publicKey !in entries && |entry.endpoints| > 0 {
        entries := entries[entry.publicKey := entry];
        launches := launches + [Launch(entry.publicKey, entry.endpoints[0])];
      }
    }

    method MergeEach(es: seq<PeerEntry>)
      requires Valid()
      modifies this
      ensures Valid()
      ensures arrived == old(arrived) + es
    {
      for i := 0 to |es|
        invariant Valid() && arrived == old(arrived) + es[..i]
      {
        assert es[..i + 1] == es[..i] + [es[i]];
        MergeEntry(es[i]);
      }
    }

    /** A handler's loop; others[i] are the entries that other handlers merge
        before this one gets the mutex for its entry i. */
    method HandleEntries(msg: seq<PeerEntry>, others: seq<seq<PeerEntry>>)
      requires Valid() && |others| == |msg|
      modifies this
      ensures Valid()
      ensures arrived == old(arrived) + Woven(msg, others)
    {
      assert msg[..|msg|] == msg && others[..|msg|] == others;
      for i := 0 to |msg|
        invariant Valid() && arrived == old(arrived) + Woven(msg[..i], others[..i])
      {
        WovenTake(msg, others, i);
        MergeEach(others[i]);
        MergeEntry(msg[i]);
      }
    }
  }

  function Woven(msg: seq<PeerEntry>, others: seq<seq<PeerEntry>>): seq<PeerEntry>
    requires |others| == |msg|
  {
    if msg == [] then []
    else Woven(msg[..|msg| - 1], others[..|msg| - 1]) + (others[|msg| - 1] + [msg[|msg| - 1]])
  }

  lemma WovenTake(msg: seq<PeerEntry>, others: seq<seq<PeerEntry>>, i: nat)
    requires |others| == |msg| && i < |msg|
    ensures Woven(msg[..i + 1], others[..i + 1]) == Woven(msg[..i], others[..i]) + (others[i] + [msg[i]])
  {
    assert msg[..i + 1][..i] == msg[..i] && others[..i + 1][..i] == others[..i];
  }

  // ------------------------------------------- the store as first arrivals

  predicate Useful(self: Key, e: PeerEntry) {
    e.publicKey != self && |e.endpoints| > 0
  }

  /** Entry i is the first useful one for its key. */
  ghost predicate IsFirst(self: Key, arrived: seq<PeerEntry>, i: int) {
    && 0 <= i < |arrived| && Useful(self, arrived[i])
    && forall j :: 0 <= j < i && arrived[j].publicKey == arrived[i].publicKey ==> !Useful(self, arrived[j])
  }

  /** The launches are exactly one per stored key, with its first endpoint. */
  ghost predicate OneLaunchEach(s: Store) {
    && (forall i :: 0 <= i < |s.launches| ==>
          var l := s.launches[i];
          l.publicKey in s.entries && |s.entries[l.publicKey].endpoints| > 0
          && l.endpoint == s.entries[l.publicKey].endpoints[0])
    && (forall i, j :: 0 <= i < j < |s.launches| ==> s.launches[i].publicKey != s.launches[j].publicKey)
    && (forall pk :: pk in s.entries ==> exists i :: 0 <= i < |s.launches| && s.launches[i].publicKey == pk)
  }

  lemma {:induction false} LaunchedOnce(self: Key, arrived: seq<PeerEntry>)
    ensures OneLaunchEach(MergeAll(self, arrived))
    ensures self !in MergeAll(self, arrived).entries
  {
    if arrived != [] {
      LaunchedOnce(self, arrived[..|arrived| - 1]);
      MergeLaunches(self, MergeAll(self, arrived[..|arrived| - 1]), arrived[|arrived| - 1]);
    }
  }

  lemma MergeLaunches(self: Key, s: Store, e: PeerEntry)
    requires OneLaunchEach(s)
    ensures OneLaunchEach(Merge(self, s, e))
  {
    if Merge(self, s, e) != s {
      NewLaunch(s, e);
    }
  }

  lemma NewLaunch(s: Store, e: PeerEntry)
    requires OneLaunchEach(s) && e.publicKey !in s.entries && |e.endpoints| > 0
    ensures OneLaunchEach(Store(s.entries[e.publicKey := e], s.launches + [Launch(e.publicKey, e.endpoints[0])]))
  {
    var s' := Store(s.entries[e.publicKey := e], s.launches + [Launch(e.publicKey, e.endpoints[0])]);
    forall pk | pk in s'.entries ensures exists i :: 0 <= i < |s'.launches| && s'.launches[i].publicKey == pk {
      StillLaunched(s.launches, Launch(e.publicKey, e.endpoints[0]), pk);
    }
  }

  lemma StillLaunched(launches: seq<Launch>, l: Launch, pk: Key)
    requires pk == l.publicKey || exists i :: 0 <= i < |launches| && launches[i].publicKey == pk
    ensures exists i :: 0 <= i < |launches + [l]| && (launches + [l])[i].publicKey == pk
  {
    if pk == l.publicKey {
      assert (launches + [l])[|launches|].publicKey == pk;
    } else {
      var i :| 0 <= i < |launches| && launches[i].publicKey == pk;
      assert (launches + [l])[i].publicKey == pk;
    }
  }

  /** A stored entry is never overwritten, whatever arrives later. */
  lemma {:induction false} NeverOverwritten(self: Key, arrived: seq<PeerEntry>, i: nat, pk: Key)
    requires i <= |arrived| && pk in MergeAll(self, arrived[..i]).entries
    ensures pk in MergeAll(self, arrived).entries
    ensures MergeAll(self, arrived).entries[pk] == MergeAll(self, arrived[..i]).entries[pk]
    decreases |arrived|
  {
    if i == |arrived| {
      assert arrived[..i] == arrived;
    } else {
      assert arrived[..|arrived| - 1][..i] == arrived[..i];
      NeverOverwritten(self, arrived[..|arrived| - 1], i, pk);
    }
  }

  lemma {:induction false} UsefulIsStored(self: Key, arrived: seq<PeerEntry>, j: nat)
    requires j < |arrived|
    ensures Useful(self, arrived[j]) ==> arrived[j].publicKey in MergeAll(self, arrived).entries
  {
    if j < |arrived| - 1 {
      UsefulIsStored(self, arrived[..|arrived| - 1], j);
    }
  }

  /** Where a stored entry came from. */
  lemma {:induction false} StoredFrom(self: Key, arrived: seq<PeerEntry>, pk: Key) returns (i: int)
    requires pk in MergeAll(self, arrived).entries
    ensures IsFirst(self, arrived, i) && arrived[i].publicKey == pk
    ensures MergeAll(self, arrived).entries[pk] == arrived[i]
  {
    var front, e := arrived[..|arrived| - 1], arrived[|arrived| - 1];
    if pk in MergeAll(self, front).entries {
      i := StoredFrom(self, front, pk);
    } else {
      i := |front|;
      forall j | 0 <= j < |front| && front[j].publicKey == pk ensures !Useful(self, front[j]) {
        UsefulIsStored(self, front, j);
      }
    }
  }

  /** The entry stored for a key is the first useful one that arrived for it;
      a key is stored exactly when a useful entry arrived for it. */
  lemma StoresFirstUseful(self: Key, arrived: seq<PeerEntry>, pk: Key)
    ensures pk in MergeAll(self, arrived).entries <==>
              exists j :: 0 <= j < |arrived| && Useful(self, arrived[j]) && arrived[j].publicKey == pk
    ensures forall i :: IsFirst(self, arrived, i) && arrived[i].publicKey == pk ==>
              pk in MergeAll(self, arrived).entries && MergeAll(self, arrived).entries[pk] == arrived[i]
  {
    if j :| 0 <= j < |arrived| && Useful(self, arrived[j]) && arrived[j].publicKey == pk {
      UsefulIsStored(self, arrived, j);
    }
    if pk in MergeAll(self, arrived).entries {
      var i := StoredFrom(self, arrived, pk);
    }
  }

  // -------------------------------------------------------- interleavings

  /** `arrived` is some interleaving of the complete entry lists of the handlers. */
  ghost predicate IsInterleaving(handlers: seq<seq<PeerEntry>>, arrived: seq<PeerEntry>)
    decreases |arrived|
  {
    if arrived == [] then forall i :: 0 <= i < |handlers| ==> handlers[i] == []
    else exists i :: 0 <= i < |handlers| && TakesNext(handlers, i, arrived[0])
                     && IsInterleaving(handlers[i := handlers[i][1..]], arrived[1..])
  }

  predicate TakesNext(handlers: seq<seq<PeerEntry>>, i: nat, e: PeerEntry)
    requires i < |handlers|
  {
    handlers[i] != [] && handlers[i][0] == e
  }

  ghost predicate Received(handlers: seq<seq<PeerEntry>>, e: PeerEntry) {
    exists i :: 0 <= i < |handlers| && e in handlers[i]
  }

  lemma {:induction false} InterleavingMembers(handlers: seq<seq<PeerEntry>>, arrived: seq<PeerEntry>, e: PeerEntry)
    requires IsInterleaving(handlers, arrived)
    ensures e in arrived <==> Received(handlers, e)
    decreases |arrived|
  {
    if arrived != [] {
      var i :| 0 <= i < |handlers| && TakesNext(handlers, i, arrived[0])
               && IsInterleaving(handlers[i := handlers[i][1..]], arrived[1..]);
      var rest := handlers[i := handlers[i][1..]];
      InterleavingMembers(rest, arrived[1..], e);
      ReceivedRest(handlers, i, e);
      assert arrived == [arrived[0]] + arrived[1..];
    }
  }

  lemma ReceivedRest(handlers: seq<seq<PeerEntry>>, i: nat, e: PeerEntry)
    requires i < |handlers| && handlers[i] != []
    ensures Received(handlers, e) <==> e == handlers[i][0] || Received(handlers[i := handlers[i][1..]], e)
  {
    var rest := handlers[i := handlers[i][1..]];
    assert handlers[i] == [handlers[i][0]] + handlers[i][1..];
    if e in handlers[i] && e != handlers[i][0] {
      assert e in rest[i];
    }
    if j :| 0 <= j < |handlers| && j != i && e in handlers[j] {
      assert e in rest[j];
    }
    if j :| 0 <= j < |rest| && e in rest[j] {
      assert e in handlers[j];
    }
  }

  /** Whatever the interleaving, the stored keys are exactly the keys other than
      the node's own that some handler received with a non-empty endpoint list;
      each was launched exactly once. */
  lemma KeysWhateverTheOrder(self: Key, handlers: seq<seq<PeerEntry>>, arrived: seq<PeerEntry>, pk: Key)
    requires IsInterleaving(handlers, arrived)
    ensures pk in MergeAll(self, arrived).entries <==>
              exists e :: Received(handlers, e) && Useful(self, e) && e.publicKey == pk
    ensures OneLaunchEach(MergeAll(self, arrived))
  {
    LaunchedOnce(self, arrived);
    StoresFirstUseful(self, arrived, pk);
    if pk in MergeAll(self, arrived).entries {
      var i := StoredFrom(self, arrived, pk);
      InterleavingMembers(handlers, arrived, arrived[i]);
    }
    if e :| Received(handlers, e) && Useful(self, e) && e.publicKey == pk {
      InterleavingMembers(handlers, arrived, e);
      var j :| 0 <= j < |arrived| && arrived[j] == e;
      UsefulIsStored(self, arrived, j);
    }
  }
}
