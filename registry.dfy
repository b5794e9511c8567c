/** The `active_connections` dictionary. A Python dict iterates in insertion
    order; assigning to a key that is already present keeps its position,
    and `del` removes the key and keeps the order of the rest. The registry
    is therefore a key sequence `order` beside the map `active`. This
    module holds the order operations and the two iterations over
    `active_connections.values()`: the broadcast loop and the roster. */
module Registry {
  import opened Wire

  predicate NoDup(s: seq<Jid>)
  {
    forall i, j :: 0 <= i < j < |s| ==> s[i] != s[j]
  }

  /** A duplicate-free key order has as many keys as positions. */
  lemma {:induction false} NoDupCardinality(s: seq<Jid>)
    requires NoDup(s)
    ensures |set k | k in s| == |s|
  {
    if s != [] {
      assert NoDup(s[1..]);
      NoDupCardinality(s[1..]);
      assert s[0] !in s[1..];
      assert (set k | k in s) == {s[0]} + (set k | k in s[1..]);
    }
  }

  /** Key order after `active_connections[jid] = ...`. */
  function Upsert(order: seq<Jid>, jid: Jid): (r: seq<Jid>)
    ensures forall k :: k in r <==> k in order || k == jid
    ensures NoDup(order) ==> NoDup(r)
    ensures jid in order ==> r == order
    ensures jid !in order ==> r == order + [jid]
  {
    if jid in order then order else order + [jid]
  }

  /** Key order after `del active_connections[jid]`: every other key stays,
      in the same relative order. */
  function Remove(order: seq<Jid>, jid: Jid): (r: seq<Jid>)
    ensures forall k :: k in r <==> k in order && k != jid
    ensures |r| <= |order|
  {
    if order == [] then []
    else if order[0] == jid then Remove(order[1..], jid)
    else [order[0]] + Remove(order[1..], jid)
  }

  /** Deleting a key never introduces a duplicate. */
  lemma {:induction false} RemoveNoDup(order: seq<Jid>, jid: Jid)
    requires NoDup(order)
    ensures NoDup(Remove(order, jid))
  {
    if order != [] {
      var t := Remove(order[1..], jid);
      RemoveNoDup(order[1..], jid);
      if order[0] != jid {
        assert order[0] !in order[1..];
        forall i, j | 0 <= i < j < |[order[0]] + t| ensures ([order[0]] + t)[i] != ([order[0]] + t)[j] {
          if i > 0 {
            assert ([order[0]] + t)[i] == t[i - 1];
          }
        }
      }
    }
  }

  /** Deleting an absent key changes nothing. */
  lemma {:induction false} RemoveAbsent(order: seq<Jid>, jid: Jid)
    requires jid !in order
    ensures Remove(order, jid) == order
  {
    if order != [] {
      assert order == [order[0]] + order[1..];
      RemoveAbsent(order[1..], jid);
    }
  }

  /** Deleting the key at position `p` of a duplicate-free order removes
      exactly that position and keeps everything else in place. */
  lemma {:induction false} RemoveAt(order: seq<Jid>, jid: Jid, p: nat)
    requires NoDup(order) && p < |order| && order[p] == jid
    ensures Remove(order, jid) == order[..p] + order[p + 1..]
  {
    if p == 0 {
      assert jid !in order[1..];
      RemoveAbsent(order[1..], jid);
    } else {
      assert NoDup(order[1..]);
      RemoveAt(order[1..], jid, p - 1);
      assert order[1..][..p - 1] == order[1..p];
      assert order[1..][p..] == order[p + 1..];
      assert [order[0]] + order[1..p] == order[..p];
    }
  }

  /** Removing a key that was only just appended restores the old order. */
  lemma {:induction false} RemoveAppended(order: seq<Jid>, jid: Jid)
    requires jid !in order
    ensures Remove(order + [jid], jid) == order
  {
    if order != [] {
      assert (order + [jid])[1..] == order[1..] + [jid];
      RemoveAppended(order[1..], jid);
    }
  }

  /** Registering a key and deleting it again leaves the key order as it
      would be had the key only been deleted. */
  lemma UpsertThenRemove(order: seq<Jid>, jid: Jid)
    ensures Remove(Upsert(order, jid), jid) == Remove(order, jid)
  {
    if jid !in order {
      RemoveAppended(order, jid);
      RemoveAbsent(order, jid);
    }
  }

  /** Every listed key is registered and every registered record has a
      websocket: what `client_info['websocket']` needs not to fail. */
  predicate Connected(keys: seq<Jid>, active: map<Jid, ClientRecord>)
  {
    (forall i :: 0 <= i < |keys| ==> keys[i] in active)
    && (forall k :: k in active ==> active[k].websocket.Some?)
  }

  function ChannelOf(rec: ClientRecord): (ws: Channel)
    requires rec.websocket.Some?
  {
    rec.websocket.value
  }

  /** `broadcast(message)`: one send per key, in iteration order. */
  function BroadcastSends(keys: seq<Jid>, active: map<Jid, ClientRecord>, msg: Outbound): (r: seq<Delivery>)
    requires Connected(keys, active)
    ensures |r| == |keys|
    ensures forall i :: 0 <= i < |keys| ==> r[i] == Deliver(ChannelOf(active[keys[i]]), msg)
  {
    if keys == [] then []
    else
      var n := |keys| - 1;
      BroadcastSends(keys[..n], active, msg) + [Deliver(ChannelOf(active[keys[n]]), msg)]
  }

  /** Extending the prefix of keys by one extends the sends by one. */
  lemma BroadcastSendsStep(keys: seq<Jid>, active: map<Jid, ClientRecord>, msg: Outbound, n: nat)
    requires Connected(keys, active) && n < |keys|
    ensures Connected(keys[..n], active) && Connected(keys[..n + 1], active)
    ensures BroadcastSends(keys[..n + 1], active, msg)
            == BroadcastSends(keys[..n], active, msg) + [Deliver(ChannelOf(active[keys[n]]), msg)]
  {
    assert keys[..n + 1][..n] == keys[..n];
  }

  /** The roster entry built from one session record. */
  function Entry(rec: ClientRecord): (e: RosterEntry)
  {
    RosterEntry(rec.cred.nickname, rec.cred.jid, rec.publickey)
  }

  /** The list comprehension of `broadcast_presence`: one entry per key,
      in iteration order. */
  function Roster(keys: seq<Jid>, active: map<Jid, ClientRecord>): (r: seq<RosterEntry>)
    requires forall i :: 0 <= i < |keys| ==> keys[i] in active
    ensures |r| == |keys|
    ensures forall i :: 0 <= i < |keys| ==> r[i] == Entry(active[keys[i]])
  {
    if keys == [] then []
    else [Entry(active[keys[0]])] + Roster(keys[1..], active)
  }
}
