/**
 The peers announced for each info hash: a growable array of peers that is purged by swapping
 the last peer into the hole. The purge changes the order of the peers, so what it keeps is
 stated as a multiset: exactly the peers that are not stale. Endpoints stay distinct, and the
 array never has room for more than 2048.
 */
module DhtStorage {
  import opened DhtId
  import opened Wrappers

  const MAX_PEERS := 2048
  const MAX_HASHES := 16384
  const PEER_LIFE := 32 * 60

  /** An endpoint is the address bytes (4 or 16 of them) and a port. */
  datatype Endpoint = Endpoint(ip: seq<bv8>, port: int)

  datatype Peer = Peer(who: Endpoint, time: int)

  predicate Stale(p: Peer, now: int)
  {
    p.time < now - PEER_LIFE
  }

  /** The peers that are not stale, in order. */
  function FreshPeers(ps: seq<Peer>, now: int): (r: seq<Peer>)
  {
    if ps == [] then []
    else (if Stale(ps[0], now) then [] else [ps[0]]) + FreshPeers(ps[1..], now)
  }

  ghost predicate DistinctPeers(ps: seq<Peer>)
  {
    forall i, j :: 0 <= i < j < |ps| ==> ps[i].who != ps[j].who
  }

  lemma {:induction false} FreshPeersConcat(a: seq<Peer>, b: seq<Peer>, now: int)
    ensures FreshPeers(a + b, now) == FreshPeers(a, now) + FreshPeers(b, now)
  {
    if a == [] {
      assert a + b == b;
    } else {
      assert (a + b)[1..] == a[1..] + b;
      FreshPeersConcat(a[1..], b, now);
    }
  }

  /** As often as a peer was there, if it was announced within 32 minutes, and else not at all. */
  lemma {:induction false} FreshPeersAre(ps: seq<Peer>, now: int, p: Peer)
    ensures multiset(FreshPeers(ps, now))[p] == if p.time >= now - 1920 then multiset(ps)[p] else 0
  {
    if ps != [] {
      FreshPeersAre(ps[1..], now, p);
      assert ps == [ps[0]] + ps[1..];
    }
  }

  lemma {:induction false} FreshPeersAll(ps: seq<Peer>, now: int)
    requires forall k :: 0 <= k < |ps| ==> !Stale(ps[k], now)
    ensures FreshPeers(ps, now) == ps
  {
    if ps != [] {
      FreshPeersAll(ps[1..], now);
    }
  }

  /** One step of the purge: drop a stale peer by moving the last one into its place. */
  function SwapOut(ps: seq<Peer>, i: nat): (r: seq<Peer>)
    requires i < |ps|
    ensures |r| == |ps| - 1
  {
    if i == |ps| - 1 then ps[..i] else ps[i := ps[|ps| - 1]][..|ps| - 1]
  }

  lemma SwapOutParts(ps: seq<Peer>, i: nat)
    requires i < |ps| - 1
    ensures ps == ps[..i] + ([ps[i]] + ps[i + 1..|ps| - 1] + [ps[|ps| - 1]])
    ensures SwapOut(ps, i) == ps[..i] + ([ps[|ps| - 1]] + ps[i + 1..|ps| - 1])
  {
  }

  lemma Rotated(a: seq<Peer>, b: seq<Peer>, z: seq<Peer>)
    ensures multiset(a + (z + b)) == multiset(a + (b + z))
  {
    assert multiset(a + (z + b)) == multiset(a) + multiset(z) + multiset(b);
    assert multiset(a + (b + z)) == multiset(a) + multiset(b) + multiset(z);
  }

  lemma SwapOutKeepsFresh(ps: seq<Peer>, i: nat, now: int)
    requires i < |ps| && Stale(ps[i], now)
    ensures multiset(FreshPeers(SwapOut(ps, i), now)) == multiset(FreshPeers(ps, now))
  {
    hide FreshPeers, SwapOut, Stale;
    StaleIsDropped(ps[i], now);
    if i == |ps| - 1 {
      LastOut(ps, now);
    } else {
      MiddleOut(ps, i, now);
    }
  }

  lemma StaleIsDropped(p: Peer, now: int)
    requires Stale(p, now)
    ensures FreshPeers([p], now) == []
  {
  }

  lemma LastOut(ps: seq<Peer>, now: int)
    requires ps != [] && FreshPeers([ps[|ps| - 1]], now) == []
    ensures FreshPeers(SwapOut(ps, |ps| - 1), now) == FreshPeers(ps, now)
  {
    hide FreshPeers;
    var n := |ps| - 1;
    assert ps == ps[..n] + [ps[n]];
    FreshPeersConcat(ps[..n], [ps[n]], now);
    assert FreshPeers(ps[..n], now) + [] == FreshPeers(ps[..n], now);
  }

  lemma MiddleOut(ps: seq<Peer>, i: nat, now: int)
    requires i < |ps| - 1 && FreshPeers([ps[i]], now) == []
    ensures multiset(FreshPeers(SwapOut(ps, i), now)) == multiset(FreshPeers(ps, now))
  {
    hide FreshPeers, SwapOut;
    var n := |ps| - 1;
    var a, x, b, z := ps[..i], [ps[i]], ps[i + 1..n], [ps[n]];
    SwapOutParts(ps, i);
    FreshPeersConcat(a, x + b + z, now);
    FreshPeersConcat(x + b, z, now);
    FreshPeersConcat(x, b, now);
    FreshPeersConcat(a, z + b, now);
    FreshPeersConcat(z, b, now);
    assert [] + FreshPeers(b, now) == FreshPeers(b, now);
    Rotated(FreshPeers(a, now), FreshPeers(b, now), FreshPeers(z, now));
  }

  lemma SwapOutKeepsDistinct(ps: seq<Peer>, i: nat)
    requires i < |ps| && DistinctPeers(ps)
    ensures DistinctPeers(SwapOut(ps, i))
  {
  }

  class Storage {
    const id: Id
    var numpeers: nat
    var maxpeers: nat
    var peers: array<Peer>

    ghost predicate Valid()
      reads this, peers
    {
      && numpeers <= maxpeers == peers.Length <= MAX_PEERS
      && DistinctPeers(peers[..numpeers])
    }

    ghost function Contents(): (r: seq<Peer>)
      requires numpeers <= peers.Length
      reads this, peers
    {
      peers[..numpeers]
    }

    constructor (id: Id)
      ensures Valid() && Contents() == [] && this.id == id && fresh(peers)
    {
      this.id := id;
      numpeers, maxpeers := 0, 0;
      peers := new Peer[0];
    }

    lemma Bounded()
      requires Valid()
      ensures numpeers <= peers.Length
    {
    }

    method DropPeer(i: nat)
      requires Valid() && i < numpeers
      modifies this`numpeers, peers
      ensures Valid() && peers == old(peers) && numpeers == old(numpeers) - 1
      ensures Contents() == SwapOut(old(Contents()), i)
      ensures forall k :: 0 <= k < i ==> peers[k] == old(peers[k])
    {
      SwapOutKeepsDistinct(Contents(), i);
      if i != numpeers - 1 {
        peers[i] := peers[numpeers - 1];
      }
      numpeers := numpeers - 1;
    }

    /** The inner loop of `expire_storage` (dht.cpp:1550): exactly the fresh peers survive, in some order. */
    method ExpirePeers(now: int)
      requires Valid()
      modifies this`numpeers, peers
      ensures Valid() && peers == old(peers)
      ensures multiset(Contents()) == multiset(FreshPeers(old(Contents()), now))
    {
      hide FreshPeers, DistinctPeers, SwapOut;
      var i := 0;
      while i < numpeers
        invariant Valid() && peers == old(peers) && i <= numpeers
        invariant forall k :: 0 <= k < i ==> !Stale(peers[k], now)
        invariant multiset(FreshPeers(Contents(), now)) == multiset(FreshPeers(old(Contents()), now))
        decreases numpeers - i
      {
        if peers[i].time < now - PEER_LIFE {
          SwapOutKeepsFresh(Contents(), i, now);
          DropPeer(i);
        } else {
          i := i + 1;
        }
      }
      FreshPeersAll(Contents(), now);
    }

    /**
     The second half of `storage_store` (dht.cpp:1497): refresh the endpoint if it is known, else
     append it, doubling the array when it is full; at 2048 peers the newcomer is turned away.
     */
    method StorePeer(who: Endpoint, now: int) returns (rc: int)
      requires Valid()
      modifies this, peers
      ensures Valid() && (peers == old(peers) || fresh(peers))
      ensures old(Known(who)) ==> rc == 0 && Contents() == old(Contents())[old(PositionOf(who)) := Peer(who, now)]
      ensures !old(Known(who)) && old(numpeers) < 2048 ==> rc == 1 && Contents() == old(Contents()) + [Peer(who, now)]
      ensures !old(Known(who)) && old(numpeers) >= 2048 ==> rc == 0 && Contents() == old(Contents())
    {
      var i := 0;
      while i < numpeers && peers[i].who != who
        invariant i <= numpeers
        invariant forall k :: 0 <= k < i ==> peers[k].who != who
      {
        i := i + 1;
      }
      PositionIs(i, who);
      if i < numpeers {
        peers[i] := Peer(who, now);
        return 0;
      }
      if i >= maxpeers {
        if maxpeers >= MAX_PEERS {
          return 0;
        }
        Grow(who, now);
      }
      peers[numpeers] := Peer(who, now);
      numpeers := numpeers + 1;
      return 1;
    }

    /** `realloc` to twice the size, at least 2 and at most 2048. */
    method Grow(who: Endpoint, now: int)
      requires Valid() && maxpeers < MAX_PEERS
      modifies this`maxpeers, this`peers
      ensures Valid() && fresh(peers) && maxpeers > old(maxpeers)
      ensures Contents() == old(Contents())
    {
      var n := if maxpeers == 0 then 2 else 2 * maxpeers;
      n := if n <= MAX_PEERS then n else MAX_PEERS;
      var bigger := new Peer[n](_ => Peer(who, now));
      for k := 0 to numpeers
        invariant peers == old(peers) && maxpeers == old(maxpeers)
        invariant forall j :: 0 <= j < k ==> bigger[j] == peers[j]
      {
        bigger[k] := peers[k];
      }
      assert bigger[..numpeers] == peers[..numpeers];
      peers, maxpeers := bigger, n;
    }

    ghost function PositionOf(who: Endpoint): (k: nat)
      requires numpeers <= peers.Length
      reads this, peers
      ensures k <= numpeers
    {
      FirstPeer(Contents(), who)
    }

    ghost predicate Known(who: Endpoint)
      requires numpeers <= peers.Length
      reads this, peers
    {
      PositionOf(who) < numpeers
    }

    lemma PositionIs(i: nat, who: Endpoint)
      requires Valid() && i <= numpeers
      requires (forall k :: 0 <= k < i ==> peers[k].who != who) && (i < numpeers ==> peers[i].who == who)
      ensures PositionOf(who) == i
    {
      FirstPeerLeast(Contents(), who, i);
    }
  }

  function FirstPeer(ps: seq<Peer>, who: Endpoint): (k: nat)
    ensures k <= |ps|
    ensures k < |ps| ==> ps[k].who == who
    ensures forall j :: 0 <= j < k ==> ps[j].who != who
  {
    if ps == [] || ps[0].who == who then 0 else 1 + FirstPeer(ps[1..], who)
  }

  lemma FirstPeerLeast(ps: seq<Peer>, who: Endpoint, i: nat)
    requires i <= |ps| && (forall k :: 0 <= k < i ==> ps[k].who != who) && (i < |ps| ==> ps[i].who == who)
    ensures FirstPeer(ps, who) == i
  {
  }
}
