/** The registry of forwarded p2p streams, under every interleaving of its lock-protected operations. */
module Streams {

  type Peer = string

  const TWO64: nat := 0x1_0000_0000_0000_0000

  /** The registered streams of a peer. */
  ghost function LiveOf(streams: map<nat, Peer>, p: Peer): set<nat> {
    set id | id in streams && streams[id] == p
  }

  /** A peer is counted by its live streams, and tagged exactly when it has one. */
  ghost predicate PeerOk(streams: map<nat, Peer>, conns: map<Peer, int>, tags: set<Peer>, p: Peer) {
    && (p in conns <==> LiveOf(streams, p) != {})
    && (p in conns ==> conns[p] == |LiveOf(streams, p)|)
    && (p in tags <==> p in conns)
  }

  ghost predicate Consistent(streams: map<nat, Peer>, conns: map<Peer, int>, tags: set<Peer>) {
    forall p :: PeerOk(streams, conns, tags, p)
  }

  function Count(conns: map<Peer, int>, p: Peer): int {
    if p in conns then conns[p] else 0
  }

  lemma LiveAfterAdd(streams: map<nat, Peer>, id: nat, p: Peer, q: Peer)
    requires id !in streams
    ensures LiveOf(streams[id := p], q) == if q == p then LiveOf(streams, q) + {id} else LiveOf(streams, q)
    ensures id !in LiveOf(streams, q)
  {
  }

  /** Adding a stream under a free id keeps the counts. */
  lemma AddStream(streams: map<nat, Peer>, conns: map<Peer, int>, tags: set<Peer>, id: nat, p: Peer)
    requires Consistent(streams, conns, tags) && id !in streams
    ensures Consistent(streams[id := p], conns[p := Count(conns, p) + 1], tags + {p})
  {
    var streams', conns', tags' := streams[id := p], conns[p := Count(conns, p) + 1], tags + {p};
    forall q
      ensures PeerOk(streams', conns', tags', q)
    {
      assert PeerOk(streams, conns, tags, q);
      LiveAfterAdd(streams, id, p, q);
    }
  }

  /** Adding a stream under an id in use breaks them: the peer that held the id is counted too high. */
  lemma OverwriteStream(streams: map<nat, Peer>, conns: map<Peer, int>, tags: set<Peer>, id: nat, p: Peer)
    requires Consistent(streams, conns, tags) && id in streams
    ensures !Consistent(streams[id := p], conns[p := Count(conns, p) + 1], tags + {p})
  {
    var streams', conns', q := streams[id := p], conns[p := Count(conns, p) + 1], streams[id];
    assert PeerOk(streams, conns, tags, q) && id in LiveOf(streams, q);
    assert LiveOf(streams', q) == if q == p then LiveOf(streams, q) else LiveOf(streams, q) - {id};
    assert !PeerOk(streams', conns', tags + {p}, q);
  }

  lemma DropStream(streams: map<nat, Peer>, conns: map<Peer, int>, tags: set<Peer>, id: nat)
    requires Consistent(streams, conns, tags) && id in streams
    ensures var p := streams[id];
            p in conns &&
            if conns[p] - 1 < 1 then Consistent(streams - {id}, conns - {p}, tags - {p})
            else Consistent(streams - {id}, conns[p := conns[p] - 1], tags)
  {
    var p := streams[id];
    var left := streams - {id};
    assert PeerOk(streams, conns, tags, p) && id in LiveOf(streams, p);
    var last := conns[p] - 1 < 1;
    var conns' := if last then conns - {p} else conns[p := conns[p] - 1];
    var tags' := if last then tags - {p} else tags;
    assert LiveOf(left, p) == LiveOf(streams, p) - {id} && |LiveOf(left, p)| == conns[p] - 1;
    forall q
      ensures PeerOk(left, conns', tags', q)
    {
      assert PeerOk(streams, conns, tags, q);
      assert q != p ==> LiveOf(left, q) == LiveOf(streams, q);
    }
  }

  lemma NothingLeft(streams: map<nat, Peer>, conns: map<Peer, int>, tags: set<Peer>)
    requires Consistent(streams, conns, tags) && streams == map[]
    ensures conns == map[] && tags == {}
  {
    forall p
      ensures p !in conns && p !in tags
    {
      assert PeerOk(streams, conns, tags, p);
    }
  }

  class StreamRegistry {
    /** The peer of each registered stream. */
    var streams: map<nat, Peer>
    var conns: map<Peer, int>
    /** A 64-bit counter. */
    var nextID: nat
    /** The peers that the connection manager protects for us. */
    var tags: set<Peer>

    constructor ()
      ensures Valid() && streams == map[] && nextID == 0
    {
      streams, conns, nextID, tags := map[], map[], 0, {};
    }

    ghost predicate Valid()
      reads this
    {
      Consistent(streams, conns, tags)
    }

    method Register(p: Peer) returns (id: nat)
      requires Valid()
      modifies this
      ensures id == old(nextID) && nextID == (old(nextID) + 1) % 0x1_0000_0000_0000_0000
      ensures streams == old(streams)[id := p]
      ensures Valid() <==> id !in old(streams)
    {
      if nextID in streams {
        OverwriteStream(streams, conns, tags, nextID, p);
      } else {
        AddStream(streams, conns, tags, nextID, p);
      }
      tags := tags + {p};
      conns := conns[p := Count(conns, p) + 1];
      id := nextID;
      streams := streams[id := p];
      nextID := (nextID + 1) % TWO64;
    }

    method Deregister(id: nat)
      requires Valid()
      modifies this
      ensures Valid() && streams == old(streams) - {id} && nextID == old(nextID)
      ensures id !in old(streams) ==> conns == old(conns) && tags == old(tags)
    {
      if id !in streams {
        assert streams - {id} == streams;
        return;
      }
      DropStream(streams, conns, tags, id);
      var p := streams[id];
      conns := conns[p := conns[p] - 1];
      if conns[p] < 1 {
        conns := conns - {p};
        assert conns == old(conns) - {p};
        tags := tags - {p};
      }
      streams := streams - {id};
    }

    /**
     * Every interleaving: each peer's stream is registered at some moment, its two copy loops each close
     * it at some later moment, and `extra` more closes of any registered id come at any time. Counts and
     * tags are right after each step, no id is handed out twice, and nothing remains.
     */
    method Serve(peers: seq<Peer>, extra: nat) returns (ids: seq<nat>)
      requires Valid() && streams == map[] && nextID == 0 && |peers| <= TWO64
      modifies this
      ensures Valid() && streams == map[] && conns == map[] && tags == {}
      ensures |ids| == |peers| && forall i, j :: 0 <= i < j < |ids| ==> ids[i] != ids[j]
    {
      ids := [];
      // The closes that copy loops have yet to make.
      var closers: multiset<nat>, more := multiset{}, extra;
      while |ids| < |peers| || closers != multiset{}
        invariant |ids| <= |peers| && nextID == |ids| % TWO64
        invariant forall i :: 0 <= i < |ids| ==> ids[i] == i
        invariant Valid() && forall id :: id in streams ==> id in closers && id < |ids|
        decreases 3 * (|peers| - |ids|) + |closers| + more
      {
        var register: bool, close: bool := *, *;
        if |ids| < |peers| && (register || closers == multiset{}) {
          var id := Register(peers[|ids|]);
          ids, closers := ids + [id], closers + multiset{id, id};
        } else if more > 0 && close {
          var id :| 0 <= id <= |ids|;
          Deregister(id);
          more := more - 1;
        } else {
          var id :| id in closers;
          Deregister(id);
          closers := closers - multiset{id};
        }
      }
      NothingLeft(streams, conns, tags);
    }
  }
}
