/** Content identifiers and the block graph that garbage collection walks. */
module Dag {

  /** The bytes of a multihash. */
  type Multihash = seq<int>

  const DAG_PROTOBUF: nat := 0x70
  const RAW: nat := 0x55

  /** A CIDv0 is a bare multihash whose codec is implicitly dag-pb. */
  datatype Cid = V0(hash: Multihash) | V1(codec: nat, hash: Multihash)

  function ToCidV1(c: Cid): Cid {
    match c
    case V0(hash) => V1(DAG_PROTOBUF, hash)
    case V1(_, _) => c
  }

  function ToRaw(c: Cid): Cid {
    V1(RAW, c.hash)
  }

  /** What asking the local store for the links of a block can yield. */
  datatype Fetch = Links(links: seq<Cid>) | NotFound | Unreadable

  /** The local block graph: what each CIDv1 decodes to, and which multihashes pass CID validation. */
  datatype Graph = Graph(nodes: map<Cid, Fetch>, allows: Multihash -> bool)

  /** Links depend on the codec and the multihash only, so both CID versions of a block agree. */
  function GetLinks(g: Graph, c: Cid): Fetch {
    var k := ToCidV1(c);
    if k in g.nodes then g.nodes[k] else NotFound
  }

  function Normalised(cids: set<Cid>): set<Cid> {
    set c | c in cids :: ToCidV1(c)
  }

  function LinkSet(f: Fetch): set<Cid> {
    if f.Links? then set l | l in f.links else {}
  }

  function Children(g: Graph, c: Cid): set<Cid> {
    Normalised(LinkSet(GetLinks(g, c)))
  }

  // Reachability

  ghost predicate StepAt(g: Graph, stop: set<Cid>, p: seq<Cid>, i: nat)
    requires i + 1 < |p|
  {
    p[i] !in stop && p[i + 1] in Children(g, p[i])
  }

  /** A walk follows links and never leaves a block in `stop`; it may end in one. */
  ghost predicate IsWalk(g: Graph, stop: set<Cid>, p: seq<Cid>) {
    && |p| > 0
    && forall i :: 0 <= i < |p| - 1 ==> StepAt(g, stop, p, i)
  }

  ghost predicate WalkTo(g: Graph, stop: set<Cid>, roots: set<Cid>, p: seq<Cid>, x: Cid) {
    IsWalk(g, stop, p) && p[0] in roots && p[|p| - 1] == x
  }

  ghost predicate Reaches(g: Graph, stop: set<Cid>, roots: set<Cid>, x: Cid) {
    exists p :: WalkTo(g, stop, roots, p, x)
  }

  ghost predicate ClosedUnderLinks(g: Graph, s: iset<Cid>) {
    forall x :: x in s ==> forall y :: y in Children(g, x) ==> y in s
  }

  lemma ReachesRoot(g: Graph, stop: set<Cid>, roots: set<Cid>, x: Cid)
    requires x in roots
    ensures Reaches(g, stop, roots, x)
  {
    assert WalkTo(g, stop, roots, [x], x);
  }

  lemma ReachesChild(g: Graph, stop: set<Cid>, roots: set<Cid>, x: Cid, y: Cid)
    requires Reaches(g, stop, roots, x) && x !in stop && y in Children(g, x)
    ensures Reaches(g, stop, roots, y)
  {
    var p :| WalkTo(g, stop, roots, p, x);
    var q := p + [y];
    forall i | 0 <= i < |q| - 1
      ensures StepAt(g, stop, q, i)
    {
      assert i < |p| - 1 ==> StepAt(g, stop, p, i);
    }
    assert WalkTo(g, stop, roots, q, y);
  }

  lemma WalkPrefix(g: Graph, stop: set<Cid>, roots: set<Cid>, p: seq<Cid>, i: nat)
    requires IsWalk(g, stop, p) && p[0] in roots && i < |p|
    ensures Reaches(g, stop, roots, p[i])
  {
    var q := p[..i + 1];
    assert forall j :: 0 <= j < |q| - 1 && StepAt(g, stop, p, j) ==> StepAt(g, stop, q, j);
    assert WalkTo(g, stop, roots, q, p[i]);
  }

  lemma FirstStepLeaves(g: Graph, stop: set<Cid>, p: seq<Cid>)
    requires IsWalk(g, stop, p) && |p| > 1
    ensures p[0] !in stop
  {
    assert StepAt(g, stop, p, 0);
  }

  /** More roots and fewer stops only add reachable blocks. */
  lemma ReachesMonotone(g: Graph, stop: set<Cid>, roots: set<Cid>, stop': set<Cid>, roots': set<Cid>, x: Cid)
    requires Reaches(g, stop, roots, x) && stop' <= stop && roots <= roots'
    ensures Reaches(g, stop', roots', x)
  {
    var p :| WalkTo(g, stop, roots, p, x);
    assert forall i :: 0 <= i < |p| - 1 && StepAt(g, stop, p, i) ==> StepAt(g, stop', p, i);
    assert WalkTo(g, stop', roots', p, x);
  }

  /**
   * Stopping early inside a link-closed set loses only what that set already holds: if `more` adds to
   * `stop` blocks of a closed set `closed`, then a block reached under `stop` is in `closed` or is still
   * reached under `more`.
   */
  lemma StoppingInClosed(g: Graph, stop: set<Cid>, more: set<Cid>, closed: iset<Cid>, roots: set<Cid>, x: Cid)
    requires ClosedUnderLinks(g, closed)
    requires forall y :: y in more ==> y in stop || y in closed
    requires Reaches(g, stop, roots, x)
    ensures x in closed || Reaches(g, more, roots, x)
  {
    var p :| WalkTo(g, stop, roots, p, x);
    if i :| 0 <= i < |p| && p[i] in closed {
      ClosedAlongWalk(g, stop, p, closed, i, |p| - 1);
    } else {
      assert forall i :: 0 <= i < |p| - 1 && StepAt(g, stop, p, i) ==> StepAt(g, more, p, i);
      assert WalkTo(g, more, roots, p, x);
    }
  }

  lemma {:induction false} ClosedAlongWalk(g: Graph, stop: set<Cid>, p: seq<Cid>, closed: iset<Cid>, i: nat, j: nat)
    requires ClosedUnderLinks(g, closed) && IsWalk(g, stop, p)
    requires i <= j < |p| && p[i] in closed
    ensures p[j] in closed
    decreases j - i
  {
    if i == j {
    } else {
      assert StepAt(g, stop, p, i);
      ClosedAlongWalk(g, stop, p, closed, i + 1, j);
    }
  }

  /** Every block that can be met from `roots`: finite, because the store is. */
  ghost function Universe(g: Graph, roots: set<Cid>): (u: set<Cid>)
    ensures roots <= u
    ensures forall x {:trigger Children(g, x)} :: Children(g, x) <= u
  {
    var targets := set k, l | k in g.nodes && l in LinkSet(g.nodes[k]) :: ToCidV1(l);
    assert forall x :: Children(g, x) <= targets by {
      forall x, y | y in Children(g, x)
        ensures y in targets
      {
        var l :| l in LinkSet(GetLinks(g, x)) && y == ToCidV1(l);
        assert ToCidV1(x) in g.nodes;
      }
    }
    roots + targets
  }

  // What CIDs and links mean, apart from the version 1 form

  predicate IsDagPb(c: Cid) {
    c.V0? || c.codec == 0x70
  }

  /** Two CIDs name one block, read with one codec. */
  predicate SameBlock(a: Cid, b: Cid) {
    a == b || (a.hash == b.hash && IsDagPb(a) && IsDagPb(b))
  }

  ghost predicate NodeOf(g: Graph, c: Cid, k: Cid) {
    k in g.nodes && k.V1? && SameBlock(k, c)
  }

  /** The block that `c` names has `l` among its links. */
  ghost predicate Lists(g: Graph, c: Cid, l: Cid) {
    exists k :: NodeOf(g, c, k) && g.nodes[k].Links? && l in g.nodes[k].links
  }

  ghost predicate LinkAt(g: Graph, stop: set<Cid>, p: seq<Cid>, i: nat)
    requires i + 1 < |p|
  {
    Lists(g, p[i], p[i + 1]) && forall s :: s in stop ==> !SameBlock(s, p[i])
  }

  /** A chain of links as the blocks hold them, leaving no block in `stop`. */
  ghost predicate IsChain(g: Graph, stop: set<Cid>, p: seq<Cid>) {
    |p| > 0 && forall i :: 0 <= i < |p| - 1 ==> LinkAt(g, stop, p, i)
  }

  ghost predicate ChainTo(g: Graph, stop: set<Cid>, starts: set<Cid>, p: seq<Cid>, x: Cid) {
    IsChain(g, stop, p) && p[0] in starts && SameBlock(p[|p| - 1], x)
  }

  lemma SameForm(a: Cid, b: Cid)
    ensures SameBlock(a, b) <==> ToCidV1(a) == ToCidV1(b)
    ensures ToCidV1(a).V1? && SameBlock(ToCidV1(a), a) && ToCidV1(a).hash == a.hash
  {
  }

  lemma NodeForm(g: Graph, c: Cid, k: Cid)
    ensures NodeOf(g, c, k) <==> k == ToCidV1(c) && k in g.nodes
  {
    SameForm(k, c);
  }

  /** A child is what some link of the block names. */
  lemma ChildIsLink(g: Graph, x: Cid, y: Cid)
    ensures y in Children(g, x) <==> y.V1? && exists l :: Lists(g, x, l) && SameBlock(l, y)
  {
    var k := ToCidV1(x);
    NodeForm(g, x, k);
    if y in Children(g, x) {
      var l :| l in LinkSet(GetLinks(g, x)) && y == ToCidV1(l);
      SameForm(l, y);
      assert NodeOf(g, x, k) && Lists(g, x, l);
    }
    if l :| y.V1? && Lists(g, x, l) && SameBlock(l, y) {
      var m :| NodeOf(g, x, m) && g.nodes[m].Links? && l in g.nodes[m].links;
      NodeForm(g, x, m);
      SameForm(l, y);
      assert l in LinkSet(GetLinks(g, x));
    }
  }

  /** Reachability is following links, whatever versions the CIDs along the way have. */
  lemma ReachesIffChain(g: Graph, stop: set<Cid>, starts: set<Cid>, x: Cid)
    requires forall s :: s in stop ==> s.V1?
    ensures Reaches(g, stop, Normalised(starts), x) <==> x.V1? && exists p :: ChainTo(g, stop, starts, p, x)
  {
    if Reaches(g, stop, Normalised(starts), x) {
      var w :| WalkTo(g, stop, Normalised(starts), w, x);
      var p := WalkHasChain(g, stop, starts, w, |w| - 1);
    }
    if p :| x.V1? && ChainTo(g, stop, starts, p, x) {
      ChainReaches(g, stop, starts, p, |p| - 1);
      SameForm(p[|p| - 1], x);
    }
  }

  lemma {:induction false} WalkHasChain(g: Graph, stop: set<Cid>, starts: set<Cid>, w: seq<Cid>, i: nat)
    returns (p: seq<Cid>)
    requires forall s :: s in stop ==> s.V1?
    requires IsWalk(g, stop, w) && w[0] in Normalised(starts) && i < |w|
    ensures w[i].V1? && ChainTo(g, stop, starts, p, w[i])
  {
    if i == 0 {
      var c :| c in starts && w[0] == ToCidV1(c);
      SameForm(c, w[0]);
      p := [c];
    } else {
      var q := WalkHasChain(g, stop, starts, w, i - 1);
      var c := q[|q| - 1];
      assert StepAt(g, stop, w, i - 1);
      SameForm(c, w[i - 1]);
      assert Children(g, c) == Children(g, w[i - 1]);
      ChildIsLink(g, c, w[i]);
      var l :| Lists(g, c, l) && SameBlock(l, w[i]);
      p := q + [l];
      forall s | s in stop
        ensures !SameBlock(s, c)
      {
        SameForm(s, c);
      }
      assert LinkAt(g, stop, p, |q| - 1);
      assert forall j :: 0 <= j < |q| - 1 && LinkAt(g, stop, q, j) ==> LinkAt(g, stop, p, j);
    }
  }

  lemma {:induction false} ChainReaches(g: Graph, stop: set<Cid>, starts: set<Cid>, p: seq<Cid>, i: nat)
    requires IsChain(g, stop, p) && p[0] in starts && i < |p|
    ensures Reaches(g, stop, Normalised(starts), ToCidV1(p[i]))
  {
    if i == 0 {
      ReachesRoot(g, stop, Normalised(starts), ToCidV1(p[0]));
    } else {
      ChainReaches(g, stop, starts, p, i - 1);
      assert LinkAt(g, stop, p, i - 1);
      var x, y := ToCidV1(p[i - 1]), ToCidV1(p[i]);
      SameForm(p[i - 1], x);
      SameForm(p[i], y);
      ChildIsLink(g, p[i - 1], y);
      assert Children(g, p[i - 1]) == Children(g, x);
      assert x !in stop;
      ReachesChild(g, stop, Normalised(starts), x, y);
    }
  }
}
