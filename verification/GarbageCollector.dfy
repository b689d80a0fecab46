/**
 * Mark-and-sweep garbage collection of the block store.
 *
 * Marking runs four phases over one shared set, then the set is projected to raw CIDs and every other
 * key is deleted. Cancellation is a flag that any step may find set and that never clears.
 */
module GarbageCollector {
  import opened Dag
  import opened Wrappers

  /** `Strict` links must all be readable; under `BestEffort` a missing block is a leaf. */
  datatype Mode = Strict | BestEffort

  /** An element of a pin stream. */
  datatype StreamedPin = Key(cid: Cid) | StreamError

  datatype Pins = Pins(recursive: seq<StreamedPin>, direct: seq<StreamedPin>, internal: seq<StreamedPin>)

  /** What a run reports on its output channel. */
  datatype Report =
    | KeyRemoved(key: Cid)
    | CannotFetchLinks(key: Cid)
    | MarkingError
    | CannotFetchAllLinks
    | CannotListKeys
    | CannotDeleteBlock(key: Cid)
    | CannotDeleteSomeBlocks

  // Specification of marking

  function Keys(pins: seq<StreamedPin>): set<Cid> {
    set i | 0 <= i < |pins| && pins[i].Key? :: ToCidV1(pins[i].cid)
  }

  predicate HasError(pins: seq<StreamedPin>) {
    exists i :: 0 <= i < |pins| && pins[i].StreamError?
  }

  function RootPins(roots: seq<Cid>): seq<StreamedPin> {
    seq(|roots|, i requires 0 <= i < |roots| => Key(roots[i]))
  }

  /** A block whose CID is valid and whose links can be read as the mode demands. */
  predicate Readable(g: Graph, mode: Mode, x: Cid) {
    && g.allows(x.hash)
    && (GetLinks(g, x).Links? || (mode.BestEffort? && GetLinks(g, x).NotFound?))
  }

  ghost predicate ReachedOutright(g: Graph, pins: Pins, bestEffort: seq<Cid>, x: Cid) {
    Reaches(g, {}, Keys(pins.recursive), x) || Reaches(g, {}, Keys(RootPins(bestEffort)), x)
  }

  /** Blocks that only a direct pin marks; the internal walk does not look behind them. */
  ghost function DirectOnly(g: Graph, pins: Pins, bestEffort: seq<Cid>): set<Cid> {
    set x | x in Keys(pins.direct) && !ReachedOutright(g, pins, bestEffort, x)
  }

  ghost predicate MarkedBeforeInternal(g: Graph, pins: Pins, bestEffort: seq<Cid>, x: Cid) {
    ReachedOutright(g, pins, bestEffort, x) || x in Keys(pins.direct)
  }

  /** The blocks that marking keeps, without reference to any order of visits. */
  ghost predicate Wanted(g: Graph, pins: Pins, bestEffort: seq<Cid>, x: Cid) {
    || MarkedBeforeInternal(g, pins, bestEffort, x)
    || Reaches(g, DirectOnly(g, pins, bestEffort), Keys(pins.internal), x)
  }

  /** When marking succeeds: no pin stream breaks and all that must be read is readable. */
  ghost predicate Markable(g: Graph, pins: Pins, bestEffort: seq<Cid>) {
    && !HasError(pins.recursive) && !HasError(pins.direct) && !HasError(pins.internal)
    && (forall x :: Reaches(g, {}, Keys(pins.recursive), x) ==> Readable(g, Strict, x))
    && (forall x :: Reaches(g, {}, Keys(RootPins(bestEffort)), x) ==> Readable(g, BestEffort, x))
    && (forall x :: Reaches(g, DirectOnly(g, pins, bestEffort), Keys(pins.internal), x)
                    ==> MarkedBeforeInternal(g, pins, bestEffort, x) || Readable(g, Strict, x))
  }

  ghost predicate MultihashWanted(g: Graph, pins: Pins, bestEffort: seq<Cid>, k: Cid) {
    exists x :: Wanted(g, pins, bestEffort, x) && x.hash == k.hash
  }

  // Invariants of one phase

  /**
   * A phase that started with `base` marked and has taken on `roots`: `todo` is still to visit, `open`
   * is visited but its links are not fetched yet.
   */
  ghost predicate Explored(g: Graph, base: set<Cid>, roots: set<Cid>, marked: set<Cid>,
                           todo: set<Cid>, open: set<Cid>) {
    && base <= marked
    && open <= marked - base
    && roots <= marked + todo
    && (forall x {:trigger Children(g, x)} ::
          x in marked && x !in base && x !in open ==> Children(g, x) <= marked + todo)
    && (forall x {:trigger Reaches(g, base, roots, x)} ::
          x in todo || (x in marked && x !in base) ==> Reaches(g, base, roots, x))
  }

  /** Every block expanded in this phase was readable. */
  ghost predicate Clean(g: Graph, mode: Mode, base: set<Cid>, marked: set<Cid>, open: set<Cid>) {
    forall x {:trigger Readable(g, mode, x)} ::
      x in marked && x !in base && x !in open ==> Readable(g, mode, x)
  }

  ghost predicate Obstructed(g: Graph, mode: Mode, base: set<Cid>, roots: set<Cid>) {
    exists x :: x !in base && Reaches(g, base, roots, x) && !Readable(g, mode, x)
  }

  ghost predicate PhaseFails(g: Graph, mode: Mode, base: set<Cid>, pins: seq<StreamedPin>) {
    HasError(pins) || Obstructed(g, mode, base, Keys(pins))
  }

  ghost predicate ExactlyReached(g: Graph, base: set<Cid>, roots: set<Cid>, marked: set<Cid>) {
    forall x :: x in marked <==> x in base || Reaches(g, base, roots, x)
  }

  lemma ExploredIsExact(g: Graph, base: set<Cid>, roots: set<Cid>, marked: set<Cid>)
    requires Explored(g, base, roots, marked, {}, {})
    ensures ExactlyReached(g, base, roots, marked)
  {
    forall x | Reaches(g, base, roots, x)
      ensures x in marked
    {
      var p :| WalkTo(g, base, roots, p, x);
      WalkStaysMarked(g, base, roots, marked, p, |p| - 1);
    }
  }

  lemma {:induction false} WalkStaysMarked(g: Graph, base: set<Cid>, roots: set<Cid>, marked: set<Cid>,
                                           p: seq<Cid>, i: nat)
    requires Explored(g, base, roots, marked, {}, {})
    requires IsWalk(g, base, p) && p[0] in roots && i < |p|
    ensures p[i] in marked
  {
    if i == 0 {
    } else {
      WalkStaysMarked(g, base, roots, marked, p, i - 1);
      assert StepAt(g, base, p, i - 1);
    }
  }

  lemma WalkBegins(g: Graph, base: set<Cid>, roots: set<Cid>, marked: set<Cid>, root: Cid)
    requires Explored(g, base, roots, marked, {}, {})
    ensures Explored(g, base, roots + {ToCidV1(root)}, marked, Normalised({root}), {})
  {
    var all := roots + {ToCidV1(root)};
    assert Normalised({root}) == {ToCidV1(root)};
    ReachesRoot(g, base, all, ToCidV1(root));
    forall x | x in marked && x !in base
      ensures Reaches(g, base, all, x)
    {
      ReachesMonotone(g, base, roots, base, all, x);
    }
  }

  /** Visiting puts an unmarked block in the set and leaves it to be expanded. */
  lemma VisitStep(g: Graph, base: set<Cid>, roots: set<Cid>, marked: set<Cid>, todo: set<Cid>, open: set<Cid>, c: Cid)
    requires Explored(g, base, roots, marked, Normalised(todo), open) && c in todo
    ensures var k := ToCidV1(c);
            Explored(g, base, roots, marked + {k}, Normalised(todo - {c}), if k in marked then open else open + {k})
  {
    var k := ToCidV1(c);
    assert k in Normalised(todo);
    forall x | x in Normalised(todo)
      ensures x == k || x in Normalised(todo - {c})
    {
      var d :| d in todo && x == ToCidV1(d);
      assert d == c || d in todo - {c};
    }
  }

  /** Expanding a visited block hands its children to the walk. */
  lemma ExpandStep(g: Graph, base: set<Cid>, roots: set<Cid>, marked: set<Cid>, todo: set<Cid>, open: set<Cid>, k: Cid)
    requires Explored(g, base, roots, marked, Normalised(todo), open) && k in open
    ensures Explored(g, base, roots, marked, Normalised(todo + LinkSet(GetLinks(g, k))), open - {k})
  {
    assert Normalised(todo + LinkSet(GetLinks(g, k))) == Normalised(todo) + Children(g, k);
    forall y | y in Children(g, k)
      ensures Reaches(g, base, roots, y)
    {
      ReachesChild(g, base, roots, k, y);
    }
  }

  lemma SmallerGap(universe: set<Cid>, marked: set<Cid>, k: Cid)
    requires k in universe && k !in marked
    ensures |universe - (marked + {k})| < |universe - marked|
  {
    assert universe - (marked + {k}) == (universe - marked) - {k};
  }

  lemma ObstructedMonotone(g: Graph, mode: Mode, base: set<Cid>, roots: set<Cid>, roots': set<Cid>)
    requires roots <= roots'
    ensures Obstructed(g, mode, base, roots) ==> Obstructed(g, mode, base, roots')
  {
    if x :| x !in base && Reaches(g, base, roots, x) && !Readable(g, mode, x) {
      ReachesMonotone(g, base, roots, base, roots', x);
    }
  }

  lemma KeysSnoc(pins: seq<StreamedPin>, i: nat)
    requires i < |pins|
    ensures Keys(pins[..i]) <= Keys(pins[..i + 1]) <= Keys(pins)
    ensures pins[i].Key? ==> Keys(pins[..i + 1]) == Keys(pins[..i]) + {ToCidV1(pins[i].cid)}
  {
    var init, next := pins[..i], pins[..i + 1];
    assert forall j :: 0 <= j < i ==> init[j] == next[j];
    assert forall j :: 0 <= j <= i ==> next[j] == pins[j];
    assert pins[i].Key? ==> next[i] == pins[i];
    forall x | x in Keys(next) && pins[i].Key?
      ensures x in Keys(init) + {ToCidV1(pins[i].cid)}
    {
      var j :| 0 <= j < |next| && next[j].Key? && x == ToCidV1(next[j].cid);
      if j < i {
        assert init[j] == next[j];
      }
    }
  }

  // How the four phases add up

  /** Best-effort walks stop at blocks the recursive phase marked, and lose nothing by it. */
  lemma BestEffortPhase(g: Graph, pins: Pins, bestEffort: seq<Cid>, m1: set<Cid>)
    requires ExactlyReached(g, {}, Keys(pins.recursive), m1)
    requires !PhaseFails(g, Strict, {}, pins.recursive)
    ensures forall x :: x in m1 || Reaches(g, m1, Keys(RootPins(bestEffort)), x)
                        <==> ReachedOutright(g, pins, bestEffort, x)
    ensures PhaseFails(g, BestEffort, m1, RootPins(bestEffort))
            <==> exists x :: Reaches(g, {}, Keys(RootPins(bestEffort)), x) && !Readable(g, BestEffort, x)
  {
    var roots := Keys(RootPins(bestEffort));
    MarkedIsClosed(g, {}, Keys(pins.recursive), m1);
    var closed := iset x | x in m1;
    forall x | Reaches(g, {}, roots, x)
      ensures x in m1 || Reaches(g, m1, roots, x)
    {
      StoppingInClosed(g, {}, m1, closed, roots, x);
    }
    forall x | Reaches(g, m1, roots, x)
      ensures Reaches(g, {}, roots, x)
    {
      ReachesMonotone(g, m1, roots, {}, roots, x);
    }
  }

  lemma MarkedIsClosed(g: Graph, base: set<Cid>, roots: set<Cid>, marked: set<Cid>)
    requires ExactlyReached(g, base, roots, marked)
    requires base == {}
    ensures ClosedUnderLinks(g, iset x | x in marked)
  {
    forall x, y | x in marked && y in Children(g, x)
      ensures y in marked
    {
      ReachesChild(g, base, roots, x, y);
    }
  }

  lemma OutrightIsClosed(g: Graph, pins: Pins, bestEffort: seq<Cid>)
    ensures ClosedUnderLinks(g, iset x | ReachedOutright(g, pins, bestEffort, x))
  {
    forall x, y | ReachedOutright(g, pins, bestEffort, x) && y in Children(g, x)
      ensures ReachedOutright(g, pins, bestEffort, y)
    {
      if Reaches(g, {}, Keys(pins.recursive), x) {
        ReachesChild(g, {}, Keys(pins.recursive), x, y);
      } else {
        ReachesChild(g, {}, Keys(RootPins(bestEffort)), x, y);
      }
    }
  }

  /** The internal walk stops at everything marked so far; only stopping at direct-only blocks costs anything. */
  lemma InternalPhase(g: Graph, pins: Pins, bestEffort: seq<Cid>, m3: set<Cid>)
    requires forall x :: x in m3 <==> MarkedBeforeInternal(g, pins, bestEffort, x)
    ensures forall x :: x in m3 || Reaches(g, m3, Keys(pins.internal), x) <==> Wanted(g, pins, bestEffort, x)
    ensures Obstructed(g, Strict, m3, Keys(pins.internal))
            <==> exists x :: Reaches(g, DirectOnly(g, pins, bestEffort), Keys(pins.internal), x)
                             && !MarkedBeforeInternal(g, pins, bestEffort, x) && !Readable(g, Strict, x)
  {
    var stop, roots := DirectOnly(g, pins, bestEffort), Keys(pins.internal);
    var closed := iset x | ReachedOutright(g, pins, bestEffort, x);
    OutrightIsClosed(g, pins, bestEffort);
    forall x | Reaches(g, stop, roots, x)
      ensures x in m3 || Reaches(g, m3, roots, x)
    {
      StoppingInClosed(g, stop, m3, closed, roots, x);
    }
    forall x | Reaches(g, m3, roots, x)
      ensures Reaches(g, stop, roots, x)
    {
      ReachesMonotone(g, m3, roots, stop, roots, x);
    }
  }

  /** The verdicts of the phases together decide markability, and the last set is the wanted one. */
  lemma PhasesCombine(g: Graph, pins: Pins, bestEffort: seq<Cid>,
                      m1: set<Cid>, m2: set<Cid>, m3: set<Cid>, m4: set<Cid>,
                      failed1: bool, failed2: bool, failed4: bool)
    requires failed1 <==> PhaseFails(g, Strict, {}, pins.recursive)
    requires !failed1 ==> ExactlyReached(g, {}, Keys(pins.recursive), m1)
    requires failed1 ==> failed2
    requires !failed1 ==> (failed2 <==> PhaseFails(g, BestEffort, m1, RootPins(bestEffort)))
    requires !failed2 ==> ExactlyReached(g, m1, Keys(RootPins(bestEffort)), m2)
    requires !HasError(pins.direct) && m3 == m2 + Keys(pins.direct)
    requires failed2 ==> failed4
    requires !failed2 ==> (failed4 <==> PhaseFails(g, Strict, m3, pins.internal))
    requires !failed4 ==> ExactlyReached(g, m3, Keys(pins.internal), m4)
    ensures !failed4 <==> Markable(g, pins, bestEffort)
    ensures !failed4 ==> forall x :: x in m4 <==> Wanted(g, pins, bestEffort, x)
  {
    if !failed1 {
      BestEffortPhase(g, pins, bestEffort, m1);
      if !failed2 {
        InternalPhase(g, pins, bestEffort, m3);
      }
    }
  }

  /** A direct-only block that internal pins reach has no child that nothing else marks. */
  ghost predicate NothingHidden(g: Graph, pins: Pins, bestEffort: seq<Cid>) {
    forall d, y ::
      && d in DirectOnly(g, pins, bestEffort) && Reaches(g, {}, Keys(pins.internal), d) && y in Children(g, d)
      ==> Wanted(g, pins, bestEffort, y)
  }

  /**
   * Internal pins are kept with all their descendants exactly when no direct-only block on their way has
   * an unwanted child; what is wanted is then the plain closure of all walked roots, plus the direct pins.
   */
  lemma InternalPinsClosed(g: Graph, pins: Pins, bestEffort: seq<Cid>)
    ensures (forall x :: Reaches(g, {}, Keys(pins.internal), x) ==> Wanted(g, pins, bestEffort, x))
            <==> NothingHidden(g, pins, bestEffort)
    ensures NothingHidden(g, pins, bestEffort) ==>
              forall x :: Wanted(g, pins, bestEffort, x)
                          <==> MarkedBeforeInternal(g, pins, bestEffort, x) || Reaches(g, {}, Keys(pins.internal), x)
  {
    var stop, roots := DirectOnly(g, pins, bestEffort), Keys(pins.internal);
    forall d, y | d in stop && Reaches(g, {}, roots, d) && y in Children(g, d)
      ensures Reaches(g, {}, roots, y)
    {
      ReachesChild(g, {}, roots, d, y);
    }
    if NothingHidden(g, pins, bestEffort) {
      forall x | Reaches(g, {}, roots, x)
        ensures Wanted(g, pins, bestEffort, x)
      {
        var p :| WalkTo(g, {}, roots, p, x);
        WantedAlongWalk(g, pins, bestEffort, p, |p| - 1);
      }
    }
    forall x | Reaches(g, stop, roots, x)
      ensures Reaches(g, {}, roots, x)
    {
      ReachesMonotone(g, stop, roots, {}, roots, x);
    }
  }

  lemma {:induction false} WantedAlongWalk(g: Graph, pins: Pins, bestEffort: seq<Cid>, p: seq<Cid>, i: nat)
    requires NothingHidden(g, pins, bestEffort)
    requires IsWalk(g, {}, p) && p[0] in Keys(pins.internal) && i < |p|
    ensures Wanted(g, pins, bestEffort, p[i])
  {
    var stop, roots := DirectOnly(g, pins, bestEffort), Keys(pins.internal);
    if i == 0 {
      ReachesRoot(g, stop, roots, p[0]);
    } else {
      var x := p[i - 1];
      WantedAlongWalk(g, pins, bestEffort, p, i - 1);
      WalkPrefix(g, {}, roots, p, i - 1);
      assert StepAt(g, {}, p, i - 1);
      if ReachedOutright(g, pins, bestEffort, x) {
        OutrightIsClosed(g, pins, bestEffort);
        assert x in iset y | ReachedOutright(g, pins, bestEffort, y);
      } else if x !in stop {
        ReachesChild(g, stop, roots, x, p[i]);
      }
    }
  }

  /**
   * Phase order is observable: a block pinned both directly and internally hides its child, which internal
   * pins reach in a markable store and which shares its multihash with no wanted block.
   */
  lemma DirectPinHidesChildren()
    ensures exists g: Graph, pins, x ::
              && Markable(g, pins, []) && Reaches(g, {}, Keys(pins.internal), x) && GetLinks(g, x).Links?
              && !MultihashWanted(g, pins, [], x)
  {
    var a, b := V1(DAG_PROTOBUF, [1]), V1(RAW, [2]);
    var g := Graph(map[a := Links([b]), b := Links([])], (h: Multihash) => true);
    var pins := Pins([], [Key(a)], [Key(a)]);
    assert Keys(pins.direct) == {a} by { assert pins.direct[0] == Key(a); }
    assert Keys(pins.internal) == {a} by { assert pins.internal[0] == Key(a); }
    assert Keys(RootPins([])) == {};
    assert Children(g, a) == {b} by {
      assert LinkSet(GetLinks(g, a)) == {b};
    }
    assert !ReachedOutright(g, pins, [], a);
    assert DirectOnly(g, pins, []) == {a};
    ReachesRoot(g, {}, {a}, a);
    ReachesChild(g, {}, {a}, a, b);
    forall x | Reaches(g, {a}, {a}, x)
      ensures x == a
    {
      var p :| WalkTo(g, {a}, {a}, p, x);
      if |p| > 1 {
        FirstStepLeaves(g, {a}, p);
        assert false;
      }
    }
    assert forall x :: Wanted(g, pins, [], x) ==> x == a;
    assert !MultihashWanted(g, pins, [], b);
  }

  // What marking keeps, in terms of pins and links alone

  /** A chain of links from a recursive pin or a best-effort root. */
  ghost predicate Held(g: Graph, pins: Pins, bestEffort: seq<Cid>, p: seq<Cid>) {
    IsChain(g, {}, p) && (Key(p[0]) in pins.recursive || p[0] in bestEffort)
  }

  ghost predicate HeldTo(g: Graph, pins: Pins, bestEffort: seq<Cid>, p: seq<Cid>, x: Cid) {
    Held(g, pins, bestEffort, p) && SameBlock(p[|p| - 1], x)
  }

  ghost predicate PinnedDirectly(pins: Pins, x: Cid) {
    exists c :: Key(c) in pins.direct && SameBlock(c, x)
  }

  /** A chain of links from an internal pin that leaves no direct-only block. */
  ghost predicate InternalTo(g: Graph, pins: Pins, bestEffort: seq<Cid>, p: seq<Cid>, x: Cid) {
    && IsChain(g, DirectOnly(g, pins, bestEffort), p) && Key(p[0]) in pins.internal && SameBlock(p[|p| - 1], x)
  }

  function Cids(pins: seq<StreamedPin>): (cids: set<Cid>)
    ensures forall c :: c in cids <==> Key(c) in pins
  {
    set i | 0 <= i < |pins| && pins[i].Key? :: pins[i].cid
  }

  lemma KeysAreCids(pins: seq<StreamedPin>)
    ensures Keys(pins) == Normalised(Cids(pins))
    ensures forall x :: x in Keys(pins) <==> x.V1? && exists c :: Key(c) in pins && SameBlock(c, x)
  {
    forall x | x in Normalised(Cids(pins))
      ensures x in Keys(pins) && x.V1? && exists c :: Key(c) in pins && SameBlock(c, x)
    {
      var c :| c in Cids(pins) && x == ToCidV1(c);
      SameForm(c, x);
      var i :| 0 <= i < |pins| && pins[i] == Key(c);
    }
    forall x: Cid, c | x.V1? && Key(c) in pins && SameBlock(c, x)
      ensures x in Normalised(Cids(pins))
    {
      SameForm(c, x);
      assert c in Cids(pins);
    }
    forall x | x in Keys(pins)
      ensures x in Normalised(Cids(pins))
    {
      var i :| 0 <= i < |pins| && pins[i].Key? && x == ToCidV1(pins[i].cid);
      assert pins[i].cid in Cids(pins);
    }
  }

  lemma OutrightIsHeld(g: Graph, pins: Pins, bestEffort: seq<Cid>, x: Cid)
    ensures ReachedOutright(g, pins, bestEffort, x) <==> x.V1? && exists p :: HeldTo(g, pins, bestEffort, p, x)
  {
    var recursive, roots := Cids(pins.recursive), Cids(RootPins(bestEffort));
    assert forall c :: c in roots <==> c in bestEffort by {
      assert forall i :: 0 <= i < |bestEffort| ==> RootPins(bestEffort)[i] == Key(bestEffort[i]);
    }
    KeysAreCids(pins.recursive);
    KeysAreCids(RootPins(bestEffort));
    ReachesIffChain(g, {}, recursive, x);
    ReachesIffChain(g, {}, roots, x);
    assert forall p :: HeldTo(g, pins, bestEffort, p, x)
                       <==> ChainTo(g, {}, recursive, p, x) || ChainTo(g, {}, roots, p, x);
  }

  /**
   * A block is wanted exactly when links lead to it from a recursive pin or a best-effort root, when it is
   * pinned directly, or when links lead to it from an internal pin without leaving a direct-only block. CIDs
   * of both versions count, a version 0 CID as dag-pb.
   */
  lemma WantedMeans(g: Graph, pins: Pins, bestEffort: seq<Cid>, x: Cid)
    ensures Wanted(g, pins, bestEffort, x)
            <==> x.V1? && (|| (exists p :: HeldTo(g, pins, bestEffort, p, x))
                           || PinnedDirectly(pins, x)
                           || (exists p :: InternalTo(g, pins, bestEffort, p, x)))
    ensures x in DirectOnly(g, pins, bestEffort)
            <==> x.V1? && PinnedDirectly(pins, x) && !exists p :: HeldTo(g, pins, bestEffort, p, x)
  {
    var stop, internal := DirectOnly(g, pins, bestEffort), Cids(pins.internal);
    OutrightIsHeld(g, pins, bestEffort, x);
    KeysAreCids(pins.direct);
    KeysAreCids(pins.internal);
    ReachesIffChain(g, stop, internal, x);
    assert forall p :: InternalTo(g, pins, bestEffort, p, x) <==> ChainTo(g, stop, internal, p, x);
  }

  /** What a caller who pinned a block is promised, of keys that share no multihash with a wanted block. */
  lemma PinsAreSafe(g: Graph, pins: Pins, bestEffort: seq<Cid>, gone: set<Cid>)
    requires forall k, x :: k in gone && Wanted(g, pins, bestEffort, x) ==> k.hash != x.hash
    ensures forall k, p: seq<Cid> :: k in gone && Held(g, pins, bestEffort, p) ==> k.hash != p[|p| - 1].hash
    ensures forall k, c :: k in gone && (Key(c) in pins.direct || Key(c) in pins.internal) ==> k.hash != c.hash
  {
    forall k, p: seq<Cid> | k in gone && Held(g, pins, bestEffort, p)
      ensures k.hash != p[|p| - 1].hash
    {
      var x := ToCidV1(p[|p| - 1]);
      SameForm(p[|p| - 1], x);
      assert HeldTo(g, pins, bestEffort, p, x);
      WantedMeans(g, pins, bestEffort, x);
    }
    forall k, c | k in gone && (Key(c) in pins.direct || Key(c) in pins.internal)
      ensures k.hash != c.hash
    {
      var x := ToCidV1(c);
      SameForm(c, x);
      assert Key(c) in pins.internal ==> InternalTo(g, pins, bestEffort, [c], x);
      WantedMeans(g, pins, bestEffort, x);
    }
  }

  /** A block is readable when its CID is valid and its node holds links, or may be missing and is. */
  lemma ReadableMeans(g: Graph, mode: Mode, x: Cid)
    ensures Readable(g, mode, x)
            <==> && g.allows(x.hash)
                 && (|| (exists k :: NodeOf(g, x, k) && g.nodes[k].Links?)
                     || (mode.BestEffort? && forall k :: NodeOf(g, x, k) ==> g.nodes[k].NotFound?))
  {
    forall k
      ensures NodeOf(g, x, k) <==> k == ToCidV1(x) && k in g.nodes
    {
      NodeForm(g, x, k);
    }
  }

  // Reporting

  function RemovedKeys(output: seq<Report>): set<Cid> {
    set i | 0 <= i < |output| && output[i].KeyRemoved? :: output[i].key
  }

  function FailedKeys(output: seq<Report>): set<Cid> {
    set i | 0 <= i < |output| && output[i].CannotDeleteBlock? :: output[i].key
  }

  /** No key is reported twice. */
  ghost predicate OncePerKey(output: seq<Report>) {
    forall i, j :: 0 <= i < j < |output| && (output[i].KeyRemoved? || output[i].CannotDeleteBlock?) ==>
                     output[i] != output[j]
  }

  lemma ReportSnoc(output: seq<Report>, r: Report)
    ensures RemovedKeys(output + [r]) == RemovedKeys(output) + if r.KeyRemoved? then {r.key} else {}
    ensures FailedKeys(output + [r]) == FailedKeys(output) + if r.CannotDeleteBlock? then {r.key} else {}
  {
    var next := output + [r];
    assert next[|output|] == r;
    assert forall i :: 0 <= i < |output| ==> next[i] == output[i];
  }

  /** The reports that marking makes. */
  ghost predicate OnlyMarking(output: seq<Report>) {
    forall r :: r in output ==> r.CannotFetchLinks? || r.MarkingError?
  }

  /** Marking and per-key reports, before the closing one. */
  ghost predicate OnlySweeping(output: seq<Report>) {
    forall r :: r in output ==> r.CannotFetchLinks? || r.MarkingError? || r.KeyRemoved? || r.CannotDeleteBlock?
  }

  lemma MarkingReportsNoKey(output: seq<Report>)
    requires OnlyMarking(output)
    ensures Tally({}, {}).Reported(output)
  {
    assert forall i :: 0 <= i < |output| ==> output[i] in output;
  }

  /** The keys a sweep has deleted and those it failed to delete. */
  datatype Tally = Tally(gone: set<Cid>, stuck: set<Cid>) {
    ghost function Record(k: Cid, ok: bool): Tally {
      if ok then this.(gone := gone + {k}) else this.(stuck := stuck + {k})
    }

    ghost predicate Reported(output: seq<Report>) {
      RemovedKeys(output) == gone && FailedKeys(output) == stuck && OncePerKey(output)
    }

    lemma ReportedNow(k: Cid, ok: bool, output: seq<Report>)
      requires Reported(output) && k !in gone && k !in stuck
      ensures Record(k, ok).Reported(output + [if ok then KeyRemoved(k) else CannotDeleteBlock(k)])
    {
      ReportSnoc(output, if ok then KeyRemoved(k) else CannotDeleteBlock(k));
    }
  }

  /** The state of a sweep over `start` with `todo` still to come. */
  ghost predicate Swept(start: set<Cid>, raw: set<Cid>, todo: set<Cid>, blocks: set<Cid>, t: Tally) {
    && todo <= start
    && forall k {:trigger k in t.gone} {:trigger k in t.stuck} {:trigger k in blocks} ::
      if k in start && k !in todo && k !in raw
      then (k in t.gone <==> k !in blocks) && (k in t.stuck <==> k in blocks)
      else k !in t.gone && k !in t.stuck && (k in blocks <==> k in start)
  }

  lemma SweptStep(start: set<Cid>, raw: set<Cid>, todo: set<Cid>, blocks: set<Cid>, t: Tally, k: Cid)
    requires Swept(start, raw, todo, blocks, t) && k in todo
    ensures k !in t.gone && k !in t.stuck
    ensures k in raw ==> Swept(start, raw, todo - {k}, blocks, t)
    ensures k !in raw ==> Swept(start, raw, todo - {k}, blocks - {k}, t.Record(k, true))
    ensures k !in raw ==> Swept(start, raw, todo - {k}, blocks, t.Record(k, false))
  {
  }

  lemma SweptFacts(start: set<Cid>, raw: set<Cid>, todo: set<Cid>, blocks: set<Cid>, t: Tally)
    requires Swept(start, raw, todo, blocks, t)
    ensures t.gone == start - blocks && t.gone !! raw
    ensures todo == {} ==> t.stuck == blocks - raw
  {
  }

  class Collector {
    const graph: Graph
    /** The shared visited set, its members in CIDv1 form. */
    var marked: set<Cid>
    var errors: bool
    var cancelled: bool
    var output: seq<Report>
    /** The keys of the block store. */
    var blocks: set<Cid>

    constructor (graph: Graph, blocks: set<Cid>)
      ensures this.graph == graph && this.blocks == blocks
      ensures output == [] && !cancelled
    {
      this.graph := graph;
      this.blocks := blocks;
      marked, errors, cancelled, output := {}, false, false, [];
    }

    /** The context may be cancelled at any moment. */
    method Tick()
      modifies this`cancelled
      ensures old(cancelled) ==> cancelled
    {
      var now: bool := *;
      if now {
        cancelled := true;
      }
    }

    /** Offers a result; only a cancelled run may fail to deliver it. */
    method Send(r: Report) returns (sent: bool)
      modifies this`cancelled, this`output
      ensures old(cancelled) ==> cancelled
      ensures output == if sent then old(output) + [r] else old(output)
      ensures !sent ==> cancelled
    {
      Tick();
      var noticed: bool := *;
      sent := !(cancelled && noticed);
      if sent {
        output := output + [r];
      }
    }

    method FetchLinks(mode: Mode, k: Cid) returns (links: set<Cid>, failed: bool)
      modifies this`errors, this`cancelled, this`output
      ensures old(cancelled) ==> cancelled
      ensures old(errors) ==> errors
      ensures failed ==> cancelled
      ensures !failed ==> links == LinkSet(GetLinks(graph, k))
      ensures graph.allows(k.hash) ==> (errors <==> old(errors) || !Readable(graph, mode, k))
      ensures graph.allows(k.hash) && !failed ==>
                output == if Readable(graph, mode, k) then old(output) else old(output) + [CannotFetchLinks(k)]
      ensures OnlyMarking(old(output)) ==> OnlyMarking(output)
    {
      links, failed := {}, false;
      match GetLinks(graph, k) {
        case Links(found) =>
          links := set l | l in found;
        case fault =>
          if mode.Strict? || fault.Unreadable? {
            errors := true;
            var sent := Send(CannotFetchLinks(k));
            failed := !sent;
          }
      }
    }

    /** Validates the CID first; an invalid one fails the walk. */
    method VerifyGetLinks(mode: Mode, k: Cid) returns (links: set<Cid>, failed: bool)
      modifies this`errors, this`cancelled, this`output
      ensures old(cancelled) ==> cancelled
      ensures old(errors) ==> errors
      ensures failed ==> cancelled || !Readable(graph, mode, k)
      ensures !failed ==> links == LinkSet(GetLinks(graph, k))
      ensures errors && !old(errors) ==> !Readable(graph, mode, k)
      ensures !failed && !errors ==> Readable(graph, mode, k)
      ensures OnlyMarking(old(output)) ==> OnlyMarking(output)
    {
      if !graph.allows(k.hash) {
        return {}, true;
      }
      links, failed := FetchLinks(mode, k);
    }

    /** A worker takes one pending visit; it alone expands a block that this visit marks. */
    method Visit(ghost mode: Mode, todo: set<Cid>, open: set<Cid>,
                 ghost base: set<Cid>, ghost roots: set<Cid>, ghost universe: set<Cid>)
      returns (todo': set<Cid>, open': set<Cid>)
      requires todo != {}
      requires Explored(graph, base, roots, marked, Normalised(todo), open)
      requires !errors ==> Clean(graph, mode, base, marked, open)
      requires Normalised(todo) <= universe
      modifies this`marked, this`cancelled
      ensures old(cancelled) ==> cancelled
      ensures old(marked) <= marked <= old(marked) + universe
      ensures Explored(graph, base, roots, marked, Normalised(todo'), open')
      ensures Normalised(todo') <= universe
      ensures !errors ==> Clean(graph, mode, base, marked, open')
      ensures if marked == old(marked) then open' == open && |todo'| < |todo|
              else |universe - marked| < |universe - old(marked)|
    {
      var c :| c in todo;
      VisitStep(graph, base, roots, marked, todo, open, c);
      var k := ToCidV1(c);
      assert k in Normalised(todo);
      todo' := todo - {c};
      if k in marked {
        open' := open;
        assert marked + {k} == marked;
      } else {
        SmallerGap(universe, marked, k);
        marked, open' := marked + {k}, open + {k};
      }
      Tick();
    }

    /** A worker fetches the links of a block it marked and queues them. */
    method Expand(mode: Mode, todo: set<Cid>, open: set<Cid>,
                  ghost base: set<Cid>, ghost roots: set<Cid>, ghost universe: set<Cid>)
      returns (todo': set<Cid>, open': set<Cid>, failed: bool)
      requires open != {}
      requires Explored(graph, base, roots, marked, Normalised(todo), open)
      requires !errors ==> Clean(graph, mode, base, marked, open)
      requires Normalised(todo) <= universe
      requires forall x {:trigger Children(graph, x)} :: Children(graph, x) <= universe
      modifies this`errors, this`cancelled, this`output
      ensures old(cancelled) ==> cancelled
      ensures old(errors) ==> errors
      ensures failed ==> cancelled || Obstructed(graph, mode, base, roots)
      ensures errors && !old(errors) ==> Obstructed(graph, mode, base, roots)
      ensures !failed ==> Explored(graph, base, roots, marked, Normalised(todo'), open')
      ensures !failed && !errors ==> Clean(graph, mode, base, marked, open')
      ensures Normalised(todo') <= universe && |open'| < |open|
      ensures OnlyMarking(old(output)) ==> OnlyMarking(output)
    {
      var k :| k in open;
      assert Reaches(graph, base, roots, k);
      var links, bad := VerifyGetLinks(mode, k);
      ExpandStep(graph, base, roots, marked, todo, open, k);
      failed, open' := bad, open - {k};
      todo' := if bad then todo else todo + links;
      assert bad || Normalised(todo') == Normalised(todo) + Children(graph, k);
    }

    /** The workers take visits and expansions in any order until none is left. */
    method Drain(mode: Mode, root: Cid, ghost base: set<Cid>, ghost roots: set<Cid>) returns (failed: bool)
      requires ToCidV1(root) in roots && Explored(graph, base, roots, marked, Normalised({root}), {})
      requires !errors ==> Clean(graph, mode, base, marked, {})
      modifies this`marked, this`errors, this`cancelled, this`output
      ensures base <= marked
      ensures old(cancelled) ==> cancelled
      ensures old(errors) ==> errors
      ensures !failed ==> Explored(graph, base, roots, marked, Normalised({}), {})
      ensures !failed && !errors ==> Clean(graph, mode, base, marked, {})
      ensures failed || (errors && !old(errors)) ==> cancelled || Obstructed(graph, mode, base, roots)
      ensures OnlyMarking(old(output)) ==> OnlyMarking(output)
    {
      ghost var universe := Universe(graph, roots);
      var todo := {root};
      var open: set<Cid> := {};
      failed := false;
      while !failed && (todo != {} || open != {})
        invariant old(cancelled) ==> cancelled
        invariant old(errors) ==> errors
        invariant base <= marked
        invariant !failed ==> Explored(graph, base, roots, marked, Normalised(todo), open)
        invariant !failed && !errors ==> Clean(graph, mode, base, marked, open)
        invariant failed || (errors && !old(errors)) ==> cancelled || Obstructed(graph, mode, base, roots)
        invariant Normalised(todo) <= universe
        invariant OnlyMarking(old(output)) ==> OnlyMarking(output)
        decreases !failed, |universe - marked|, |open|, |todo|
      {
        var noticed: bool, visit: bool := *, *;
        if cancelled && noticed {
          failed := true;
        } else if todo != {} && (open == {} || visit) {
          todo, open := Visit(mode, todo, open, base, roots, universe);
        } else {
          todo, open, failed := Expand(mode, todo, open, base, roots, universe);
        }
      }
    }

    /** One walk from a root, on top of what the phase has explored so far. */
    method Walk(mode: Mode, root: Cid, ghost base: set<Cid>, ghost roots: set<Cid>) returns (failed: bool)
      requires Explored(graph, base, roots, marked, {}, {})
      requires !errors ==> Clean(graph, mode, base, marked, {})
      modifies this`marked, this`errors, this`cancelled, this`output
      ensures base <= marked
      ensures old(cancelled) ==> cancelled
      ensures old(errors) ==> errors
      ensures !failed ==> Explored(graph, base, roots + {ToCidV1(root)}, marked, {}, {})
      ensures !failed && !errors ==> Clean(graph, mode, base, marked, {})
      ensures failed || (errors && !old(errors)) ==> cancelled || Obstructed(graph, mode, base, roots + {ToCidV1(root)})
      ensures OnlyMarking(old(output)) ==> OnlyMarking(output)
    {
      WalkBegins(graph, base, roots, marked, root);
      assert Normalised({}) == {};
      failed := Drain(mode, root, base, roots + {ToCidV1(root)});
    }

    /**
     * Walks from every root the stream delivers. A cancelled run may see its stream close early and
     * return as if it were done.
     */
    method Descendants(mode: Mode, pins: seq<StreamedPin>) returns (failed: bool)
      modifies this`marked, this`errors, this`cancelled, this`output
      ensures old(cancelled) ==> cancelled
      ensures old(errors) ==> errors
      ensures !old(errors) && !cancelled ==> (failed || errors <==> PhaseFails(graph, mode, old(marked), pins))
      ensures !old(errors) && !cancelled && !failed && !errors ==>
                ExactlyReached(graph, old(marked), Keys(pins), marked)
      ensures OnlyMarking(old(output)) ==> OnlyMarking(output)
    {
      ghost var base := marked;
      for i := 0 to |pins|
        invariant old(cancelled) ==> cancelled
        invariant old(errors) ==> errors
        invariant Explored(graph, base, Keys(pins[..i]), marked, {}, {})
        invariant !errors ==> Clean(graph, mode, base, marked, {})
        invariant errors && !old(errors) ==> cancelled || Obstructed(graph, mode, base, Keys(pins))
        invariant !HasError(pins[..i])
        invariant OnlyMarking(old(output)) ==> OnlyMarking(output)
      {
        Tick();
        var noticed: bool, closed: bool := *, *;
        if cancelled && noticed {
          return !closed;
        }
        if pins[i].StreamError? {
          return true;
        }
        KeysSnoc(pins, i);
        failed := Walk(mode, pins[i].cid, base, Keys(pins[..i]));
        ObstructedMonotone(graph, mode, base, Keys(pins[..i + 1]), Keys(pins));
        if failed {
          return;
        }
      }
      assert pins[..|pins|] == pins;
      ExploredIsExact(graph, base, Keys(pins), marked);
      failed := false;
    }

    /** Reports an error of a phase; false when the run was cancelled instead. */
    method ReportPhase(failed: bool) returns (alive: bool)
      modifies this`errors, this`cancelled, this`output
      ensures old(cancelled) ==> cancelled
      ensures errors <==> old(errors) || failed
      ensures !alive ==> cancelled
      ensures OnlyMarking(old(output)) ==> OnlyMarking(output)
    {
      alive := true;
      if failed {
        errors := true;
        alive := Send(MarkingError);
      }
    }

    /** Direct pins are added without being walked; a broken stream gives up at once. */
    method MarkDirect(pins: seq<StreamedPin>) returns (ok: bool)
      modifies this`marked, this`cancelled
      ensures old(cancelled) ==> cancelled
      ensures !cancelled ==> (ok <==> !HasError(pins))
      ensures !cancelled && ok ==> marked == old(marked) + Keys(pins)
    {
      for i := 0 to |pins|
        invariant old(cancelled) ==> cancelled
        invariant !HasError(pins[..i])
        invariant marked == old(marked) + Keys(pins[..i])
      {
        Tick();
        var closed: bool := *;
        if cancelled && closed {
          return true;
        }
        if pins[i].StreamError? {
          return false;
        }
        KeysSnoc(pins, i);
        marked := marked + {ToCidV1(pins[i].cid)};
      }
      assert pins[..|pins|] == pins;
      ok := true;
    }

    /**
     * The marked set. Unless the run was cancelled, marking succeeds exactly on a markable store and
     * then yields exactly the wanted blocks, whatever the order of roots, visits and expansions.
     */
    method ColoredSet(pins: Pins, bestEffort: seq<Cid>) returns (r: Result<set<Cid>, Report>)
      modifies this`marked, this`errors, this`cancelled, this`output
      ensures old(cancelled) ==> cancelled
      ensures !cancelled ==> (r.Ok? <==> Markable(graph, pins, bestEffort))
      ensures !cancelled && r.Ok? ==> forall x :: x in r.value <==> Wanted(graph, pins, bestEffort, x)
      ensures r.Err? ==> r.error == MarkingError || r.error == CannotFetchAllLinks
      ensures !cancelled && r.Err? ==> (r.error == MarkingError <==> HasError(pins.direct))
      ensures OnlyMarking(old(output)) ==> OnlyMarking(output)
    {
      marked, errors := {}, false;
      var failed := Descendants(Strict, pins.recursive);
      var alive := ReportPhase(failed);
      if !alive {
        return Err(MarkingError);
      }
      ghost var m1, failed1 := marked, errors;
      failed := Descendants(BestEffort, RootPins(bestEffort));
      alive := ReportPhase(failed);
      if !alive {
        return Err(MarkingError);
      }
      ghost var m2, failed2 := marked, errors;
      var ok := MarkDirect(pins.direct);
      if !ok {
        return Err(MarkingError);
      }
      ghost var m3 := marked;
      failed := Descendants(Strict, pins.internal);
      alive := ReportPhase(failed);
      if !alive {
        return Err(MarkingError);
      }
      if !cancelled {
        PhasesCombine(graph, pins, bestEffort, m1, m2, m3, marked, failed1, failed2, errors);
      }
      return if errors then Err(CannotFetchAllLinks) else Ok(marked);
    }

    /** Projects the marked set to raw CIDs, the form in which the block store names its keys. */
    method ToRawCids(s: set<Cid>) returns (raw: set<Cid>)
      ensures forall k :: k in raw <==> k == ToRaw(k) && exists c :: c in s && c.hash == k.hash
    {
      var rest := s;
      raw := {};
      while rest != {}
        invariant rest <= s
        invariant forall k :: k in raw <==> k == ToRaw(k) && exists c :: c in s - rest && c.hash == k.hash
      {
        var c :| c in rest;
        assert s - (rest - {c}) == (s - rest) + {c};
        rest, raw := rest - {c}, raw + {ToRaw(c)};
      }
      assert s - rest == s;
    }

    /** Deleting may fail, and then leaves the block in place. */
    method DeleteBlock(k: Cid) returns (ok: bool)
      modifies this`blocks
      ensures blocks == if ok then old(blocks) - {k} else old(blocks)
    {
      ok := *;
      if ok {
        blocks := blocks - {k};
      }
    }

    /** Deletes one key and reports it, unless a cancelled run no longer delivers reports. */
    method SweepKey(k: Cid, ghost t: Tally) returns (ok: bool, sent: bool)
      requires t.Reported(output) && k !in t.gone && k !in t.stuck
      modifies this`blocks, this`cancelled, this`output
      ensures old(cancelled) ==> cancelled
      ensures blocks == if ok then old(blocks) - {k} else old(blocks)
      ensures sent ==> t.Record(k, ok).Reported(output)
      ensures !sent ==> cancelled && t.Reported(output)
      ensures OnlySweeping(old(output)) ==> OnlySweeping(output)
    {
      ok := DeleteBlock(k);
      t.ReportedNow(k, ok, output);
      sent := Send(if ok then KeyRemoved(k) else CannotDeleteBlock(k));
    }

    /** Deletes every listed key outside `raw`, in any order, until done or cancelled. */
    method DeleteUnmarked(raw: set<Cid>) returns (failures: bool, ghost t: Tally, ghost left: set<Cid>)
      requires OnlyMarking(output)
      modifies this`blocks, this`cancelled, this`output
      ensures old(cancelled) ==> cancelled && blocks == old(blocks)
      ensures Swept(old(blocks), raw, left, blocks, t) && (!cancelled ==> left == {})
      ensures failures <==> t.stuck != {}
      ensures OncePerKey(output) && RemovedKeys(output) <= t.gone
      ensures !cancelled ==> t.Reported(output)
      ensures OnlySweeping(output)
    {
      var todo := blocks;
      failures, t := false, Tally({}, {});
      MarkingReportsNoKey(output);
      while !cancelled && todo != {}
        invariant old(cancelled) ==> cancelled && blocks == old(blocks)
        invariant Swept(old(blocks), raw, todo, blocks, t)
        invariant failures <==> t.stuck != {}
        invariant t.Reported(output) && OnlySweeping(output)
        decreases |todo|
      {
        var noticed: bool := *;
        Tick();
        if cancelled && noticed {
          break;
        }
        var k :| k in todo;
        SweptStep(old(blocks), raw, todo, blocks, t, k);
        todo := todo - {k};
        if k !in raw {
          var ok, sent := SweepKey(k, t);
          failures, t := failures || !ok, t.Record(k, ok);
          if !sent {
            break;
          }
        }
      }
      left := todo;
    }

    method Sweep(raw: set<Cid>)
      requires OnlyMarking(output)
      modifies this`blocks, this`cancelled, this`output
      ensures old(cancelled) ==> cancelled && blocks == old(blocks)
      ensures blocks <= old(blocks) && old(blocks) - blocks !! raw
      ensures OncePerKey(output) && RemovedKeys(output) <= old(blocks) - blocks
      ensures !cancelled ==> RemovedKeys(output) == old(blocks) - blocks
      ensures !cancelled ==> FailedKeys(output) == blocks - raw
      ensures !cancelled ==> (CannotDeleteSomeBlocks in output <==> blocks - raw != {})
      ensures CannotListKeys !in output
    {
      var failures, t, left := DeleteUnmarked(raw);
      SweptFacts(old(blocks), raw, left, blocks, t);
      if failures {
        ReportSnoc(output, CannotDeleteSomeBlocks);
        var sent := Send(CannotDeleteSomeBlocks);
      }
    }

    /**
     * A whole run. Under every order of work and every moment of cancellation, a block is deleted only
     * when the store was markable and no wanted block shares its multihash; a run that is not cancelled
     * deletes all the others it can and reports exactly that.
     */
    method GC(pins: Pins, bestEffort: seq<Cid>)
      requires forall k :: k in blocks ==> k == V1(0x55, k.hash)
      modifies this`marked, this`errors, this`blocks, this`cancelled, this`output
      ensures blocks <= old(blocks)
      ensures blocks != old(blocks) ==> Markable(graph, pins, bestEffort)
      ensures forall k, x :: k in old(blocks) - blocks && Wanted(graph, pins, bestEffort, x) ==> k.hash != x.hash
      ensures forall k, p: seq<Cid> :: k in old(blocks) - blocks && Held(graph, pins, bestEffort, p) ==>
                k.hash != p[|p| - 1].hash
      ensures forall k, c :: k in old(blocks) - blocks && (Key(c) in pins.direct || Key(c) in pins.internal) ==>
                k.hash != c.hash
      ensures OncePerKey(output) && RemovedKeys(output) <= old(blocks) - blocks
      ensures !cancelled ==> RemovedKeys(output) == old(blocks) - blocks
      ensures !cancelled && !Markable(graph, pins, bestEffort) ==>
                output != [] &&
                output[|output| - 1] == if HasError(pins.direct) then MarkingError else CannotFetchAllLinks
      ensures CannotListKeys in output ==> blocks == old(blocks)
      ensures !cancelled && Markable(graph, pins, bestEffort) && CannotListKeys !in output ==>
                forall k :: k in blocks <==>
                  k in old(blocks) && (k in FailedKeys(output) || MultihashWanted(graph, pins, bestEffort, k))
      ensures !cancelled ==> (CannotDeleteSomeBlocks in output <==> FailedKeys(output) != {})
    {
      output := [];
      var set0 := ColoredSet(pins, bestEffort);
      if set0.Err? {
        MarkingReportsNoKey(output);
        ReportSnoc(output, set0.error);
        var sent := Send(set0.error);
        return;
      }
      var raw := ToRawCids(set0.value);
      Tick();
      var listed: bool := *;
      if !listed {
        MarkingReportsNoKey(output);
        ReportSnoc(output, CannotListKeys);
        var sent := Send(CannotListKeys);
        return;
      }
      Sweep(raw);
      PinsAreSafe(graph, pins, bestEffort, old(blocks) - blocks);
    }
  }
}
