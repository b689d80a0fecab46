/** Shared repositories: one open repository per key, closed when its last handle is. */
module OnlyOne {

  type Key = string

  const TWO32: nat := 0x1_0000_0000

  /** A 32-bit counter that counts up and down from zero. */
  type Counter = n: nat | n < TWO32

  function Up(n: Counter): Counter {
    if n == TWO32 - 1 then 0 else n + 1
  }

  function Down(n: Counter): Counter {
    if n == 0 then TWO32 - 1 else n - 1
  }

  /** What the counter shows for `n` things. */
  ghost function Wrapped(n: nat): (c: Counter)
    ensures n < TWO32 ==> c == n
  {
    if n == 0 then 0 else Up(Wrapped(n - 1))
  }

  lemma {:induction false} WrappedIsModulo(n: nat)
    ensures Wrapped(n) == n % 0x1_0000_0000
  {
    if n == 0 {
    } else {
      WrappedIsModulo(n - 1);
    }
  }

  /** A reference embeds the repository it opened; `closes` counts how often that was closed. */
  class Ref {
    const key: Key
    var refs: Counter
    var closes: nat

    constructor (key: Key)
      ensures this.key == key && refs == 0 && closes == 0
    {
      this.key, refs, closes := key, 0, 0;
    }
  }

  class Registry {
    var active: map<Key, Ref>
    /** The handles that are out on each reference ever made. */
    ghost var handles: map<Ref, nat>

    constructor ()
      ensures Valid() && handles == map[]
    {
      active, handles := map[], map[];
    }

    /**
     * A reference is active exactly while handles are out, which its counter then counts modulo 2^32; its
     * repository is open until the last of them is closed, and is closed once.
     */
    ghost predicate RefOk(r: Ref)
      requires r in handles
      reads this, r
    {
      && (handles[r] > 0 <==> r.key in active && active[r.key] == r)
      && (handles[r] > 0 ==> r.refs == Wrapped(handles[r]))
      && r.closes == if handles[r] > 0 then 0 else 1
    }

    ghost predicate Valid()
      reads this, handles.Keys
    {
      && (forall k :: k in active ==> active[k] in handles && active[k].key == k)
      && (forall r :: r in handles ==> RefOk(r))
    }

    /** One more handle on an active reference. */
    method Share(r: Ref)
      requires Valid() && r in handles && handles[r] > 0
      modifies this`handles, r
      ensures Valid() && handles == old(handles)[r := old(handles[r]) + 1]
    {
      assert RefOk(r);
      r.refs := Up(r.refs);
      handles := handles[r := handles[r] + 1];
      assert RefOk(r);
      assert forall q :: q in handles && q != r && old(RefOk(q)) ==> RefOk(q);
    }

    /** `opens` tells whether the caller's open function would succeed. */
    method Open(key: Key, opens: bool) returns (r: Ref?)
      requires Valid()
      modifies this, active.Values
      ensures Valid()
      ensures r == null <==> key !in old(active) && !opens
      ensures r == null ==> active == old(active) && handles == old(handles)
      ensures r != null && key in old(active) ==>
                && r == old(active[key]) && active == old(active)
                && handles == old(handles)[r := old(handles[active[key]]) + 1]
      ensures r != null && key !in old(active) ==>
                fresh(r) && r.key == key && active == old(active)[key := r] && handles == old(handles)[r := 1]
    {
      if key in active {
        assert RefOk(active[key]);
        r := active[key];
        Share(r);
      } else if opens {
        r := new Ref(key);
        r.refs := Up(r.refs);
        active, handles := active[key := r], handles[r := 1];
        assert RefOk(r);
        assert forall q :: q in handles && q != r && old(RefOk(q)) ==> RefOk(q);
      } else {
        r := null;
      }
    }

    /**
     * Closing a handle, or closing once too often. The repository is closed exactly when the counter says
     * one, and the registry stays right exactly when that is when one handle is out.
     */
    method Close(r: Ref)
      requires Valid() && r in handles
      modifies this, r
      ensures handles == old(handles)[r := if old(handles[r]) > 0 then old(handles[r]) - 1 else 0]
      ensures active == if old(r.refs) == 1 then old(active) - {r.key} else old(active)
      ensures r.closes == if old(r.refs) == 1 then old(r.closes) + 1 else old(r.closes)
      ensures Valid() <==> (old(r.refs) == 1 <==> old(handles[r]) == 1)
    {
      assert RefOk(r);
      handles := handles[r := if handles[r] > 0 then handles[r] - 1 else 0];
      r.refs := Down(r.refs);
      if r.refs == 0 {
        active := active - {r.key};
        r.closes := r.closes + 1;
      }
      if old(r.refs) == 1 <==> old(handles[r]) == 1 {
        assert RefOk(r);
        assert forall q :: q in handles && q != r && old(RefOk(q)) ==> RefOk(q);
      } else {
        assert !RefOk(r);
      }
    }

    /** The handles held are the handles that are out. */
    ghost predicate Outstanding(held: multiset<Ref>)
      reads this
    {
      && (forall r :: r in handles ==> held[r] == handles[r])
      && (forall r :: r in held ==> r in handles)
    }

    method Acquire(held: multiset<Ref>, key: Key, opens: bool) returns (held': multiset<Ref>)
      requires Valid() && Outstanding(held)
      modifies this, handles.Keys
      ensures Valid() && Outstanding(held') && |held'| <= |held| + 1
      ensures fresh(handles.Keys - old(handles.Keys))
    {
      var r := Open(key, opens);
      held' := if r == null then held else held + multiset{r};
    }

    method Release(held: multiset<Ref>) returns (held': multiset<Ref>)
      requires Valid() && Outstanding(held) && 0 < |held| <= TWO32
      modifies this, handles.Keys
      ensures Valid() && Outstanding(held') && |held'| < |held|
      ensures handles.Keys == old(handles.Keys)
    {
      var r :| r in held;
      assert RefOk(r) && 0 < handles[r] <= |held|;
      assert handles[r] == TWO32 ==> Wrapped(handles[r]) == 0;
      Close(r);
      held' := held - multiset{r};
    }

    /**
     * Any run that opens keys in the given order, some opens failing, and closes each handle once, at any
     * moment after it was handed out, with up to 2^32 handles out at a time. In the end nothing is active and
     * every repository was closed once.
     */
    method Session(opens: seq<(Key, bool)>)
      requires Valid() && handles == map[]
      modifies this
      ensures Valid() && active == map[]
      ensures forall r :: r in handles ==> r.closes == 1
    {
      var next, held: multiset<Ref> := 0, multiset{};
      while next < |opens| || held != multiset{}
        invariant Valid() && fresh(handles.Keys)
        invariant next <= |opens| && |held| <= TWO32 && Outstanding(held)
        decreases 2 * (|opens| - next) + |held|
      {
        var open: bool := *;
        if next < |opens| && |held| < TWO32 && (open || held == multiset{}) {
          held := Acquire(held, opens[next].0, opens[next].1);
          next := next + 1;
        } else {
          held := Release(held);
        }
      }
      assert forall k :: k in active ==> RefOk(active[k]);
    }
  }
}
