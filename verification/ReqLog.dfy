/** The log of command requests, compacted in place when entries grow old. */
module ReqLog {

  class Entry {
    var active: bool
    var endTime: int
    var id: int

    constructor (active: bool, endTime: int)
      ensures this.active == active && this.endTime == endTime
    {
      this.active, this.endTime, id := active, endTime, 0;
    }
  }

  /** A request begins, ends, or the finished ones are cleared. */
  datatype Action = Begin(active: bool, endTime: int) | End(i: nat) | Clear

  /** The clock does not run back, and a request that begins finished ended before. */
  ghost predicate Orderly(script: seq<(Action, int)>) {
    && (forall i, j :: 0 <= i < j < |script| ==> script[i].1 <= script[j].1)
    && forall i :: 0 <= i < |script| && script[i].0.Begin? && !script[i].0.active ==> script[i].0.endTime <= script[i].1
  }

  predicate Keeps(e: Entry, keep: int, now: int)
    reads e
  {
    e.active || e.endTime + keep > now
  }

  /** The entries that are active or not yet old. */
  ghost function Living(entries: seq<Entry>, keep: int, now: int): set<Entry>
    reads entries
  {
    set i | 0 <= i < |entries| && Keeps(entries[i], keep, now) :: entries[i]
  }

  /** The first `n` entries without those outside `living`, in their order. */
  ghost function Filter(entries: seq<Entry>, n: nat, living: set<Entry>): seq<Entry>
    requires n <= |entries|
  {
    if n == 0 then []
    else Filter(entries, n - 1, living) + if entries[n - 1] in living then [entries[n - 1]] else []
  }

  /** What a cleanup leaves. */
  ghost function Kept(entries: seq<Entry>, keep: int, now: int): seq<Entry>
    reads entries
  {
    Filter(entries, |entries|, Living(entries, keep, now))
  }

  ghost predicate Among(entries: seq<Entry>, n: nat, e: Entry)
    requires n <= |entries|
  {
    exists i :: 0 <= i < n && entries[i] == e
  }

  lemma {:induction false} FilterMembers(entries: seq<Entry>, n: nat, living: set<Entry>)
    requires n <= |entries|
    ensures forall k :: 0 <= k < |Filter(entries, n, living)| ==> Filter(entries, n, living)[k] in living
    ensures forall k :: 0 <= k < |Filter(entries, n, living)| ==> Among(entries, n, Filter(entries, n, living)[k])
    ensures forall i :: 0 <= i < n && entries[i] in living ==> entries[i] in Filter(entries, n, living)
  {
    if n > 0 {
      FilterMembers(entries, n - 1, living);
      var before, kept := Filter(entries, n - 1, living), Filter(entries, n, living);
      forall k | 0 <= k < |kept|
        ensures kept[k] in living && Among(entries, n, kept[k])
      {
        if k < |before| {
          assert kept[k] == before[k] && Among(entries, n - 1, before[k]);
        } else {
          assert kept[k] == entries[n - 1];
        }
      }
    }
  }

  ghost predicate Ascending(entries: seq<Entry>)
    reads entries
  {
    forall i, j :: 0 <= i < j < |entries| ==> entries[i].id < entries[j].id
  }

  /** The living among the first `n` entries have ascending identifiers. */
  ghost predicate LivingAscend(entries: seq<Entry>, n: nat, living: set<Entry>)
    requires n <= |entries|
    reads entries
  {
    forall i, j :: 0 <= i < j < n && entries[i] in living && entries[j] in living ==> entries[i].id < entries[j].id
  }

  lemma {:induction false} FilterAscends(entries: seq<Entry>, n: nat, living: set<Entry>)
    requires n <= |entries| && LivingAscend(entries, n, living)
    ensures Ascending(Filter(entries, n, living))
  {
    if n == 0 {
    } else {
      FilterAscends(entries, n - 1, living);
      FilterMembers(entries, n - 1, living);
      var before := Filter(entries, n - 1, living);
      forall k | 0 <= k < |before| && entries[n - 1] in living
        ensures before[k].id < entries[n - 1].id
      {
        assert Among(entries, n - 1, before[k]);
      }
    }
  }

  /** An entry that is listed twice and stays is left twice. */
  lemma {:induction false} TwiceStaysTwice(entries: seq<Entry>, n: nat, living: set<Entry>, i: nat, j: nat)
    requires i < j < n <= |entries| && entries[i] == entries[j] && entries[i] in living
    ensures !Ascending(Filter(entries, n, living))
    decreases n
  {
    var before, kept := Filter(entries, n - 1, living), Filter(entries, n, living);
    if j < n - 1 {
      TwiceStaysTwice(entries, n - 1, living, i, j);
      var a, b :| 0 <= a < b < |before| && before[a].id >= before[b].id;
      assert kept[a] == before[a] && kept[b] == before[b];
    } else {
      FilterMembers(entries, n - 1, living);
      var a :| 0 <= a < |before| && before[a] == entries[i];
      assert kept[a] == before[a] && kept[|before|] == entries[j];
    }
  }

  /** Clearing with no keep time leaves only active entries exactly when no finished one ends in the future. */
  lemma ClearedIsActive(entries: seq<Entry>, now: int)
    ensures forall i :: 0 <= i < |entries| && entries[i].active ==> entries[i] in Kept(entries, 0, now)
    ensures (forall k :: 0 <= k < |Kept(entries, 0, now)| ==> Kept(entries, 0, now)[k].active)
            <==> forall i :: 0 <= i < |entries| && !entries[i].active ==> entries[i].endTime <= now
  {
    var living, kept := Living(entries, 0, now), Kept(entries, 0, now);
    FilterMembers(entries, |entries|, living);
    forall i | 0 <= i < |entries| && !entries[i].active && entries[i].endTime > now
      ensures exists k :: 0 <= k < |kept| && !kept[k].active
    {
      assert entries[i] in living && entries[i] in kept;
    }
    forall k | 0 <= k < |kept| && !kept[k].active
      ensures exists i :: 0 <= i < |entries| && !entries[i].active && entries[i].endTime > now
    {
      assert kept[k] in living && Among(entries, |entries|, kept[k]);
    }
  }

  ghost predicate Recorded(requests: seq<Entry>, added: set<Entry>) {
    forall i :: 0 <= i < |requests| ==> requests[i] in added
  }

  /** Identifiers ascend, and every entry that was added and is still active is in the log. */
  ghost predicate LogOk(requests: seq<Entry>, added: set<Entry>, nextID: int)
    requires Recorded(requests, added)
    reads added
  {
    && (forall i :: 0 <= i < |requests| ==> requests[i].id < nextID)
    && (forall e :: e in added && e.active ==> e in requests)
    && Ascending(requests)
  }

  lemma CleanupKeepsLog(requests: seq<Entry>, added: set<Entry>, nextID: int, keep: int, now: int)
    requires Recorded(requests, added) && LogOk(requests, added, nextID)
    ensures var kept := Kept(requests, keep, now); Recorded(kept, added) && LogOk(kept, added, nextID)
  {
    FilterMembers(requests, |requests|, Living(requests, keep, now));
    assert LivingAscend(requests, |requests|, Living(requests, keep, now));
    FilterAscends(requests, |requests|, Living(requests, keep, now));
  }

  /** The log is in order, up to the places of `e`. */
  ghost predicate OkAround(requests: seq<Entry>, added: set<Entry>, nextID: int, e: Entry)
    requires Recorded(requests, added)
    reads added
  {
    && (forall i :: 0 <= i < |requests| ==> requests[i].id < nextID)
    && (forall a :: a in added && a.active ==> a in requests)
    && (forall i, j :: 0 <= i < j < |requests| && requests[i] != e && requests[j] != e ==>
          requests[i].id < requests[j].id)
  }

  /** A cleanup that drops `e` leaves a log in order. */
  lemma DroppingRestores(requests: seq<Entry>, added: set<Entry>, nextID: int, e: Entry, keep: int, now: int)
    requires Recorded(requests, added) && OkAround(requests, added, nextID, e) && !Keeps(e, keep, now)
    ensures var kept := Kept(requests, keep, now); Recorded(kept, added) && LogOk(kept, added, nextID)
  {
    var living := Living(requests, keep, now);
    FilterMembers(requests, |requests|, living);
    assert LivingAscend(requests, |requests|, living);
    FilterAscends(requests, |requests|, living);
  }

  class RequestLog {
    /** The requests are the first `len` cells. */
    var buf: array<Entry>
    var len: nat
    var nextID: int
    var keep: int
    /** All entries ever added. */
    ghost var added: set<Entry>

    constructor (keep: int)
      ensures Valid() && Requests() == [] && added == {} && this.keep == keep && fresh(buf)
    {
      buf, len, nextID, this.keep, added := new Entry[0], 0, 0, keep, {};
    }

    ghost function Requests(): seq<Entry>
      requires len <= buf.Length
      reads this, buf
    {
      buf[..len]
    }

    ghost predicate Valid()
      reads this, buf, added
    {
      len <= buf.Length && Recorded(buf[..len], added) && LogOk(buf[..len], added, nextID)
    }

    /** Compaction in place, with a read and a write index. */
    method Compact(now: int)
      requires len <= buf.Length
      modifies this`len, buf
      ensures len <= buf.Length && Requests() == old(Kept(Requests(), keep, now))
    {
      ghost var all := buf[..len];
      ghost var living := Living(all, keep, now);
      var i, j := 0, 0;
      while j < len
        invariant i <= j <= len == old(len)
        invariant buf[j..len] == all[j..]
        invariant buf[..i] == Filter(all, j, living)
      {
        assert buf[j] == buf[j..len][0] == all[j];
        if buf[j].active || buf[j].endTime + keep > now {
          assert all[j] in living;
          buf[i] := buf[j];
          i := i + 1;
          assert buf[..i] == Filter(all, j, living) + [all[j]];
        }
        j := j + 1;
        assert buf[j..len] == all[j..];
      }
      len := i;
    }

    /** A cleanup now would leave a valid log. */
    ghost predicate CleansWell(now: int)
      requires len <= buf.Length && Recorded(Requests(), added)
      reads this, buf, added
    {
      var kept := Kept(Requests(), keep, now);
      Recorded(kept, added) && LogOk(kept, added, nextID)
    }

    method Cleanup(now: int)
      requires len <= buf.Length && Recorded(Requests(), added)
      modifies this`len, buf
      ensures len <= buf.Length && Requests() == Kept(old(Requests()), keep, now)
      ensures Valid() <==> old(CleansWell(now))
      ensures Ascending(Requests()) <==> old(Ascending(Kept(Requests(), keep, now)))
      ensures old(Valid()) ==> Valid()
    {
      ghost var all := Requests();
      ghost var living := Living(all, keep, now);
      if Valid() {
        CleanupKeepsLog(all, added, nextID, keep, now);
      }
      ghost var kept := Kept(all, keep, now);
      FilterMembers(all, |all|, living);
      assert forall k :: 0 <= k < |kept| ==> kept[k] in added;
      Compact(now);
      assert Living(all, keep, now) == living;
      assert forall k :: 0 <= k < |kept| ==> kept[k].id == old(kept[k].id);
    }

    /** Compacts every tenth time, by the length of the log. */
    method MaybeCleanup(now: int)
      requires len <= buf.Length && Recorded(Requests(), added)
      modifies this`len, buf
      ensures len <= buf.Length
      ensures old(Valid()) ==> Valid()
      ensures old(len) % 10 != 0 ==> Requests() == old(Requests()) && (Valid() <==> old(Valid()))
      ensures old(len) % 10 == 0 ==>
                Requests() == Kept(old(Requests()), keep, now) && (Valid() <==> old(CleansWell(now)))
      ensures old(len) % 10 == 0 ==> (Ascending(Requests()) <==> old(Ascending(Kept(Requests(), keep, now))))
    {
      if len % 10 == 0 {
        Cleanup(now);
      }
    }

    /** Appends in place while there is room, and else in a larger copy. */
    method Append(e: Entry)
      requires len <= buf.Length
      modifies this`buf, this`len, buf
      ensures len <= buf.Length && Requests() == old(Requests()) + [e]
      ensures buf == old(buf) || fresh(buf)
    {
      if len == buf.Length {
        var larger := new Entry[2 * len + 1](_ => e);
        forall i | 0 <= i < len {
          larger[i] := buf[i];
        }
        buf := larger;
      }
      buf[len] := e;
      len := len + 1;
    }

    /** Numbers an entry that is about to be appended. */
    method Number(e: Entry, ghost all: seq<Entry>)
      requires Valid() && all == buf[..len] + [e]
      modifies this`nextID, this`added, e`id
      ensures e.id == old(nextID) && nextID == old(nextID) + 1 && added == old(added) + {e}
      ensures Recorded(all, added) && OkAround(all, added, nextID, e)
      ensures Ascending(all) <==> e !in all[..|all| - 1]
    {
      assert all[..|all| - 1] == buf[..len];
      e.id := nextID;
      nextID := nextID + 1;
      added := added + {e};
      if i :| 0 <= i < |all| - 1 && all[i] == e {
        assert all[|all| - 1] == e;
      }
    }

    /** Numbers an entry and appends it: in order exactly when the entry was not in the log already. */
    method Enter(e: Entry)
      requires Valid()
      modifies this, buf, e`id
      ensures len <= buf.Length && (buf == old(buf) || fresh(buf)) && Requests() == old(Requests()) + [e]
      ensures e.id == old(nextID) && nextID == old(nextID) + 1 && keep == old(keep) && added == old(added) + {e}
      ensures Recorded(Requests(), added) && OkAround(Requests(), added, nextID, e)
      ensures Ascending(Requests()) <==> e !in old(Requests())
      ensures Valid() <==> e !in old(Requests())
    {
      ghost var all := buf[..len] + [e];
      Number(e, all);
      AppendNumbered(e, all);
      assert all[..|all| - 1] == old(Requests());
    }

    /** Appending touches no entry, so what holds of the entries stays. */
    method AppendNumbered(e: Entry, ghost all: seq<Entry>)
      requires len <= buf.Length && all == buf[..len] + [e] && Recorded(all, added) && OkAround(all, added, nextID, e)
      modifies this`buf, this`len, buf
      ensures len <= buf.Length && buf[..len] == all && (buf == old(buf) || fresh(buf))
      ensures OkAround(all, added, nextID, e) && (Ascending(all) <==> old(Ascending(all)))
    {
      ghost var ids := map x | x in added :: x.id;
      ghost var up := Ascending(all);
      Append(e);
      assert forall x :: x in added ==> x.id == ids[x];
      assert up == Ascending(all);
    }

    /**
     * Adding keeps the log valid exactly when the entry was not in it already or the cleanup that the
     * addition triggers drops the entry; the numbers fail to ascend otherwise.
     */
    method AddEntry(e: Entry, now: int)
      requires Valid()
      modifies this, buf, e`id
      ensures len <= buf.Length && (buf == old(buf) || fresh(buf))
      ensures e.id == old(nextID) && nextID == old(nextID) + 1 && keep == old(keep) && added == old(added) + {e}
      ensures var all := old(Requests()) + [e];
              && Requests() == (if !e.active && |all| % 10 == 0 then Kept(all, keep, now) else all)
              && (Ascending(Requests()) <==> Valid())
              && (Valid() <==> e !in old(Requests()) || (!e.active && |all| % 10 == 0 && e.endTime + keep <= now))
    {
      ghost var before := Requests();
      Enter(e);
      if !e.active {
        SettleReadded(before, e, now);
        MaybeCleanup(now);
      }
    }

    /** What a cleanup makes of a log whose last entry was appended while already in it. */
    lemma SettleReadded(before: seq<Entry>, e: Entry, now: int)
      requires len <= buf.Length && Requests() == before + [e] && Recorded(Requests(), added)
      requires OkAround(Requests(), added, nextID, e)
      ensures e in before ==> (CleansWell(now) <==> !Keeps(e, keep, now))
      ensures e in before ==> (Ascending(Kept(Requests(), keep, now)) <==> !Keeps(e, keep, now))
    {
      var all := Requests();
      if !Keeps(e, keep, now) {
        DroppingRestores(all, added, nextID, e, keep, now);
      } else if i :| 0 <= i < |before| && before[i] == e {
        assert all[i] == e && all[|before|] == e && all[i] in Living(all, keep, now);
        TwiceStaysTwice(all, |all|, Living(all, keep, now), i, |before|);
      }
    }

    /** Marks an entry finished, as of now, before it may be cleaned up. */
    method Finish(e: Entry, now: int)
      requires Valid()
      modifies this`len, buf, e
      ensures Valid() && !e.active && e.endTime == now && e.id == old(e.id)
      ensures old(len) % 10 != 0 ==> Requests() == old(Requests())
      ensures old(len) % 10 == 0 ==> Requests() == Kept(old(Requests()), keep, now)
    {
      e.active := false;
      e.endTime := now;
      assert Valid();
      MaybeCleanup(now);
    }

    method SetKeepTime(keep: int)
      requires Valid()
      modifies this`keep
      ensures Valid() && this.keep == keep
    {
      this.keep := keep;
      assert buf[..len] == old(buf[..len]);
    }

    /** No finished entry ends after `now`. */
    ghost predicate Past(now: int)
      reads this, added
    {
      forall e :: e in added && !e.active ==> e.endTime <= now
    }

    /** Of all entries ever added, the log holds exactly the active ones. */
    ghost predicate OnlyActive()
      requires len <= buf.Length
      reads this, buf, added
    {
      forall e :: e in added ==> (e in Requests() <==> e.active)
    }

    /** Cleans up as if nothing were to be kept, then restores the keep time. */
    method ClearInactive(now: int)
      requires Valid()
      modifies this`len, this`keep, buf
      ensures Valid() && keep == old(keep) && Requests() == Kept(old(Requests()), 0, now)
    {
      var k := keep;
      SetKeepTime(0);
      Cleanup(now);
      SetKeepTime(k);
    }

    /** With the clock past all ends, clearing leaves exactly the active entries. */
    method ClearPast(now: int)
      requires Valid()
      modifies this`len, this`keep, buf
      ensures Valid() && keep == old(keep) && Requests() == Kept(old(Requests()), 0, now)
      ensures Past(now) ==> OnlyActive()
    {
      ghost var all := Requests();
      ClearInactive(now);
      ClearedIsActive(all, now);
      assert forall i :: 0 <= i < |all| ==> all[i] in added;
      assert forall k :: 0 <= k < len ==> Requests()[k] in Requests();
    }

    /** One action at `now`, on a log that knows the requests begun so far. */
    method Perform(action: Action, now: int, begun: seq<Entry>) returns (begun': seq<Entry>)
      requires Valid() && Recorded(begun, added)
      modifies this, buf, begun
      ensures Valid() && keep == old(keep) && (buf == old(buf) || fresh(buf))
      ensures Recorded(begun', added) && begun <= begun' && nextID - |begun'| == old(nextID) - |begun|
      ensures forall i :: 0 <= i < |begun| ==> begun[i].id == old(begun[i].id)
      ensures forall i :: |begun| <= i < |begun'| ==> fresh(begun'[i]) && begun'[i].id == old(nextID) + (i - |begun|)
      ensures old(Past(now)) && (action.Begin? && !action.active ==> action.endTime <= now) ==> Past(now)
      ensures action.Clear? && old(Past(now)) ==> OnlyActive()
    {
      begun' := begun;
      match action {
        case Begin(active, endTime) =>
          var e := new Entry(active, endTime);
          assert e !in added;
          AddEntry(e, now);
          begun' := begun + [e];
        case End(i) =>
          if i < |begun| {
            Finish(begun[i], now);
          }
        case Clear =>
          ClearPast(now);
      }
    }

    /**
     * Any run of requests that begin, end and are cleared. Identifiers number the requests in the order
     * they began, and every request still active is in the log. On a clock that does not run back, a run
     * that ends with a clear leaves exactly the active requests.
     */
    method Replay(script: seq<(Action, int)>) returns (begun: seq<Entry>)
      requires Valid()
      modifies this, buf
      ensures Valid() && nextID == old(nextID) + |begun| && keep == old(keep)
      ensures forall i :: 0 <= i < |begun| ==> begun[i].id == old(nextID) + i
      ensures forall i :: 0 <= i < |begun| && begun[i].active ==> begun[i] in Requests()
      ensures script != [] && script[|script| - 1].0.Clear? && Orderly(script) && old(Past(script[0].1)) ==>
                OnlyActive()
    {
      begun := [];
      ghost var orderly := script != [] && Orderly(script) && Past(script[0].1);
      for n := 0 to |script|
        invariant Valid() && nextID == old(nextID) + |begun| && keep == old(keep) && (buf == old(buf) || fresh(buf))
        invariant Recorded(begun, added)
        invariant forall i :: 0 <= i < |begun| ==> fresh(begun[i]) && begun[i].id == old(nextID) + i
        invariant orderly ==> Past(script[if n == 0 then 0 else n - 1].1)
        invariant orderly && n > 0 && script[n - 1].0.Clear? ==> OnlyActive()
      {
        assert orderly ==> Past(script[n].1);
        begun := Perform(script[n].0, script[n].1, begun);
      }
    }
  }
}
