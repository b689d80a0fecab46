/** A remote file read over an open response, reopened or skipped forward when seeking. */
module ApiFile {
  import opened Wrappers

  type Bytes = seq<int>

  const FORWARD_SEEK_LIMIT: int := 0x4000

  datatype Whence = SeekStart | SeekCurrent | SeekEnd

  /** What the server sends from an offset on; an offset past the end yields nothing. */
  function From(content: Bytes, offset: int): Bytes
    requires offset >= 0
  {
    if offset <= |content| then content[offset..] else []
  }

  function Target(at: int, size: int, offset: int, whence: Whence): int {
    match whence
    case SeekStart => offset
    case SeekCurrent => at + offset
    case SeekEnd => size + offset
  }

  /** A seek that reads ahead on the open response instead of reopening. */
  predicate SkipsForward(at: int, target: int) {
    at < target && target - at < FORWARD_SEEK_LIMIT
  }

  function Min(a: int, b: int): int {
    if a < b then a else b
  }

  /** What a read delivers from a response freshly opened at `at`. */
  function Reopened(content: Bytes, at: int, want: nat, got: nat): Bytes {
    if at < 0 then [] else From(content, at)[..Min(|From(content, at)|, Min(want, got))]
  }

  /**
   * A seek or a read. The transport delivers at most `got` bytes of what is read or skipped; `online` tells
   * whether a reopening gets through.
   */
  datatype Op = Seek(offset: int, whence: Whence, got: nat, online: bool) | Read(want: nat, got: nat)

  // The run that a caller can follow without the response's bytes

  /** A position, whether a response is held, and whether one was missing when it was needed. */
  datatype Reader = Reader(at: int, held: bool, crashed: bool)

  predicate NeedsResponse(size: int, at: int, op: Op) {
    op.Read? || SkipsForward(at, Target(at, size, op.offset, op.whence))
  }

  predicate Reopens(size: int, at: int, op: Op) {
    op.Seek? && Target(at, size, op.offset, op.whence) != at && !NeedsResponse(size, at, op)
  }

  predicate ReopenFails(size: int, at: int, op: Op) {
    Reopens(size, at, op) && !(op.online && Target(at, size, op.offset, op.whence) >= 0)
  }

  /** Reads and skips move by what arrives, a reopening moves at once; what is missing ends the run. */
  function Next(content: Bytes, s: Reader, op: Op): Reader {
    if s.crashed then s
    else if NeedsResponse(|content|, s.at, op) then
      if !s.held then s.(crashed := true)
      else
        var want := if op.Read? then op.want else Target(s.at, |content|, op.offset, op.whence) - s.at;
        s.(at := s.at + |Reopened(content, s.at, want, op.got)|)
    else if Reopens(|content|, s.at, op) then
      Reader(Target(s.at, |content|, op.offset, op.whence), !ReopenFails(|content|, s.at, op), false)
    else s
  }

  // What a seek and a read mean

  /** The bytes at a position: as many as were wanted, as got through, or as the file still has. */
  ghost predicate BytesAt(content: Bytes, at: nat, want: nat, got: nat, data: Bytes) {
    && |data| <= want && |data| <= got
    && (|data| == want || |data| == got || at + |data| >= |content|)
    && forall i :: 0 <= i < |data| ==> at + i < |content| && data[i] == content[at + i]
  }

  lemma ReopenedMeans(content: Bytes, at: nat, want: nat, got: nat)
    ensures BytesAt(content, at, want, got, Reopened(content, at, want, got))
  {
  }

  /** Seeking from the end and from the position are seeking from the start, with the distance added. */
  lemma SeekOrigins(content: Bytes, s: Reader, k: int, got: nat, online: bool)
    ensures Next(content, s, Seek(k, SeekEnd, got, online))
            == Next(content, s, Seek(|content| + k, SeekStart, got, online))
    ensures Next(content, s, Seek(k, SeekCurrent, got, online))
            == Next(content, s, Seek(s.at + k, SeekStart, got, online))
  {
  }

  /**
   * A seek from a held response. It arrives within the file if its request is answered; without any answer
   * it keeps its response exactly when it stays or goes less than 16384 bytes ahead.
   */
  lemma SeekFromStart(content: Bytes, s: Reader, k: int, got: nat)
    requires s.held && !s.crashed
    ensures 0 <= s.at && 0 <= k <= |content| && got >= 16384 ==>
              Next(content, s, Seek(k, SeekStart, got, true)) == Reader(k, true, false)
    ensures var s' := Next(content, s, Seek(k, SeekStart, got, false));
            && !s'.crashed && (s'.held <==> s.at <= k < s.at + 16384)
            && (!s'.held ==> s'.at == k)
  {
  }

  function After(content: Bytes, start: Reader, ops: seq<Op>, n: nat): Reader
    requires n <= |ops|
  {
    if n == 0 then start else Next(content, After(content, start, ops, n - 1), ops[n - 1])
  }

  /** The bytes of the reads among the first `n` operations: each as if the file were just opened there. */
  function Delivered(content: Bytes, start: Reader, ops: seq<Op>, n: nat): seq<Bytes>
    requires n <= |ops|
  {
    if n == 0 then []
    else
      var (before, s) := (Delivered(content, start, ops, n - 1), After(content, start, ops, n - 1));
      match ops[n - 1]
      case Seek(_, _, _, _) => before
      case Read(want, got) =>
        if s.crashed || !s.held then before else before + [Reopened(content, s.at, want, got)]
  }

  // Runs that crash

  ghost predicate FailsAt(content: Bytes, start: Reader, ops: seq<Op>, k: nat)
    requires k < |ops|
  {
    ReopenFails(|content|, After(content, start, ops, k).at, ops[k])
  }

  ghost predicate ReopensAt(content: Bytes, start: Reader, ops: seq<Op>, k: nat)
    requires k < |ops|
  {
    Reopens(|content|, After(content, start, ops, k).at, ops[k])
  }

  /** The last reopening among the first `n` operations failed. */
  ghost predicate LastReopenFailed(content: Bytes, start: Reader, ops: seq<Op>, n: nat)
    requires n <= |ops|
  {
    exists j :: 0 <= j < n && FailsAt(content, start, ops, j)
                && forall m :: j < m < n ==> !ReopensAt(content, start, ops, m)
  }

  /** The operation needs a response after the last reopening failed. */
  ghost predicate DereferencesNil(content: Bytes, start: Reader, ops: seq<Op>, k: nat)
    requires k < |ops|
  {
    NeedsResponse(|content|, After(content, start, ops, k).at, ops[k]) && LastReopenFailed(content, start, ops, k)
  }

  /** From a held response, one is missing exactly after a reopening that failed and was not repeated. */
  lemma {:induction false} HeldUnlessReopenFailed(content: Bytes, start: Reader, ops: seq<Op>, n: nat)
    requires n <= |ops| && start.held && !After(content, start, ops, n).crashed
    ensures After(content, start, ops, n).held <==> !LastReopenFailed(content, start, ops, n)
  {
    if n == 0 {
    } else {
      HeldUnlessReopenFailed(content, start, ops, n - 1);
      if FailsAt(content, start, ops, n - 1) {
        assert LastReopenFailed(content, start, ops, n);
      } else if !ReopensAt(content, start, ops, n - 1) && LastReopenFailed(content, start, ops, n - 1) {
        var j :| 0 <= j < n - 1 && FailsAt(content, start, ops, j)
                 && forall m :: j < m < n - 1 ==> !ReopensAt(content, start, ops, m);
        assert forall m :: j < m < n ==> !ReopensAt(content, start, ops, m);
      }
    }
  }

  /** A run crashes exactly when it reads, or skips forward, after a reopening that failed and was not repeated. */
  lemma {:induction false} CrashesExactly(content: Bytes, start: Reader, ops: seq<Op>, n: nat)
    requires n <= |ops| && start.held && !start.crashed
    ensures After(content, start, ops, n).crashed
            <==> exists k :: 0 <= k < n && DereferencesNil(content, start, ops, k)
  {
    if n == 0 {
    } else {
      CrashesExactly(content, start, ops, n - 1);
      if !After(content, start, ops, n - 1).crashed {
        HeldUnlessReopenFailed(content, start, ops, n - 1);
        assert After(content, start, ops, n).crashed <==> DereferencesNil(content, start, ops, n - 1);
      }
    }
  }

  // The reader that reopens at the target of every seek

  function Move(content: Bytes, at: int, op: Op): int {
    match op
    case Seek(offset, whence, _, _) => Target(at, |content|, offset, whence)
    case Read(want, got) => at + |Reopened(content, at, want, got)|
  }

  function Position(content: Bytes, start: int, ops: seq<Op>, n: nat): int
    requires n <= |ops|
  {
    if n == 0 then start else Move(content, Position(content, start, ops, n - 1), ops[n - 1])
  }

  function ReopenedAll(content: Bytes, start: int, ops: seq<Op>, n: nat): seq<Bytes>
    requires n <= |ops|
  {
    if n == 0 then []
    else
      var before := ReopenedAll(content, start, ops, n - 1);
      match ops[n - 1]
      case Seek(_, _, _, _) => before
      case Read(want, got) => before + [Reopened(content, Position(content, start, ops, n - 1), want, got)]
  }

  /** The transport does its part: a reopening gets through and a skip receives all it asks for. */
  predicate Answered(op: Op) {
    op.Seek? ==> op.online && op.got >= FORWARD_SEEK_LIMIT
  }

  /** The first `n` operations are answered, and they end within the file. */
  ghost predicate FineAt(content: Bytes, start: int, ops: seq<Op>, n: nat)
    requires n <= |ops|
  {
    0 <= Position(content, start, ops, n) <= |content| && (n > 0 ==> Answered(ops[n - 1]))
  }

  lemma SkipsLikeReopening(content: Bytes, s: Reader, s': Reader, at': int, op: Op)
    requires s.held && !s.crashed && s' == Next(content, s, op) && at' == Move(content, s.at, op)
    requires 0 <= s.at <= |content| && 0 <= at' <= |content| && Answered(op)
    ensures s' == Reader(at', true, false)
  {
  }

  /** The run with skips has kept up with the one that always reopens. */
  ghost predicate KeepsUp(content: Bytes, start: int, ops: seq<Op>, n: nat)
    requires n <= |ops|
  {
    && After(content, Reader(start, true, false), ops, n) == Reader(Position(content, start, ops, n), true, false)
    && Delivered(content, Reader(start, true, false), ops, n) == ReopenedAll(content, start, ops, n)
  }

  lemma StillKeepsUp(content: Bytes, start: int, ops: seq<Op>, n: nat)
    requires 0 < n <= |ops| && KeepsUp(content, start, ops, n - 1)
    requires FineAt(content, start, ops, n - 1) && FineAt(content, start, ops, n)
    ensures KeepsUp(content, start, ops, n)
  {
    var reader := Reader(start, true, false);
    SkipsLikeReopening(content, After(content, reader, ops, n - 1), After(content, reader, ops, n),
                       Position(content, start, ops, n), ops[n - 1]);
  }

  /** With the transport doing its part and targets within the file, skipping forward is reopening. */
  lemma {:induction false} SkippingIsReopening(content: Bytes, start: int, ops: seq<Op>, n: nat)
    requires n <= |ops| && forall k :: 0 <= k <= n ==> FineAt(content, start, ops, k)
    ensures KeepsUp(content, start, ops, n)
  {
    if n == 0 {
    } else {
      SkippingIsReopening(content, start, ops, n - 1);
      StillKeepsUp(content, start, ops, n);
    }
  }

  // The file

  /** Where a seek ends; a crash is the dereference of a missing response. */
  datatype SeekOutcome = Arrived(pos: int) | Stopped(pos: int) | Crashed

  class File {
    const content: Bytes
    var at: int
    /** The unread bytes of the open response, if one is held. */
    var response: Option<Bytes>

    constructor (content: Bytes)
      ensures this.content == content && Valid() && at == 0 && response.None?
    {
      this.content, at, response := content, 0, None;
    }

    /** Whatever response is held, its unread bytes are those of the file from `at` on. */
    ghost predicate Valid()
      reads this
    {
      response.Some? ==> at >= 0 && response.value == From(content, at)
    }

    method Reset(online: bool) returns (ok: bool)
      modifies this`response
      ensures Valid() && ok == response.Some?
      ensures ok <==> online && at >= 0
    {
      response := None;
      if online && at >= 0 {
        response := Some(From(content, at));
      }
      ok := response.Some?;
    }

    /** Takes up to `want` bytes from a held response. */
    method Take(want: nat, got: nat) returns (data: Bytes)
      requires Valid() && response.Some?
      modifies this
      ensures Valid() && response.Some?
      ensures data == Reopened(content, old(at), want, got) && at == old(at) + |data|
    {
      var n := Min(|response.value|, Min(want, got));
      data := response.value[..n];
      response := Some(response.value[n..]);
      at := at + n;
    }

    /** Crashes, as None, exactly when no response is held. */
    method ReadSome(want: nat, got: nat) returns (r: Option<Bytes>)
      requires Valid()
      modifies this
      ensures Valid() && (r.None? <==> old(response).None?)
      ensures r.Some? ==>
                response.Some? && r.value == Reopened(content, old(at), want, got) && at == old(at) + |r.value|
      ensures r.Some? ==> old(at) >= 0 && BytesAt(content, old(at), want, got, r.value)
      ensures r.None? ==> at == old(at) && response == old(response)
    {
      if response.None? {
        return None;
      }
      ReopenedMeans(content, at, want, got);
      var data := Take(want, got);
      r := Some(data);
    }

    /** A skip or a reopening; however far a skip gets, the position stays in step with the response. */
    method SeekTo(offset: int, whence: Whence, got: nat, online: bool) returns (o: SeekOutcome)
      requires Valid()
      modifies this
      ensures Valid()
      ensures var target := match whence
                            case SeekStart => offset
                            case SeekCurrent => old(at) + offset
                            case SeekEnd => |content| + offset;
              var skips := old(at) < target < old(at) + 16384;
              && (o.Crashed? <==> skips && old(response).None?)
              && (o.Crashed? || target == old(at) ==> at == old(at) && response == old(response))
              && (!o.Crashed? ==> o.pos == at && (o.Arrived? <==> at == target && (at == old(at) || response.Some?)))
              && (!o.Crashed? && skips ==>
                    response.Some? && at == old(at) + |Reopened(content, old(at), target - old(at), got)|)
              && (!skips && target != old(at) ==> at == target && (response.Some? <==> online && target >= 0))
      ensures Reader(at, response.Some?, o.Crashed?)
              == Next(content, Reader(old(at), old(response).Some?, false), Seek(offset, whence, got, online))
    {
      var target := Target(at, |content|, offset, whence);
      if at == target {
        return Arrived(target);
      }
      if SkipsForward(at, target) {
        if response.None? {
          return Crashed;
        }
        var skipped := Take(target - at, got);
        return if at == target then Arrived(at) else Stopped(at);
      }
      at := target;
      var ok := Reset(online);
      o := if ok then Arrived(at) else Stopped(at);
    }

    /** Any run, with any transport: it delivers, moves and crashes as the caller can follow it. */
    method Replay(ops: seq<Op>) returns (outputs: seq<Bytes>, crashed: bool)
      requires Valid()
      modifies this
      ensures Valid()
      ensures var start := Reader(old(at), old(response).Some?, false);
              && Reader(at, response.Some?, crashed) == After(content, start, ops, |ops|)
              && outputs == Delivered(content, start, ops, |ops|)
    {
      ghost var start := Reader(at, response.Some?, false);
      outputs, crashed := [], false;
      for n := 0 to |ops|
        invariant Valid() && Reader(at, response.Some?, crashed) == After(content, start, ops, n)
        invariant outputs == Delivered(content, start, ops, n)
      {
        if !crashed {
          match ops[n] {
            case Seek(offset, whence, got, online) =>
              var o := SeekTo(offset, whence, got, online);
              crashed := o.Crashed?;
            case Read(want, got) =>
              var r := ReadSome(want, got);
              crashed := r.None?;
              outputs := if r.Some? then outputs + [r.value] else outputs;
          }
        }
      }
    }
  }
}
