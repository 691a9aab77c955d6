/** `_ByteLimitReader`: a stream wrapper that never delivers more than a fixed number of bytes. */
module BoundedReader {
  import opened Bytes
  import opened Wrappers

  datatype ReadError = InvalidStream | LimitExceeded

  /** A compressed stream: reads may be short, and may fail with a format error from `damagedAt` on. */
  class Source {
    const data: bytes
    const damaged: bool
    var position: nat

    constructor (data: bytes, damaged: bool)
      ensures this.data == data && this.damaged == damaged && position == 0
    {
      this.data := data;
      this.damaged := damaged;
      position := 0;
    }

    ghost predicate Valid() reads this { position <= |data| }

    /** Any non-empty prefix of what is left, up to `size` bytes; empty only at the end or for size 0. */
    method Read(size: nat) returns (r: Result<bytes, ReadError>)
      requires Valid()
      modifies this
      ensures Valid()
      ensures r.Err? ==> damaged && position == old(position) && r.error == InvalidStream
      ensures r.Ok? ==> |r.value| <= size && position == old(position) + |r.value| &&
                        r.value == data[old(position)..position] &&
                        (r.value == [] ==> size == 0 || position == |data|)
    {
      var fails: bool := *;
      if damaged && fails {
        return Err(InvalidStream);
      }
      var available := |data| - position;
      var most := if size < available then size else available;
      var n: nat := most;
      if most > 0 {
        n :| 1 <= n <= most;
      }
      r := Ok(data[position..position + n]);
      position := position + n;
    }
  }

  /** What one `read` may do to the reader's state; `r` is its result. */
  datatype ReaderState = ReaderState(position: nat, bytesRead: nat, delivered: bytes)

  ghost predicate Good(data: bytes, limit: nat, s: ReaderState) {
    && s.position == s.bytesRead <= |data| && s.bytesRead <= limit + 1
    && s.delivered <= data && |s.delivered| <= limit
    && (s.bytesRead <= limit ==> s.delivered == data[..s.bytesRead])
  }

  ghost predicate ReadStep(data: bytes, limit: nat, s: ReaderState, size: int, s': ReaderState, r: Result<bytes, ReadError>) {
    match r
    case Ok(chunk) =>
      && s'.bytesRead == s.bytesRead + |chunk| <= limit && s'.position == s.position + |chunk| <= |data|
      && chunk == data[s.position..s'.position] && s'.delivered == s.delivered + chunk
      && (size >= 0 ==> |chunk| <= size)
      && (chunk == [] ==> size == 0 || s'.position == |data|)
    case Err(InvalidStream) => s' == s
    case Err(LimitExceeded) =>
      && s'.bytesRead == s.bytesRead + (s'.position - s.position) == limit + 1
      && s.position <= s'.position <= |data| && s'.delivered == s.delivered
  }

  class ByteLimitReader {
    const stream: Source
    const limit: nat
    var bytesRead: nat
    ghost var delivered: bytes

    constructor (stream: Source, limit: nat)
      requires stream.Valid() && stream.position == 0
      ensures this.stream == stream && this.limit == limit && Valid() && bytesRead == 0 && delivered == []
    {
      this.stream := stream;
      this.limit := limit;
      bytesRead := 0;
      delivered := [];
    }

    ghost function State(): ReaderState
      reads this, stream
    {
      ReaderState(stream.position, bytesRead, delivered)
    }

    ghost predicate Valid()
      reads this, stream
    {
      stream.Valid() && Good(stream.data, limit, State())
    }

    method Read(size: int) returns (r: Result<bytes, ReadError>)
      requires Valid()
      modifies this, stream
      ensures Valid()
      ensures ReadStep(stream.data, limit, old(State()), size, State(), r)
      ensures r == Err(InvalidStream) ==> stream.damaged
    {
      var remainingWithProbe := limit - bytesRead + 1;
      var requested := if size < 0 then remainingWithProbe else if size < remainingWithProbe then size else remainingWithProbe;
      var chunk := stream.Read(requested);
      if chunk.Err? {
        return Err(InvalidStream);
      }
      bytesRead := bytesRead + |chunk.value|;
      if bytesRead > limit {
        return Err(LimitExceeded);
      }
      delivered := delivered + chunk.value;
      r := chunk;
    }

    /** The drain loop after the archive: read until an empty chunk comes. */
    method Drain(size: nat) returns (r: Result<(), ReadError>)
      requires Valid() && size > 0 && bytesRead <= limit
      modifies this, stream
      ensures Valid()
      ensures r.Ok? ==> delivered == stream.data && |stream.data| <= limit
      ensures r == Err(LimitExceeded) ==> |stream.data| > limit
      ensures r == Err(InvalidStream) ==> stream.damaged
    {
      while true
        invariant Valid() && bytesRead <= limit
        decreases limit + 1 - bytesRead
      {
        var chunk := Read(size);
        match chunk {
          case Err(e) => return Err(e);
          case Ok(bytes) =>
            if bytes == [] {
              return Ok(());
            }
        }
      }
    }
  }

  // ---------- Any sequence of calls ----------

  datatype Call = Call(size: int, after: ReaderState, result: Result<bytes, ReadError>)

  ghost predicate History(data: bytes, limit: nat, calls: seq<Call>) {
    forall i :: 0 <= i < |calls| ==> CallOk(data, limit, calls, i)
  }

  ghost predicate CallOk(data: bytes, limit: nat, calls: seq<Call>, i: nat)
    requires i < |calls|
  {
    ReadStep(data, limit, StateBefore(calls, i), calls[i].size, calls[i].after, calls[i].result)
  }

  ghost function StateBefore(calls: seq<Call>, i: nat): ReaderState
    requires i <= |calls|
  {
    if i == 0 then ReaderState(0, 0, []) else calls[i - 1].after
  }

  function Delivered(calls: seq<Call>): bytes {
    if calls == [] then []
    else Delivered(calls[..|calls| - 1]) +
         (if calls[|calls| - 1].result.Ok? then calls[|calls| - 1].result.value else [])
  }

  ghost predicate Exceeded(calls: seq<Call>) {
    exists i :: 0 <= i < |calls| && calls[i].result == Err(LimitExceeded)
  }

  /** No call succeeds after one that exceeded the limit. */
  ghost predicate FailStop(calls: seq<Call>) {
    forall i, j :: 0 <= i < j < |calls| && calls[i].result == Err(LimitExceeded) ==> calls[j].result.Err?
  }

  lemma EarlierHistory(data: bytes, limit: nat, calls: seq<Call>)
    requires calls != [] && History(data, limit, calls)
    ensures History(data, limit, calls[..|calls| - 1])
    ensures StateBefore(calls[..|calls| - 1], |calls| - 1) == StateBefore(calls, |calls| - 1)
    ensures CallOk(data, limit, calls, |calls| - 1)
  {
    var n := |calls| - 1;
    var earlier := calls[..n];
    forall i | 0 <= i < n ensures CallOk(data, limit, earlier, i) {
      assert CallOk(data, limit, calls, i);
      assert StateBefore(earlier, i) == StateBefore(calls, i);
    }
  }

  lemma OneCall(data: bytes, limit: nat, s: ReaderState, c: Call)
    requires Good(data, limit, s) && ReadStep(data, limit, s, c.size, c.after, c.result)
    ensures Good(data, limit, c.after)
    ensures c.after.bytesRead == limit + 1 <==> s.bytesRead == limit + 1 || c.result == Err(LimitExceeded)
    ensures s.bytesRead == limit + 1 ==> c.result.Err?
    ensures c.after.delivered == s.delivered + (if c.result.Ok? then c.result.value else [])
  {
    if c.result.Ok? {
      assert data[..s.position] + data[s.position..c.after.position] == data[..c.after.position];
    }
  }

  lemma LastCall(calls: seq<Call>)
    requires calls != [] && FailStop(calls[..|calls| - 1])
    requires Exceeded(calls[..|calls| - 1]) ==> calls[|calls| - 1].result.Err?
    ensures FailStop(calls)
    ensures Exceeded(calls) <==> Exceeded(calls[..|calls| - 1]) || calls[|calls| - 1].result == Err(LimitExceeded)
  {
    var n := |calls| - 1;
    var earlier := calls[..n];
    assert forall i :: 0 <= i < n ==> earlier[i] == calls[i];
    if Exceeded(earlier) {
      var i :| 0 <= i < |earlier| && earlier[i].result == Err(LimitExceeded);
      assert calls[i].result == Err(LimitExceeded);
    }
  }

  /** Whatever the sizes and however short the reads: at most limit + 1 bytes are pulled from the stream, what
      is delivered is a prefix of it of at most limit bytes, and after the limit was exceeded once no further
      call succeeds. */
  lemma {:induction false} AnyCalls(data: bytes, limit: nat, calls: seq<Call>)
    requires History(data, limit, calls)
    ensures StateBefore(calls, |calls|).position <= limit + 1
    ensures Delivered(calls) <= data && |Delivered(calls)| <= limit
    ensures FailStop(calls)
    ensures Good(data, limit, StateBefore(calls, |calls|)) && StateBefore(calls, |calls|).delivered == Delivered(calls)
    ensures Exceeded(calls) <==> StateBefore(calls, |calls|).bytesRead == limit + 1
  {
    if calls != [] {
      var n := |calls| - 1;
      EarlierHistory(data, limit, calls);
      AnyCalls(data, limit, calls[..n]);
      OneCall(data, limit, StateBefore(calls, n), calls[n]);
      LastCall(calls);
    }
  }
}
