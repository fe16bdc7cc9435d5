/**
  The stream loops `write_all` and `read_to_end`. What the transport accepts or
  delivers at each call is arbitrary; the loops hide it.
 */
module Streams {

  const EINTR: nat := 4
  const EAGAIN: nat := 11      // EWOULDBLOCK is the same number on Linux

  const DEFAULT_BUFFER_SIZE: nat := 8192

  /** One answer of the transport to a write: so many bytes taken (at most those offered), or an error. */
  datatype Reply = Wrote(n: nat) | Failed(errno: nat)

  predicate Transient(errno: nat) {
    errno == EAGAIN || errno == EINTR
  }

  datatype WriteResult = Complete | Error(errno: nat) | StillWaiting

  /** How many bytes of `size` the replies take, up to the first lasting error. */
  function Taken(size: nat, replies: seq<Reply>): (k: nat)
    ensures k <= size
    decreases |replies|
  {
    if size == 0 || replies == [] then 0
    else
      match replies[0]
      case Wrote(n) => var m := if n < size then n else size; m + Taken(size - m, replies[1..])
      case Failed(e) => if Transient(e) then Taken(size, replies[1..]) else 0
  }

  /** How `write_all` of `size` bytes ends. */
  function Ending(size: nat, replies: seq<Reply>): WriteResult
    decreases |replies|
  {
    if size == 0 then Complete
    else if replies == [] then StillWaiting
    else
      match replies[0]
      case Wrote(n) => Ending(if n < size then size - n else 0, replies[1..])
      case Failed(e) => if Transient(e) then Ending(size, replies[1..]) else Error(e)
  }

  predicate Lasting(r: Reply) {
    r.Failed? && !Transient(r.errno)
  }

  /** Where the first lasting error is, or the end if there is none. */
  function FirstLasting(replies: seq<Reply>): (i: nat)
    ensures i <= |replies| && (forall j :: 0 <= j < i ==> !Lasting(replies[j]))
    ensures i < |replies| ==> Lasting(replies[i])
  {
    if replies == [] || Lasting(replies[0]) then 0 else 1 + FirstLasting(replies[1..])
  }

  /** The bytes the transport offers to take, errors counting nothing. */
  function Offered(replies: seq<Reply>): nat {
    if replies == [] then 0 else (if replies[0].Wrote? then replies[0].n else 0) + Offered(replies[1..])
  }

  function Min(a: nat, b: nat): nat {
    if a < b then a else b
  }

  /**
    The bytes offered before the first lasting error decide: that many are taken, up
    to the size; the call succeeds if they suffice, fails with that error if not, and
    waits if there is no such error.
   */
  lemma {:induction false} WriteMeaning(size: nat, replies: seq<Reply>)
    ensures var i := FirstLasting(replies);
      var sum := Offered(replies[..i]);
      && Taken(size, replies) == Min(sum, size)
      && Ending(size, replies)
         == if sum >= size then Complete else if i < |replies| then Error(replies[i].errno) else StillWaiting
    decreases |replies|
  {
    if replies != [] && !Lasting(replies[0]) {
      var rest, i := replies[1..], FirstLasting(replies);
      assert replies[..i][1..] == rest[..i - 1];
      if replies[0].Wrote? && size != 0 {
        var n := replies[0].n;
        WriteMeaning(if n < size then size - n else 0, rest);
      } else {
        WriteMeaning(size, rest);
      }
    }
  }

  lemma NextSlice<V>(sink: seq<V>, buffer: seq<V>, total: nat, n: nat)
    requires total + n <= |buffer|
    ensures (sink + buffer[..total]) + buffer[total..][..n] == sink + buffer[..total + n]
  {
    assert buffer[..total] + buffer[total..][..n] == buffer[..total + n];
  }

  lemma NextChunk<V>(content: seq<V>, chunk: seq<V>, unread: seq<V>)
    ensures (content + chunk) + unread == content + (chunk + unread)
  {
  }

  /** A writer: what reached the other side, and how the transport will answer. */
  class Writer<V> {
    var sink: seq<V>
    var replies: seq<Reply>

    constructor (replies: seq<Reply>)
      ensures sink == [] && this.replies == replies
    {
      sink, this.replies := [], replies;
    }

    method Write(data: seq<V>) returns (reply: Reply)
      requires replies != []
      modifies this
      ensures replies == old(replies)[1..]
      ensures reply == (match old(replies)[0]
                        case Wrote(n) => Wrote(if n < |data| then n else |data|)
                        case Failed(e) => Failed(e))
      ensures sink == old(sink) + if reply.Wrote? then data[..reply.n] else []
    {
      reply := replies[0];
      replies := replies[1..];
      if reply.Wrote? {
        reply := Wrote(if reply.n < |data| then reply.n else |data|);
        sink := sink + data[..reply.n];
      }
    }

    /**
      Whatever the chunks: the sink gets as many bytes as are offered before the
      first lasting error, up to the whole buffer. The call succeeds exactly if that
      is the whole buffer, and fails exactly with that error if there is one.
     */
    method WriteAll(buffer: seq<V>) returns (result: WriteResult)
      modifies this
      ensures var i := FirstLasting(old(replies));
        var sum := Offered(old(replies)[..i]);
        && sink == old(sink) + buffer[..Min(sum, |buffer|)]
        && result == if sum >= |buffer| then Complete
                     else if i < |old(replies)| then Error(old(replies)[i].errno) else StillWaiting
      ensures Min(Offered(old(replies)[..FirstLasting(old(replies))]), |buffer|) == Taken(|buffer|, old(replies))
      ensures result.StillWaiting? ==> replies == []
    {
      WriteMeaning(|buffer|, replies);
      var total := 0;
      while total != |buffer|
        invariant total <= |buffer| && sink == old(sink) + buffer[..total]
        invariant total + Taken(|buffer| - total, replies) == Taken(|buffer|, old(replies))
        invariant Ending(|buffer| - total, replies) == Ending(|buffer|, old(replies))
        decreases |replies|
      {
        if replies == [] {
          return StillWaiting;
        }
        var reply := Write(buffer[total..]);
        match reply
        case Wrote(n) =>
          NextSlice(old(sink), buffer, total, n);
          total := total + n;
        case Failed(e) =>
          if e != EAGAIN && e != EINTR {
            return Error(e);
          }
      }
      return Complete;
    }
  }

  /** One answer of the transport to a read: a chunk of about this size, or an error. */
  datatype Arrival = Chunk(n: nat) | Refused(errno: nat)

  /** The bytes a chunk brings: at least one, unless the stream has ended. */
  function Brought(n: nat, room: nat, rest: nat): (k: nat)
    requires room > 0
    ensures k <= room && k <= rest && (k == 0 <==> rest == 0)
    ensures 0 < n <= room && n <= rest ==> k == n
  {
    var most := if room < rest then room else rest;
    if n == 0 && most > 0 then 1 else if n < most then n else most
  }

  /** Whether a stream with this many bytes left is read to its end before a read fails. */
  predicate Drained(rest: nat, arrivals: seq<Arrival>)
    decreases |arrivals|
  {
    arrivals == [] ||
    (arrivals[0].Chunk? &&
     (rest == 0 || Drained(rest - Brought(arrivals[0].n, DEFAULT_BUFFER_SIZE, rest), arrivals[1..])))
  }

  function FirstRefused(arrivals: seq<Arrival>): (i: nat)
    ensures i <= |arrivals| && (forall j :: 0 <= j < i ==> arrivals[j].Chunk?)
    ensures i < |arrivals| ==> arrivals[i].Refused?
  {
    if arrivals == [] || arrivals[0].Refused? then 0 else 1 + FirstRefused(arrivals[1..])
  }

  /** The bytes these chunks have room for: each at least one, at most a buffer full. */
  function Room(arrivals: seq<Arrival>): nat {
    if arrivals == [] then 0
    else
      (if arrivals[0].Refused? then 0 else if arrivals[0].n == 0 then 1 else Min(arrivals[0].n, DEFAULT_BUFFER_SIZE)) +
      Room(arrivals[1..])
  }

  /**
    The stream is read to its end if and only if no read fails, or the chunks before
    the first failure, but for one that finds the end, have room for all that is left.
   */
  lemma {:induction false} DrainedMeaning(rest: nat, arrivals: seq<Arrival>)
    ensures var i := FirstRefused(arrivals);
      Drained(rest, arrivals) <==> i == |arrivals| || (i > 0 && Room(arrivals[..i - 1]) >= rest)
    decreases |arrivals|
  {
    if arrivals != [] && arrivals[0].Chunk? && rest != 0 {
      var tail, i := arrivals[1..], FirstRefused(arrivals);
      DrainedMeaning(rest - Brought(arrivals[0].n, DEFAULT_BUFFER_SIZE, rest), tail);
      if i > 1 {
        assert arrivals[..i - 1][1..] == tail[..i - 2];
      }
    }
  }

  /** Without an error the stream is drained; and as each chunk brings a byte, more leading chunks than bytes suffice. */
  lemma {:induction false} DrainedBefore(rest: nat, arrivals: seq<Arrival>, m: nat)
    requires m <= |arrivals| && forall i :: 0 <= i < m ==> arrivals[i].Chunk?
    ensures m == |arrivals| || rest < m ==> Drained(rest, arrivals)
    decreases m
  {
    if m != 0 && rest != 0 {
      DrainedBefore(rest - Brought(arrivals[0].n, DEFAULT_BUFFER_SIZE, rest), arrivals[1..], m - 1);
    }
  }

  /** A failing first read is enough, even at the end of the stream. */
  lemma FirstReadFails(rest: nat, errno: nat)
    ensures !Drained(rest, [Refused(errno)])
  {
  }

  /** The end of a stream: the bytes not yet read, and how the transport will answer. */
  class Source<V> {
    var rest: seq<V>
    var arrivals: seq<Arrival>

    constructor (bytes: seq<V>, arrivals: seq<Arrival>)
      ensures rest == bytes && this.arrivals == arrivals
    {
      rest, this.arrivals := bytes, arrivals;
    }

    /** The next bytes into the front of the buffer, none exactly at the end; or an error, and nothing changes. */
    method Read(buffer: array<V>) returns (reply: Arrival)
      requires buffer.Length > 0
      modifies this, buffer
      ensures arrivals == if old(arrivals) == [] then [] else old(arrivals)[1..]
      ensures reply.Refused? <==> old(arrivals) != [] && old(arrivals)[0].Refused?
      ensures reply.Refused? ==> reply == old(arrivals)[0] && rest == old(rest) && buffer[..] == old(buffer[..])
      ensures reply.Chunk? ==>
        && reply.n <= buffer.Length && reply.n <= |old(rest)| && (reply.n == 0 <==> old(rest) == [])
        && buffer[..reply.n] == old(rest)[..reply.n] && rest == old(rest)[reply.n..]
      ensures old(arrivals) != [] && reply.Chunk? ==> reply.n == Brought(old(arrivals)[0].n, buffer.Length, |old(rest)|)
    {
      reply := Chunk(buffer.Length);
      if arrivals != [] {
        reply := arrivals[0];
        arrivals := arrivals[1..];
      }
      if reply.Chunk? {
        var n := Brought(reply.n, buffer.Length, |rest|);
        for i := 0 to n
          invariant rest == old(rest) && buffer[..i] == rest[..i]
          invariant arrivals == if old(arrivals) == [] then [] else old(arrivals)[1..]
        {
          buffer[i] := rest[i];
        }
        rest := rest[n..];
        reply := Chunk(n);
      }
    }
  }

  datatype Filled = Range(begin: nat, end: nat) | ReadError(errno: nat)

  /** What `read_to_end` comes to; it dereferences a failed read, which is undefined behaviour. */
  datatype ReadResult<V> = Content(bytes: seq<V>) | Undefined

  class BufferReader<V(0)> {
    const inner: Source<V>
    const buffer: array<V>
    var pos: nat
    var cap: nat

    constructor (reader: Source<V>)
      ensures Valid() && inner == reader && fresh(buffer) && Unread() == reader.rest
    {
      inner := reader;
      buffer := new V[DEFAULT_BUFFER_SIZE];
      pos, cap := 0, 0;
    }

    ghost predicate Valid()
      reads this
    {
      pos <= cap <= buffer.Length == DEFAULT_BUFFER_SIZE
    }

    /** Everything still to come: the buffered part first. */
    ghost function Unread(): seq<V>
      requires Valid()
      reads this, inner, buffer
    {
      buffer[pos..cap] + inner.rest
    }

    /** The buffered range, read anew if used up, empty only at the end of the stream; or the error of that read. */
    method FillBuffer() returns (filled: Filled)
      requires Valid()
      modifies this, inner, buffer
      ensures Valid() && Unread() == old(Unread())
      ensures filled.Range? ==> filled.begin == pos && filled.end == cap && (pos == cap ==> Unread() == [])
      ensures filled.ReadError? ==>
        old(pos) == old(cap) && old(inner.arrivals) != [] && old(inner.arrivals)[0] == Refused(filled.errno)
      ensures filled.ReadError? ==> !Drained(|old(inner.rest)|, old(inner.arrivals))
      ensures filled.Range? ==>
        (Drained(|old(inner.rest)|, old(inner.arrivals)) <==> pos == cap || Drained(|inner.rest|, inner.arrivals))
    {
      if pos == cap {
        var reply := inner.Read(buffer);
        if reply.Refused? {
          assert buffer[pos..cap] == old(buffer[pos..cap]);
          return ReadError(reply.errno);
        }
        cap, pos := reply.n, 0;
      }
      return Range(pos, cap);
    }

    /** The amount is a uint16_t. */
    method Consume(amount: int)
      requires Valid()
      modifies this
      ensures Valid() && cap == old(cap)
      ensures pos == if old(pos) + amount % 0x10000 < cap then old(pos) + amount % 0x10000 else cap
    {
      var amt := amount % 0x10000;
      pos := if pos + amt < cap then pos + amt else cap;
    }

    /** One round of `read_to_end`: the buffered bytes are taken, none exactly at the end of the stream. */
    method TakeChunk() returns (failed: bool, chunk: seq<V>)
      requires Valid()
      modifies this, inner, buffer
      ensures Valid() && old(Unread()) == chunk + Unread() && (failed ==> chunk == [])
      ensures !failed && chunk == [] ==> Unread() == []
      ensures failed ==> !Drained(|old(inner.rest)|, old(inner.arrivals))
      ensures !failed ==>
        (Drained(|old(inner.rest)|, old(inner.arrivals)) <==> chunk == [] || Drained(|inner.rest|, inner.arrivals))
    {
      var filled := FillBuffer();
      if filled.ReadError? {
        return true, [];
      }
      chunk := buffer[filled.begin..filled.end];
      Consume(filled.end - filled.begin);
      assert buffer[pos..cap] == [];
      return false, chunk;
    }

    /** Whatever the chunks: everything unread, if and only if the stream ends before a read fails. */
    method ReadToEnd() returns (result: ReadResult<V>)
      requires Valid()
      modifies this, inner, buffer
      ensures Valid()
      ensures result.Content? <==> Drained(|old(inner.rest)|, old(inner.arrivals))
      ensures result.Content? ==> result.bytes == old(Unread()) && Unread() == []
    {
      var content := [];
      while true
        invariant Valid() && content + Unread() == old(Unread())
        invariant Drained(|inner.rest|, inner.arrivals) <==> Drained(|old(inner.rest)|, old(inner.arrivals))
        decreases |Unread()|
      {
        var failed, chunk := TakeChunk();
        NextChunk(content, chunk, Unread());
        if failed {
          return Undefined;
        }
        if chunk == [] {
          assert content + [] == content;
          return Content(content);
        }
        content := content + chunk;
      }
    }
  }

  /**
    Round trip: what `write_all` wrote and `read_to_end` reads back is the buffer,
    for every chunking on both sides, if the reads last to the end of the stream.
   */
  method RoundTrip<V(0)>(buffer: seq<V>, replies: seq<Reply>, arrivals: seq<Arrival>)
    returns (written: WriteResult, back: ReadResult<V>)
    ensures back.Content? <==> Drained(Taken(|buffer|, replies), arrivals)
    ensures back.Content? && written == Complete ==> back.bytes == buffer
    ensures back.Content? && written != Complete ==> back.bytes <= buffer && |back.bytes| < |buffer|
  {
    var writer := new Writer<V>(replies);
    written := writer.WriteAll(buffer);
    var source := new Source(writer.sink, arrivals);
    var reader := new BufferReader(source);
    back := reader.ReadToEnd();
  }

  /** Transient errors change nothing: the same bytes are taken as if they had not happened. */
  function WithoutTransient(replies: seq<Reply>): seq<Reply> {
    if replies == [] then []
    else (if replies[0].Failed? && Transient(replies[0].errno) then [] else [replies[0]]) + WithoutTransient(replies[1..])
  }

  lemma {:induction false} TransientErrorsAreRetried(size: nat, replies: seq<Reply>)
    ensures Taken(size, WithoutTransient(replies)) == Taken(size, replies)
    decreases |replies|
  {
    if replies != [] {
      var r, rest := replies[0], replies[1..];
      match r
      case Failed(e) =>
        if Transient(e) {
          assert WithoutTransient(replies) == WithoutTransient(rest);
          TransientErrorsAreRetried(size, rest);
        }
      case Wrote(n) =>
        var m := if n < size then n else size;
        assert WithoutTransient(replies) == [r] + WithoutTransient(rest);
        assert WithoutTransient(replies)[1..] == WithoutTransient(rest);
        TransientErrorsAreRetried(size - m, rest);
    }
  }
}
