/**
 * The chunk queue that sits between the application and the audio callback.
 * Its implementation (Chunks.h) is not part of this model; it is modelled as a
 * sequential FIFO of pending chunks plus a cursor (current chunk, offset) into
 * the chunk being drained. Blocking, capacity and mutexes are not modelled.
 */
module ChunkQueue {
  import opened Wrappers

  type byte = x: int | 0 <= x < 256

  /** A buffer of audio bytes (never null here) and the time of its first sample. */
  datatype Chunk = Chunk(data: seq<byte>, timeStamp: real)

  /** The bytes of a list of chunks, in push order. */
  function Flatten(cs: seq<Chunk>): seq<byte>
  {
    if cs == [] then [] else cs[0].data + Flatten(cs[1..])
  }

  /** Appending a chunk appends its bytes at the end of the stream. */
  lemma {:induction false} FlattenAppend(cs: seq<Chunk>, c: Chunk)
    ensures Flatten(cs + [c]) == Flatten(cs) + c.data
  {
    if cs == [] {
      assert [] + [c] == [c];
    } else {
      assert (cs + [c])[1..] == cs[1..] + [c];
      FlattenAppend(cs[1..], c);
    }
  }

  /** The length of the byte stream is the sum of the chunk lengths. */
  function TotalBytes(cs: seq<Chunk>): nat
  {
    if cs == [] then 0 else |cs[0].data| + TotalBytes(cs[1..])
  }

  lemma {:induction false} FlattenLength(cs: seq<Chunk>)
    ensures |Flatten(cs)| == TotalBytes(cs)
  {
    if cs != [] {
      FlattenLength(cs[1..]);
    }
  }

  class Chunks {
    /** Queue capacity (0: unbounded); only the blocking on a full queue uses it. */
    const maxQueue: nat
    /** Chunks pushed and not yet made current, oldest first. */
    var pending: seq<Chunk>
    /** The chunk being drained (curBuf() is null when there is none). */
    var current: Option<Chunk>
    /** Bytes of the current chunk already consumed (curOffset()). */
    var offset: nat
    /** Set by quit(), which is not part of this model: later pushes are dropped. */
    var quitting: bool

    ghost predicate Valid()
      reads this
    {
      && (current.Some? ==> offset <= |current.value.data|)
      && (current.None? ==> offset == 0)
    }

    /** The bytes still to be consumed, in push order. */
    ghost function Unconsumed(): seq<byte>
      reads this
      requires Valid()
    {
      (if current.Some? then current.value.data[offset..] else []) + Flatten(pending)
    }

    /**
     * curBuf() != nullptr. Every chunk here has memory, so this holds exactly
     * when a chunk is current; chunks with null memory are not modelled.
     */
    predicate HasCurrent()
      reads this
    {
      current.Some?
    }

    /** curBytes(): the length of the current chunk. */
    function CurBytes(): nat
      reads this
    {
      if current.Some? then |current.value.data| else 0
    }

    /** The current chunk is absent or fully consumed, so the next one is needed. */
    predicate Exhausted()
      reads this
    {
      current.None? || offset == |current.value.data|
    }

    constructor (maxQueue: nat)
      ensures Valid() && this.maxQueue == maxQueue
      ensures pending == [] && current == None && !quitting
      ensures Unconsumed() == []
    {
      this.maxQueue := maxQueue;
      pending := [];
      current := None;
      offset := 0;
      quitting := false;
    }

    /** push(): append at the tail, or drop the chunk once quitting. */
    method Push(c: Chunk)
      requires Valid()
      modifies this
      ensures Valid()
      ensures pending == (if old(quitting) then old(pending) else old(pending) + [c])
      ensures current == old(current) && offset == old(offset) && quitting == old(quitting)
      ensures Unconsumed() == old(Unconsumed()) + (if old(quitting) then [] else c.data)
    {
      if !quitting {
        FlattenAppend(pending, c);
        pending := pending + [c];
      }
    }

    /**
     * waitNext(): when the current chunk is absent or used up, make the oldest
     * pending chunk current; with nothing pending, leave no current chunk (the
     * outcome of a wait that ends with quit()).
     */
    method WaitNext()
      requires Valid()
      modifies this
      ensures Valid()
      ensures Unconsumed() == old(Unconsumed())
      ensures quitting == old(quitting)
      ensures !old(Exhausted()) ==> current == old(current) && offset == old(offset) && pending == old(pending)
      ensures old(Exhausted()) && old(pending) != [] ==>
        current == Some(old(pending)[0]) && offset == 0 && pending == old(pending)[1..]
      ensures old(Exhausted()) && old(pending) == [] ==> current == None && pending == []
    {
      if current.None? || offset == |current.value.data| {
        if pending != [] {
          current := Some(pending[0]);
          pending := pending[1..];
          offset := 0;
        } else {
          current := None;
          offset := 0;
        }
      }
    }

    /** incOffset(n): consume n bytes of the current chunk. */
    method IncOffset(n: nat)
      requires Valid() && HasCurrent() && n <= CurBytes() - offset
      modifies this
      ensures Valid()
      ensures current == old(current) && pending == old(pending) && quitting == old(quitting)
      ensures offset == old(offset) + n
      ensures Unconsumed() == old(Unconsumed())[n..]
    {
      offset := offset + n;
    }
  }
}
