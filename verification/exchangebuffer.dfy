/** The byte buffer between two threads: chunks come in, reads of any size go out. */
module ExchangeBuffers {
  import opened ByteArrays

  function Flat(chunks: seq<Bytes>): Bytes {
    if chunks == [] then [] else chunks[0] + Flat(chunks[1..])
  }

  lemma {:induction false} FlatCat(a: seq<Bytes>, b: seq<Bytes>)
    ensures Flat(a + b) == Flat(a) + Flat(b)
  {
    if a == [] {
      assert a + b == b;
    } else {
      assert (a + b)[1..] == a[1..] + b;
      FlatCat(a[1..], b);
    }
  }

  lemma FlatSnoc(chunks: seq<Bytes>, data: Bytes)
    ensures Flat(chunks + [data]) == Flat(chunks) + data
  {
    FlatCat(chunks, [data]);
    assert [data][1..] == [] && Flat([data]) == data;
  }

  ghost predicate CursorOk(buffers: seq<Bytes>, index: nat) {
    && (forall i :: 0 <= i < |buffers| ==> buffers[i] != [])
    && (if buffers == [] then index == 0 else index < |buffers[0]|)
  }

  function Left(buffers: seq<Bytes>, index: nat): Bytes
    requires CursorOk(buffers, index)
  {
    Flat(buffers)[index..]
  }

  class ExchangeBuffer {
    var buffers: seq<Bytes>
    var index: nat
    var size: int
    var isOpen: bool

    constructor ()
      ensures Valid() && Content() == [] && !isOpen
    {
      buffers, index, size, isOpen := [], 0, 0, false;
    }

    /** No chunk is empty, the index is inside the first one, and the size is what is left. */
    ghost predicate Valid()
      reads this
    {
      CursorOk(buffers, index) && size == |Left(buffers, index)|
    }

    /** What has been received and not been read. */
    ghost function Content(): Bytes
      requires Valid()
      reads this
    {
      Left(buffers, index)
    }

    method OpenInternal()
      requires Valid()
      modifies this`isOpen
      ensures isOpen && Valid() && Content() == old(Content())
    {
      isOpen := true;
    }

    method ReceiveData(data: Bytes)
      requires Valid() && data != []
      modifies this`buffers, this`size
      ensures Valid()
      ensures Content() == if isOpen then old(Content()) + data else old(Content())
    {
      if !isOpen {
        return;
      }
      FlatSnoc(buffers, data);
      buffers := buffers + [data];
      size := size + |data|;
    }

    method BytesAvailable() returns (n: int)
      requires Valid()
      ensures n == |Content()|
    {
      n := size;
    }

    /** The body of the read loop: copies from the first chunk, which goes once it is used up. */
    method ReadChunk(data: array<Byte>, at: nat, wanted: nat) returns (delta: nat)
      requires CursorOk(buffers, index) && buffers != [] && 0 < wanted && at + wanted <= data.Length
      modifies this`buffers, this`index, data
      ensures CursorOk(buffers, index) && 0 < delta <= wanted
      ensures var left := Left(old(buffers), old(index));
        delta <= |left| && Left(buffers, index) == left[delta..]
        && data[..][..at + delta] == old(data[..])[..at] + left[..delta]
      ensures delta < wanted ==> |buffers| < |old(buffers)|
      ensures data[..][at + delta..] == old(data[..])[at + delta..]
    {
      var buffer := buffers[0];
      delta := if |buffer| - index <= wanted then |buffer| - index else wanted;
      ChunkFirst(buffers, index, delta);
      CopyChunk(buffer, index, data, at, delta);
      index := index + delta;
      if index >= |buffer| {
        buffers := buffers[1..];
        index := 0;
      }
    }

    /** Copies as much as is there and wanted, across the borders of the chunks. */
    method ReadData(data: array<Byte>, maxlen: int) returns (written: nat)
      requires Valid() && maxlen <= data.Length
      modifies this, data
      ensures Valid() && isOpen == old(isOpen)
      ensures written == if maxlen <= 0 then 0 else if maxlen <= old(size) then maxlen else old(size)
      ensures data[..written] == old(Content())[..written] && data[written..] == old(data[written..])
      ensures Content() == old(Content())[written..]
    {
      written := 0;
      ghost var all, kept := Content(), data[..];
      while written < maxlen && buffers != []
        invariant isOpen == old(isOpen) && size == old(size) == |all|
        invariant CursorOk(buffers, index)
        invariant 0 <= written <= |all| && (written <= maxlen || written == 0)
        invariant Left(buffers, index) == all[written..]
        invariant data[..][..written] == all[..written] && data[..][written..] == kept[written..]
        decreases maxlen - written
      {
        ghost var before := data[..];
        var delta := ReadChunk(data, written, maxlen - written);
        Halves(all, written, delta);
        ChunkCopied(before, kept, data[..], all, written, delta);
        written := written + delta;
      }
      size := size - written;
    }

    /** Closing drops the chunks and nothing else: a later session starts from a valid buffer
        exactly if everything had been read. */
    method Close()
      requires Valid()
      modifies this`buffers, this`isOpen
      ensures buffers == [] && !isOpen
      ensures Valid() <==> old(Content()) == []
    {
      buffers := [];
      isOpen := false;
    }
  }

  /** The next bytes come from the first chunk. */
  lemma ChunkFirst(buffers: seq<Bytes>, index: nat, delta: nat)
    requires buffers != [] && index + delta <= |buffers[0]|
    ensures index + delta <= |Flat(buffers)|
    ensures Flat(buffers)[index..][..delta] == buffers[0][index..index + delta]
    ensures Flat(buffers)[index..][delta..] == Flat(buffers)[index + delta..]
    ensures index + delta == |buffers[0]| ==> Flat(buffers)[index + delta..] == Flat(buffers[1..])[0..]
  {}

  lemma Halves(all: Bytes, written: nat, delta: nat)
    requires written + delta <= |all|
    ensures all[..written] + all[written..][..delta] == all[..written + delta]
    ensures all[written..][delta..] == all[written + delta..]
  {}

  lemma ChunkCopied(before: Bytes, kept: Bytes, now: Bytes, all: Bytes, at: nat, delta: nat)
    requires |before| == |kept| == |now| && at + delta <= |now| && at + delta <= |all|
    requires before[..at] == all[..at] && before[at..] == kept[at..]
    requires now[..at + delta] == before[..at] + all[at..][..delta] && now[at + delta..] == before[at + delta..]
    ensures now[..at + delta] == all[..at + delta] && now[at + delta..] == kept[at + delta..]
  {
    assert before[at + delta..] == before[at..][delta..];
    assert kept[at + delta..] == kept[at..][delta..];
  }

  /** The memcpy. */
  method CopyChunk(buffer: Bytes, index: nat, data: array<Byte>, at: nat, delta: nat)
    requires index + delta <= |buffer| && at + delta <= data.Length
    modifies data
    ensures data[..at + delta] == old(data[..at]) + buffer[index..index + delta]
    ensures data[at + delta..] == old(data[at + delta..])
  {
    for i := 0 to delta
      invariant data[..at + i] == old(data[..at]) + buffer[index..index + i]
      invariant forall k :: at + i <= k < data.Length ==> data[k] == old(data[k])
    {
      data[at + i] := buffer[index + i];
    }
  }

  // ---- runs of one session

  datatype Action = Receive(data: Bytes) | Read(maxlen: int)

  datatype Session = Session(content: Bytes, received: Bytes, parts: seq<Bytes>)

  /** What `ReceiveData` and `ReadData` do to the content of an open buffer. */
  function Apply(s: Session, a: Action): Session {
    match a
    case Receive(data) => s.(content := s.content + data, received := s.received + data)
    case Read(maxlen) =>
      var n := if maxlen <= 0 then 0 else if maxlen <= |s.content| then maxlen else |s.content|;
      s.(content := s.content[n..], parts := s.parts + [s.content[..n]])
  }

  function After(s: Session, run: seq<Action>): Session
    decreases |run|
  {
    if run == [] then s else After(Apply(s, run[0]), run[1..])
  }

  lemma {:induction false} AfterSnoc(s: Session, run: seq<Action>, x: Action)
    ensures After(s, run + [x]) == Apply(After(s, run), x)
    decreases |run|
  {
    if run == [] {
      assert run + [x] == [x] && [x][1..] == [];
    } else {
      assert (run + [x])[1..] == run[1..] + [x];
      AfterSnoc(Apply(s, run[0]), run[1..], x);
    }
  }

  lemma PartMoves(parts: seq<Bytes>, content: Bytes, n: nat)
    requires n <= |content|
    ensures Flat(parts + [content[..n]]) + content[n..] == Flat(parts) + content
  {
    FlatSnoc(parts, content[..n]);
    assert content == content[..n] + content[n..];
  }

  lemma StepKeepsOrder(s: Session, a: Action) returns (s1: Session)
    requires s.received == Flat(s.parts) + s.content
    ensures s1 == Apply(s, a) && s1.received == Flat(s1.parts) + s1.content
  {
    s1 := Apply(s, a);
    match a
    case Receive(data) => assert Flat(s.parts) + (s.content + data) == Flat(s.parts) + s.content + data;
    case Read(maxlen) => PartMoves(s.parts, s.content, |s.content| - |s1.content|);
  }

  lemma {:induction false} RunKeepsOrder(s: Session, run: seq<Action>)
    requires s.received == Flat(s.parts) + s.content
    ensures var s' := After(s, run); s'.received == Flat(s'.parts) + s'.content
    decreases |run|
  {
    if run != [] {
      var s1 := StepKeepsOrder(s, run[0]);
      RunKeepsOrder(s1, run[1..]);
    }
  }

  /** The reads of a session, put together, are a prefix of what was received, and what is still
      in the buffer is the rest. */
  lemma BufferIsFifo(run: seq<Action>)
    ensures var s := After(Session([], [], []), run);
      Flat(s.parts) <= s.received && s.content == s.received[|Flat(s.parts)|..]
  {
    RunKeepsOrder(Session([], [], []), run);
  }
}
