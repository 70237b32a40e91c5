/**
 The in-memory byte stream (libsponge/byte_stream.cc): a bounded FIFO that is
 written at one end and popped at the other.
 */
module ByteStreams {
  import opened Types

  /**
   The abstract stream. `history` holds every byte ever accepted, in order, and
   `popped` counts the bytes the reader has removed, so what is buffered is the
   rest of the history and the FIFO law is built into the representation.
   */
  datatype Stream = Stream(history: seq<Byte>, popped: nat, capacity: nat, ended: bool, error: bool)
  {
    predicate Valid() {
      popped <= |history| <= popped + capacity
    }

    function Buffered(): int {
      |history| - popped
    }

    /** The first stream index that does not fit until the reader pops more. */
    function Edge(): nat {
      popped + capacity
    }

    predicate Eof() {
      ended && Buffered() == 0
    }

    function Accepts(data: seq<Byte>): nat
      requires Valid()
    {
      if ended then 0 else Min(|data|, capacity - Buffered())
    }

    function Write(data: seq<Byte>): (s: Stream)
      requires Valid()
      ensures s.Valid()
    {
      this.(history := history + data[..Accepts(data)])
    }

    function Pop(len: nat): (s: Stream)
      requires Valid()
      ensures s.Valid()
    {
      this.(popped := popped + Min(len, Buffered()))
    }

    function Peek(len: nat): seq<Byte>
      requires Valid()
    {
      history[popped..popped + Min(len, Buffered())]
    }

    function EndInput(): Stream {
      this.(ended := true)
    }

    function SetError(): Stream {
      this.(error := true)
    }
  }

  function NewStream(capacity: nat): Stream {
    Stream([], 0, capacity, false, false)
  }

  class ByteStream {
    var buffer: seq<Byte>
    const capacity: nat
    var writtenSize: nat
    var readSize: nat
    var inputEnd: bool
    var failed: bool
    ghost var history: seq<Byte>

    ghost predicate Valid()
      reads this
    {
      && writtenSize == |history|
      && readSize <= |history|
      && buffer == history[readSize..]
      && |buffer| <= capacity
    }

    ghost function Model(): Stream
      reads this
    {
      Stream(history, readSize, capacity, inputEnd, failed)
    }

    constructor (capacity: nat)
      ensures Valid() && Model() == NewStream(capacity)
    {
      this.capacity := capacity;
      buffer, writtenSize, readSize, inputEnd, failed := [], 0, 0, false, false;
      history := [];
    }

    method Write(data: seq<Byte>) returns (accepted: nat)
      requires Valid()
      modifies this
      ensures Valid() && Model() == old(Model()).Write(data)
      ensures accepted == old(Model()).Accepts(data)
      ensures accepted == if old(inputEnd) then 0 else Min(|data|, capacity - |old(buffer)|)
      ensures buffer == old(buffer) + data[..accepted]
    {
      if InputEnded() {
        assert data[..0] == [];
        return 0;
      }
      accepted := Min(|data|, capacity - |buffer|);
      buffer := buffer + data[..accepted];
      writtenSize := writtenSize + accepted;
      history := history + data[..accepted];
    }

    method PeekOutput(len: nat) returns (output: seq<Byte>)
      requires Valid()
      ensures output == Model().Peek(len) == buffer[..Min(len, |buffer|)]
    {
      var size := Min(len, |buffer|);
      output := buffer[..size];
    }

    method PopOutput(len: nat)
      requires Valid()
      modifies this
      ensures Valid() && Model() == old(Model()).Pop(len)
      ensures buffer == old(buffer)[Min(len, |old(buffer)|)..]
    {
      var size := Min(len, |buffer|);
      buffer := buffer[size..];
      readSize := readSize + size;
    }

    /** The bytes returned are the next bytes ever written, in order. */
    method Read(len: nat) returns (output: seq<Byte>)
      requires Valid()
      modifies this
      ensures Valid() && Model() == old(Model()).Pop(len)
      ensures output == old(Model()).Peek(len)
      ensures old(history[..readSize]) + output == history[..readSize]
    {
      output := PeekOutput(len);
      PopOutput(|output|);
    }

    method EndInput()
      requires Valid()
      modifies this
      ensures Valid() && Model() == old(Model()).EndInput()
    {
      inputEnd := true;
    }

    method SetError()
      requires Valid()
      modifies this
      ensures Valid() && Model() == old(Model()).SetError()
    {
      failed := true;
    }

    predicate InputEnded()
      reads this
    {
      inputEnd
    }

    predicate Error()
      reads this
    {
      failed
    }

    function BufferSize(): (size: nat)
      requires Valid()
      reads this
      ensures size == Model().Buffered()
    {
      |buffer|
    }

    predicate Eof()
      requires Valid()
      reads this
      ensures Eof() == Model().Eof()
    {
      inputEnd && buffer == []
    }

    function BytesWritten(): (n: nat)
      requires Valid()
      reads this
      ensures n == |Model().history|
    {
      writtenSize
    }

    function BytesRead(): (n: nat)
      reads this
      ensures n == Model().popped
    {
      readSize
    }

    function RemainingCapacity(): (n: nat)
      requires Valid()
      reads this
      ensures n == Model().Edge() - |Model().history|
    {
      capacity - |buffer|
    }
  }
}
