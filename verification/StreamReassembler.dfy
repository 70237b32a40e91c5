/**
 The stream reassembler as the program runs it: an object whose map, counters
 and output stream are updated in place (libsponge/stream_reassembler.cc).
 */
module StreamReassemblers {
  import opened Types
  import opened ByteStreams
  import opened Reassembly
  import opened ReassemblyProofs

  lemma {:induction false} SizeErase(bs: seq<Block>, i: nat)
    requires i < |bs|
    ensures Size(bs[..i] + bs[i + 1..]) == Size(bs) - |bs[i].data|
  {
    if i == 0 {
      assert bs[..0] + bs[1..] == bs[1..];
    } else {
      SizeErase(bs[1..], i - 1);
      assert (bs[..i] + bs[i + 1..])[1..] == bs[1..][..i - 1] + bs[1..][i..];
    }
  }

  /** What the scan will yield when it stands at entry `iter`. */
  ghost function Pending(bs: seq<Block>, iter: nat, st: nat, ed: nat, index: nat, data: seq<Byte>): Merged
    requires iter <= |bs|
  {
    var m := Merge(bs[iter..], st, ed, index, data);
    m.(blocks := bs[..iter] + m.blocks)
  }

  // The scan leaves entry `iter` in place and goes on with data'.
  lemma PendingSkip(bs: seq<Block>, iter: nat, st: nat, ed: nat, index: nat, data: seq<Byte>, data': seq<Byte>)
    requires iter < |bs|
    requires Merge(bs[iter..], st, ed, index, data) == Merge(bs[iter + 1..], st, ed, index, data').Keep(bs[iter])
    ensures Pending(bs, iter, st, ed, index, data) == Pending(bs, iter + 1, st, ed, index, data')
  {
    assert bs[..iter + 1] == bs[..iter] + [bs[iter]];
  }

  class StreamReassembler {
    const output: ByteStream
    const capacity: nat
    var unassembledBytes: seq<Block>
    var unassembledCnt: nat
    var unassembledIndex: nat
    var unacceptedIndex: nat
    var eofIndex: nat

    ghost predicate Valid()
      reads this, output
    {
      && output.Valid()
      && capacity == output.capacity
      && unassembledIndex == |output.history|
      && Model().Inv()
    }

    ghost function Model(): Reassembler
      reads this, output
    {
      Reassembler(output.Model(), unassembledBytes, unassembledCnt, eofIndex)
    }

    constructor (capacity: nat)
      ensures Valid() && fresh(output)
      ensures Model() == NewReassembler(capacity)
    {
      output := new ByteStream(capacity);
      this.capacity := capacity;
      unassembledBytes, unassembledCnt, unassembledIndex, unacceptedIndex, eofIndex := [], 0, 0, 0, SIZE_MAX;
    }

    method PushSubstring(data: seq<Byte>, index: nat, eof: bool)
      requires Valid()
      modifies this, output
      ensures Valid()
      ensures Model() == Push(old(Model()), data, index, eof)
    {
      hide Store, Append, Laid;
      ghost var start := Model();
      PushInv(start, data, index, eof);
      if eof {
        eofIndex := (index + |data|) % TWO64;
      }
      if unassembledIndex >= eofIndex {
        output.EndInput();
        return;
      }
      unacceptedIndex := output.BytesRead() + capacity;
      if index + |data| < unassembledIndex || index > unacceptedIndex {
        return;
      }
      if index > unassembledIndex {
        MergeString(data, index);
      } else {
        AppendString(data, index);
      }
      if unassembledIndex >= eofIndex {
        output.EndInput();
      }
    }

    // The branch of push_substring for data that reaches the assembled prefix.
    method AppendString(data: seq<Byte>, index: nat)
      requires Valid() && index <= unassembledIndex <= index + |data|
      requires unacceptedIndex == output.Model().Edge()
      modifies this, output
      ensures Valid()
      ensures Model() == Append(old(Model()), data, index)
    {
      hide Laid, Drain, Size;
      ghost var start := Model();
      AppendInv(start, data, index);
      var boundIndex := Min(index + |data|, unacceptedIndex);
      var from := unassembledIndex - index;
      var size := Min(boundIndex - unassembledIndex, capacity - output.BufferSize() - UnassembledBytes());
      var written := output.Write(data[from..from + size]);
      unassembledIndex := unassembledIndex + written;
      DrainEntries();
    }

    // The loop that moves entries the prefix has reached from the map to the output.
    method DrainEntries()
      requires output.Valid() && unassembledIndex == |output.history| && Size(unassembledBytes) <= unassembledCnt
      modifies this`unassembledBytes, this`unassembledCnt, this`unassembledIndex, output
      ensures output.Valid() && unassembledIndex == |output.history|
      ensures (output.Model(), unassembledBytes) == Drain(old(output.Model()), old(unassembledBytes))
      ensures unassembledCnt - Size(unassembledBytes) == old(unassembledCnt - Size(unassembledBytes))
    {
      while unassembledBytes != []
        invariant output.Valid() && unassembledIndex == |output.history|
        invariant Size(unassembledBytes) <= unassembledCnt
        invariant unassembledCnt - Size(unassembledBytes) == old(unassembledCnt - Size(unassembledBytes))
        invariant Drain(output.Model(), unassembledBytes) == Drain(old(output.Model()), old(unassembledBytes))
        decreases |unassembledBytes|
      {
        var first := unassembledBytes[0];
        if first.start <= unassembledIndex {
          if first.End() > unassembledIndex {
            var written := output.Write(first.data[unassembledIndex - first.start..]);
            unassembledIndex := unassembledIndex + written;
          }
          unassembledCnt := unassembledCnt - |unassembledBytes[0].data|;
          unassembledBytes := unassembledBytes[1..];
        } else {
          break;
        }
      }
    }

    method MergeString(input: seq<Byte>, at: nat)
      requires Valid() && unassembledIndex < at <= output.Model().Edge()
      modifies this
      ensures Valid()
      ensures Model() == Store(old(Model()), input, at)
    {
      hide Laid, Merge, Insert, Size;
      ghost var start := Model();
      StoreInv(start, input, at);
      MergeFits(start, input, at);
      var index, data := MergeEntries(input, at);
      if data != [] {
        unacceptedIndex := output.BytesRead() + capacity;
        var boundIndex := Min(index + |data|, unacceptedIndex);
        var insertSize := Min(boundIndex - index, capacity - output.BufferSize() - UnassembledBytes());
        unassembledCnt := unassembledCnt + insertSize;
        unassembledBytes := Insert(unassembledBytes, Block(index, data[..insertSize]));
      }
    }

    // The loop of merge_string: absorb or drop what overlaps the substring.
    method MergeEntries(input: seq<Byte>, at: nat) returns (index: nat, data: seq<Byte>)
      requires Size(unassembledBytes) <= unassembledCnt
      modifies this`unassembledBytes, this`unassembledCnt
      ensures Merged(unassembledBytes, index, data) == Merge(old(unassembledBytes), at, at + |input|, at, input)
      ensures unassembledCnt - Size(unassembledBytes) == old(unassembledCnt - Size(unassembledBytes))
    {
      index, data := at, input;
      var st, ed := index, index + |data|;
      ghost var goal := Pending(unassembledBytes, 0, st, ed, index, data);
      var iter: nat := 0;
      while iter < |unassembledBytes|
        invariant iter <= |unassembledBytes|
        invariant Size(unassembledBytes) <= unassembledCnt
        invariant unassembledCnt - Size(unassembledBytes) == old(unassembledCnt - Size(unassembledBytes))
        invariant goal == Pending(unassembledBytes, iter, st, ed, index, data)
        decreases |unassembledBytes| - iter
      {
        var entry := unassembledBytes[iter];
        assert unassembledBytes[iter..][0] == entry && unassembledBytes[iter..][1..] == unassembledBytes[iter + 1..];
        if index + |data| <= entry.start {
          break;
        }
        if st < entry.End() && entry.start < ed {
          if st <= entry.start && ed >= entry.End() {
            Erase(iter);
          } else if entry.start <= st && entry.End() >= ed {
            PendingSkip(unassembledBytes, iter, st, ed, index, data, []);
            data := [];
            iter := iter + 1;
          } else {
            if st <= entry.start {
              data := data + entry.data[ed - entry.start..];
            } else {
              index := entry.start;
              data := entry.data[..st - entry.start] + data;
            }
            Erase(iter);
          }
        } else {
          PendingSkip(unassembledBytes, iter, st, ed, index, data, data);
          iter := iter + 1;
        }
      }
      assert unassembledBytes[..iter] + unassembledBytes[iter..] == unassembledBytes;
    }

    // map::erase of the entry at an iterator, which then designates the next entry
    method Erase(iter: nat)
      requires iter < |unassembledBytes| && Size(unassembledBytes) <= unassembledCnt
      modifies this`unassembledBytes, this`unassembledCnt
      ensures unassembledBytes == old(unassembledBytes[..iter] + unassembledBytes[iter + 1..])
      ensures unassembledBytes[..iter] == old(unassembledBytes[..iter])
      ensures unassembledBytes[iter..] == old(unassembledBytes[iter + 1..])
      ensures Size(unassembledBytes) <= unassembledCnt
      ensures unassembledCnt - Size(unassembledBytes) == old(unassembledCnt - Size(unassembledBytes))
    {
      SizeErase(unassembledBytes, iter);
      unassembledCnt := unassembledCnt - |unassembledBytes[iter].data|;
      unassembledBytes := unassembledBytes[..iter] + unassembledBytes[iter + 1..];
    }

    function UnassembledBytes(): nat
      reads this
    {
      unassembledCnt
    }
  }
}
