/**
 What the reassembler guarantees: for every push, and over every sequence of
 pushes and reads.
 */
module ReassemblyProofs {
  import opened Types
  import opened ByteStreams
  import opened Reassembly

  // ---------------------------------------------------------------------
  // Capacity and structure, for arbitrary (even contradictory) pushes

  lemma DrainIdle(out: Stream, bs: seq<Block>, hi: nat)
    requires out.Valid() && Laid(bs, |out.history| + 1, hi)
    ensures Drain(out, bs) == (out, bs)
  {
  }

  /** Draining keeps the entries in order and never writes more than it discards. */
  lemma {:induction false} DrainSound(out: Stream, bs: seq<Block>, lo: nat)
    requires out.Valid() && !out.ended && Laid(bs, lo, out.Edge())
    ensures var (out', bs') := Drain(out, bs);
            && out' == out.(history := out'.history)
            && out.history <= out'.history && out'.Valid()
            && Laid(bs', |out'.history| + 1, out.Edge())
            && Size(bs') <= Size(bs)
            && |out'.history| - |out.history| <= Size(bs) - Size(bs')
            && (Solid(bs) ==> Solid(bs'))
    decreases |bs|
  {
    if bs == [] || |out.history| < bs[0].start {
    } else if bs[0].End() > |out.history| {
      DrainSound(out.Write(bs[0].data[|out.history| - bs[0].start..]), bs[1..], After(bs[0]));
    } else {
      DrainSound(out, bs[1..], After(bs[0]));
    }
  }

  lemma {:induction false} DrainHolds(out: Stream, bs: seq<Block>, lo: nat, i: nat)
    requires out.Valid() && !out.ended && Laid(bs, lo, out.Edge())
    ensures var (out', bs') := Drain(out, bs);
            i < |out'.history| || Holds(bs', i) <==> i < |out.history| || Holds(bs, i)
    decreases |bs|
  {
    if bs == [] || |out.history| < bs[0].start {
    } else if bs[0].End() > |out.history| {
      DrainHolds(out.Write(bs[0].data[|out.history| - bs[0].start..]), bs[1..], After(bs[0]), i);
    } else {
      DrainHolds(out, bs[1..], After(bs[0]), i);
    }
  }

  lemma AppendInv(r: Reassembler, data: seq<Byte>, index: nat)
    requires r.Inv() && index <= r.Next() <= index + |data|
    ensures var r' := Append(r, data, index);
            r'.Inv() && r'.eof == r.eof && r.out.history <= r'.out.history
            && r'.out == r.out.(history := r'.out.history) && (r.Exact() ==> r'.Exact())
  {
    hide Drain;
    var size := Min(Min(index + |data|, r.out.Edge()) - r.Next(), r.Room());
    var out := r.out.Write(data[r.Next() - index..r.Next() - index + size]);
    if r.out.ended {
      assert out.history == r.out.history;
      DrainIdle(out, r.blocks, r.out.Edge());
    } else {
      DrainSound(out, r.blocks, r.Next() + 1);
    }
  }

  lemma StoreInv(r: Reassembler, data: seq<Byte>, index: nat)
    requires r.Inv() && r.Next() < index <= r.out.Edge()
    ensures var r' := Store(r, data, index);
            r'.Inv() && r'.out == r.out && r'.eof == r.eof
  {
    hide Laid, Clear, Merge, Insert, Solid, Size;
    MergeSound(r.blocks, r.Next() + 1, r.out.Edge(), index, index + |data|, index, data);
    var m := Merge(r.blocks, index, index + |data|, index, data);
    if m.data != [] {
      var count := r.count - (Size(r.blocks) - Size(m.blocks));
      InsertCut(r, m, Min(Min(m.End(), r.out.Edge()) - m.index, r.out.capacity - r.out.Buffered() - count));
    }
  }

  lemma InsertCut(r: Reassembler, m: Merged, size: nat)
    requires Laid(m.blocks, r.Next() + 1, r.out.Edge()) && Clear(m.blocks, m.index, m.End())
    requires r.Next() < m.index && m.index + size <= r.out.Edge() && size <= |m.data|
    ensures var blocks := Insert(m.blocks, Block(m.index, m.data[..size]));
            Laid(blocks, r.Next() + 1, r.out.Edge()) && Size(blocks) <= Size(m.blocks) + size
  {
    ClearNarrower(m.blocks, m.index, m.End(), m.index, m.index + size);
    InsertLaid(m.blocks, Block(m.index, m.data[..size]), r.Next() + 1, r.out.Edge());
  }

  /**
   Every push whatever keeps the map in order and within the window and keeps
   buffered plus counted bytes within the capacity. Append, Store and Drain are
   defined on naturals, so none of the unsigned subtractions goes below zero.
   */
  lemma PushInv(r: Reassembler, data: seq<Byte>, index: nat, eof: bool)
    requires r.Inv()
    ensures Push(r, data, index, eof).Inv()
    ensures r.out.history <= Push(r, data, index, eof).out.history
    ensures r.out.ended ==> Push(r, data, index, eof).out == r.out
  {
    hide Store, Append;
    var r1 := r.(eof := EofAfter(r, data, index, eof));
    if r1.Next() >= r1.eof || index + |data| < r1.Next() || r1.out.Edge() < index {
    } else if index > r1.Next() {
      StoreInv(r1, data, index);
    } else {
      AppendInv(r1, data, index);
      if r.out.ended { AppendEnded(r1, data, index); }
    }
  }

  // Once the input has ended nothing more is written.
  lemma AppendEnded(r: Reassembler, data: seq<Byte>, index: nat)
    requires r.Inv() && index <= r.Next() <= index + |data| && r.out.ended
    ensures Append(r, data, index) == r
  {
    var size := Min(Min(index + |data|, r.out.Edge()) - r.Next(), r.Room());
    var out := r.out.Write(data[r.Next() - index..r.Next() - index + size]);
    assert out == r.out;
    DrainIdle(out, r.blocks, r.out.Edge());
  }

  lemma PopInv(r: Reassembler, len: nat)
    requires r.Inv()
    ensures Pop(r, len).Inv()
    ensures r.Exact() ==> Pop(r, len).Exact()
  {
    LaidHigher(r.blocks, r.Next() + 1, r.out.Edge(), Pop(r, len).out.Edge());
  }

  /**
   The other sum of index and length may be taken in 64 bits or not: while the window ends a
   push's length short of 2^64, an index for which it wraps lies beyond the window.
   */
  lemma RangeTestUnwrapped(r: Reassembler, data: seq<Byte>, index: nat)
    requires r.out.Edge() + |data| < TWO64 && index < TWO64
    ensures (index + |data|) % TWO64 < r.Next() || r.out.Edge() < index <==>
            index + |data| < r.Next() || r.out.Edge() < index
  {
  }

  // ---------------------------------------------------------------------
  // Exact accounting

  /** Substrings that start where every entry has ended leave the map alone. */
  lemma {:induction false} MergeBeyond(bs: seq<Block>, lo: nat, st: nat, data: seq<Byte>)
    requires Laid(bs, lo, st)
    ensures Merge(bs, st, st + |data|, st, data) == Merged(bs, st, data)
  {
    if bs != [] && st + |data| > bs[0].start {
      MergeBeyond(bs[1..], After(bs[0]), st, data);
      assert [bs[0]] + bs[1..] == bs;
    }
  }

  lemma {:induction false} InsertEmpty(bs: seq<Block>, lo: nat, at: nat)
    requires Laid(bs, lo, at) && Solid(bs)
    ensures !Solid(Insert(bs, Block(at, [])))
  {
    if bs == [] || at < bs[0].start {
    } else {
      InsertEmpty(bs[1..], After(bs[0]), at);
      var inserted := Insert(bs[1..], Block(at, []));
      assert ([bs[0]] + inserted)[1..] == inserted;
    }
  }

  /** A non-empty push that starts exactly at the right edge of the window. */
  predicate EdgePush(r: Reassembler, data: seq<Byte>, index: nat) {
    data != [] && index == r.out.Edge() && r.Next() < index
  }

  lemma StoreEdge(r: Reassembler, data: seq<Byte>)
    requires r.Exact() && data != [] && r.Next() < r.out.Edge()
    ensures !Store(r, data, r.out.Edge()).Exact()
  {
    MergeBeyond(r.blocks, r.Next() + 1, r.out.Edge(), data);
    assert data[..0] == [];
    SizeBound(r.blocks, r.Next() + 1, r.out.Edge());
    InsertEmpty(r.blocks, r.Next() + 1, r.out.Edge());
  }

  /** Off the edge the limit on the counted bytes never binds: the window alone cuts. */
  lemma StoreExact(r: Reassembler, data: seq<Byte>, index: nat)
    requires r.Exact() && r.Next() < index <= r.out.Edge() && !EdgePush(r, data, index)
    ensures var m := Merge(r.blocks, index, index + |data|, index, data);
            && MergeOk(r.blocks, r.Next() + 1, r.out.Edge(), index + |data|, index, m)
            && (m.data != [] ==>
                  var cut := Block(m.index, m.data[..Min(m.End(), r.out.Edge()) - m.index]);
                  && cut.data != [] && Clear(m.blocks, cut.start, cut.End())
                  && Store(r, data, index).blocks == Insert(m.blocks, cut))
            && (m.data == [] ==> Store(r, data, index) == r)
    ensures Store(r, data, index).Exact()
  {
    hide Merge, Insert, Laid, Clear, Solid, Size;
    var lo, hi := r.Next() + 1, r.out.Edge();
    MergeSound(r.blocks, lo, hi, index, index + |data|, index, data);
    var m := Merge(r.blocks, index, index + |data|, index, data);
    if m.data != [] {
      var cut := Block(m.index, m.data[..Min(m.End(), hi) - m.index]);
      if index == hi { MergeBeyond(r.blocks, lo, index, data); }
      ClearNarrower(m.blocks, m.index, m.End(), cut.start, cut.End());
      InsertLaid(m.blocks, cut, lo, hi);
      InsertSolid(m.blocks, cut);
      SizeBound(Insert(m.blocks, cut), lo, hi);
    }
  }

  lemma StoreExactIff(r: Reassembler, data: seq<Byte>, index: nat)
    requires r.Exact() && r.Next() < index <= r.out.Edge()
    ensures Store(r, data, index).Exact() <==> !EdgePush(r, data, index)
  {
    hide Store, Reassembler.Exact;
    if EdgePush(r, data, index) {
      StoreEdge(r, data);
    } else {
      StoreExact(r, data, index);
    }
  }

  lemma ExactInv(r: Reassembler)
    requires r.Exact()
    ensures r.Inv()
  {
  }

  // Neither the end mark nor the end of input matters to the accounting.
  lemma ExactEnd(r: Reassembler, eof: nat)
    ensures r.(eof := eof).Exact() <==> r.Exact()
    ensures CloseIfComplete(r).Exact() <==> r.Exact()
  {
  }

  /**
   From an exact state, a push keeps accounting exact if and only if it is not an
   edge push that arrives before the end of the stream is reached.
   */
  lemma PushExactIff(r: Reassembler, data: seq<Byte>, index: nat, eof: bool)
    requires r.Exact()
    ensures Push(r, data, index, eof).Exact()
            <==> !(EdgePush(r, data, index) && r.Next() < EofAfter(r, data, index, eof))
  {
    hide Store, Append, Reassembler.Exact, Reassembler.Inv, CloseIfComplete;
    assert r.Inv() by { ExactInv(r); }
    var r1 := r.(eof := EofAfter(r, data, index, eof));
    ExactEnd(r, r1.eof);
    assert r1.Inv() by { ExactInv(r1); }
    if r1.Next() >= r1.eof || index + |data| < r1.Next() || r1.out.Edge() < index {
      ExactEnd(r1, r1.eof);
    } else if index > r1.Next() {
      StoreExactIff(r1, data, index);
      ExactEnd(Store(r1, data, index), r1.eof);
    } else {
      AppendInv(r1, data, index);
      ExactEnd(Append(r1, data, index), r1.eof);
    }
  }

  /** The stored indices. */
  function Cells(bs: seq<Block>): set<nat> {
    if bs == [] then {} else Range(bs[0].start, bs[0].End()) + Cells(bs[1..])
  }

  lemma {:induction false} CellsHold(bs: seq<Block>, i: nat)
    ensures i in Cells(bs) <==> Holds(bs, i)
  {
    if bs == [] {
    } else {
      CellsHold(bs[1..], i);
    }
  }

  lemma {:induction false} CellsCount(bs: seq<Block>, lo: nat, hi: nat)
    requires Laid(bs, lo, hi)
    ensures |Cells(bs)| == Size(bs)
  {
    if bs == [] {
    } else {
      CellsCount(bs[1..], After(bs[0]), hi);
      forall i | i in Range(bs[0].start, bs[0].End())
        ensures i !in Cells(bs[1..])
      {
        CellsHold(bs[1..], i);
        if Holds(bs[1..], i) { HoldsLaid(bs[1..], After(bs[0]), hi, i); }
      }
      assert Range(bs[0].start, bs[0].End()) !! Cells(bs[1..]);
    }
  }

  /** With exact accounting the counter is the number of distinct stored indices. */
  lemma ExactCounts(r: Reassembler, i: nat)
    requires r.Exact()
    ensures r.count == |Cells(r.blocks)| && (i in Cells(r.blocks) <==> Holds(r.blocks, i))
  {
    CellsCount(r.blocks, r.Next() + 1, r.out.Edge());
    CellsHold(r.blocks, i);
  }

  // ---------------------------------------------------------------------
  // Which indices are held

  /** The byte at index i has been assembled or is stored. */
  predicate Held(r: Reassembler, i: nat) {
    i < r.Next() || Holds(r.blocks, i)
  }

  /** The end of what a push can add: above the prefix the window cuts, at the prefix also the counter. */
  function Limit(r: Reassembler, data: seq<Byte>, index: nat): int {
    var bound := Min(index + |data|, r.out.Edge());
    if index > r.Next() then bound else Min(bound, r.out.Edge() - r.count)
  }

  lemma StoreHeld(r: Reassembler, data: seq<Byte>, index: nat, i: nat)
    requires r.Exact() && r.Next() < index <= r.out.Edge() && !EdgePush(r, data, index)
    ensures Held(Store(r, data, index), i) <==> Held(r, i) || index <= i < Min(index + |data|, r.out.Edge())
  {
    hide Store;
    var lo, hi := r.Next() + 1, r.out.Edge();
    StoreExact(r, data, index);
    StoreInv(r, data, index);
    MergeHolds(r.blocks, lo, hi, index, index + |data|, index, data, i);
    var m := Merge(r.blocks, index, index + |data|, index, data);
    if m.data != [] {
      var cut := Block(m.index, m.data[..Min(m.End(), hi) - m.index]);
      InsertHolds(m.blocks, cut, i);
    }
    if Holds(r.blocks, i) { HoldsLaid(r.blocks, lo, hi, i); }
    if Holds(m.blocks, i) { HoldsLaid(m.blocks, lo, hi, i); }
  }

  lemma AppendHeld(r: Reassembler, data: seq<Byte>, index: nat, i: nat)
    requires r.Inv() && index <= r.Next() <= index + |data| && !r.out.ended
    ensures Held(Append(r, data, index), i) <==> Held(r, i) || index <= i < Limit(r, data, index)
  {
    var size := Min(Min(index + |data|, r.out.Edge()) - r.Next(), r.Room());
    var out := r.out.Write(data[r.Next() - index..r.Next() - index + size]);
    DrainHolds(out, r.blocks, r.Next() + 1, i);
  }

  /** A push adds to the held indices exactly the part of its range below its limit. */
  lemma PushHeld(r: Reassembler, data: seq<Byte>, index: nat, eof: bool, i: nat)
    requires r.Exact() && !r.out.ended && !EdgePush(r, data, index)
    requires r.Next() < EofAfter(r, data, index, eof)
    ensures Held(Push(r, data, index, eof), i) <==> Held(r, i) || index <= i < Limit(r, data, index)
  {
    hide Store, Append, Laid, Solid, Size, Holds;
    var r1 := r.(eof := EofAfter(r, data, index, eof));
    if index + |data| < r1.Next() || r1.out.Edge() < index {
    } else if index > r1.Next() {
      StoreHeld(r1, data, index, i);
    } else {
      AppendHeld(r1, data, index, i);
    }
  }

  /** What is assembled is the longest prefix of what is held: the next index is missing. */
  lemma NextMissing(r: Reassembler)
    requires r.Inv()
    ensures !Held(r, r.Next())
  {
    if Holds(r.blocks, r.Next()) {
      HoldsLaid(r.blocks, r.Next() + 1, r.out.Edge(), r.Next());
    }
  }

  /**
   With exact accounting, a push that brings the next byte while the buffer has
   room and the input has not ended writes at least that byte.
   */
  lemma PushProgress(r: Reassembler, data: seq<Byte>, index: nat, eof: bool)
    requires r.Exact() && !r.out.ended && r.out.Buffered() < r.out.capacity
    requires index <= r.Next() < index + |data| && r.Next() < EofAfter(r, data, index, eof)
    ensures Push(r, data, index, eof).Next() > r.Next()
  {
    hide Push, Laid, Solid, Holds;
    SizeBound(r.blocks, r.Next() + 1, r.out.Edge());
    PushHeld(r, data, index, eof, r.Next());
    PushInv(r, data, index, eof);
    NextMissing(Push(r, data, index, eof));
  }

  // ---------------------------------------------------------------------
  // Every interleaving of pushes and reads

  /** Any call at all, of any data: nothing says that pushes agree with one stream. */
  datatype Command = PushSubstring(data: seq<Byte>, index: nat, eof: bool) | ReadOutput(len: nat)

  ghost function Replay(r: Reassembler, cmds: seq<Command>): (r': Reassembler)
    requires r.Inv()
    ensures r'.Inv()
  {
    if cmds == [] then r
    else
      var p := Replay(r, cmds[..|cmds| - 1]);
      match cmds[|cmds| - 1]
      case PushSubstring(data, index, eof) => PushInv(p, data, index, eof); Push(p, data, index, eof)
      case ReadOutput(len) => PopInv(p, len); Pop(p, len)
  }

  /** No push of the run is an edge push. */
  ghost predicate EdgeFree(r: Reassembler, cmds: seq<Command>)
    requires r.Inv()
  {
    cmds == []
    || (var n := |cmds| - 1;
        && EdgeFree(r, cmds[..n])
        && !(cmds[n].PushSubstring? && EdgePush(Replay(r, cmds[..n]), cmds[n].data, cmds[n].index)))
  }

  lemma CapacityKept(r: Reassembler, data: seq<Byte>, index: nat, eof: bool)
    requires r.Inv()
    ensures Push(r, data, index, eof).out.capacity == r.out.capacity
    ensures Push(r, data, index, eof).out.popped == r.out.popped
    ensures Push(r, data, index, eof).out.error == r.out.error
  {
    hide Store, Append;
    var r1 := r.(eof := EofAfter(r, data, index, eof));
    if r1.Next() >= r1.eof || index + |data| < r1.Next() || r1.out.Edge() < index {
    } else if index > r1.Next() {
      StoreInv(r1, data, index);
    } else {
      AppendInv(r1, data, index);
    }
  }

  lemma {:induction false} CapacityConstant(r: Reassembler, cmds: seq<Command>)
    requires r.Inv()
    ensures Replay(r, cmds).out.capacity == r.out.capacity
  {
    if cmds == [] {
    } else {
      hide Store, Append, Reassembler.Inv;
      var n := |cmds| - 1;
      CapacityConstant(r, cmds[..n]);
      var p := Replay(r, cmds[..n]);
      if cmds[n].PushSubstring? {
        CapacityKept(p, cmds[n].data, cmds[n].index, cmds[n].eof);
      }
    }
  }

  /**
   After any calls whatever, buffered plus counted bytes fit the capacity, the counter
   covers the stored bytes, and the entries are disjoint, in order, above the assembled
   prefix and inside the window.
   */
  lemma CapacityOverRuns(capacity: nat, cmds: seq<Command>, i: nat, j: nat)
    ensures NewReassembler(capacity).Inv()
    ensures var r := Replay(NewReassembler(capacity), cmds);
            && r.out.Buffered() + r.count <= capacity && Size(r.blocks) <= r.count
            && (i < |r.blocks| ==> r.Next() < r.blocks[i].start && r.blocks[i].End() <= r.out.popped + capacity)
            && (i < j < |r.blocks| ==> r.blocks[i].start < r.blocks[j].start && r.blocks[i].End() <= r.blocks[j].start)
  {
    var r := Replay(NewReassembler(capacity), cmds);
    CapacityConstant(NewReassembler(capacity), cmds);
    if i < |r.blocks| {
      LaidWithin(r.blocks, r.Next() + 1, r.out.Edge(), i);
    }
    if i < j < |r.blocks| {
      LaidMeans(r.blocks, r.Next() + 1, r.out.Edge(), i, j);
    }
  }

  /** After any calls without an edge push, accounting is exact. */
  lemma {:induction false} ExactOverRuns(capacity: nat, cmds: seq<Command>)
    requires NewReassembler(capacity).Inv() && EdgeFree(NewReassembler(capacity), cmds)
    ensures Replay(NewReassembler(capacity), cmds).Exact()
  {
    if cmds == [] {
    } else {
      hide Push, Reassembler.Inv;
      var n := |cmds| - 1;
      ExactOverRuns(capacity, cmds[..n]);
      var p := Replay(NewReassembler(capacity), cmds[..n]);
      if cmds[n].PushSubstring? {
        PushExactIff(p, cmds[n].data, cmds[n].index, cmds[n].eof);
      } else {
        PopInv(p, cmds[n].len);
      }
    }
  }
}
