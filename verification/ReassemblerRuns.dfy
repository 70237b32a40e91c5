/**
 The reassembler against the stream it reassembles: contents, completeness,
 whole runs, and the two ways in which it falls short.
 */
module ReassemblyRuns {
  import opened Types
  import opened ByteStreams
  import opened Reassembly
  import opened ReassemblyProofs

  // ---------------------------------------------------------------------
  // Contents

  /** Every entry is an excerpt of the stream s. */
  predicate Agree(bs: seq<Block>, s: seq<Byte>) {
    bs == [] || (bs[0].End() <= |s| && bs[0].data == s[bs[0].start..bs[0].End()] && Agree(bs[1..], s))
  }

  lemma {:induction false} AgreeLonger(bs: seq<Block>, s: seq<Byte>, t: seq<Byte>)
    requires Agree(bs, s) && s <= t
    ensures Agree(bs, t)
  {
    if bs == [] {
    } else {
      AgreeLonger(bs[1..], s, t);
    }
  }

  // Two excerpts of s, the first up to ed and the second from mid to end, glued at ed.
  lemma TakesOver(s: seq<Byte>, from: nat, mid: nat, ed: nat, end: nat)
    requires from <= ed <= end <= |s| && mid <= ed
    ensures s[from..ed] + s[mid..end][ed - mid..] == s[from..end]
  {
    assert s[mid..end][ed - mid..] == s[ed..end];
  }

  lemma AgreePrepended(b: Block, bs: seq<Block>, s: seq<Byte>)
    requires Agree(bs, s) && b.End() <= |s| && b.data == s[b.start..b.End()]
    ensures Agree([b] + bs, s)
  {
    assert ([b] + bs)[1..] == bs;
  }

  lemma {:induction false} MergeAgree(bs: seq<Block>, lo: nat, hi: nat, st: nat, ed: nat, index: nat,
                                      data: seq<Byte>, s: seq<Byte>)
    requires Scanning(bs, lo, hi, st, ed, index, data)
    requires Agree(bs, s) && ed <= |s| && data == s[index..ed]
    ensures var m := Merge(bs, st, ed, index, data);
            Agree(m.blocks, s) && m.End() <= |s| && m.data == s[m.index..m.End()]
  {
    if bs == [] || index + |data| <= bs[0].start {
    } else {
      var b, rest := bs[0], bs[1..];
      assert Laid(rest, After(b), hi) && Agree(rest, s) && b.End() <= |s| && b.data == s[b.start..b.End()];
      hide Laid, Agree;
      if st < b.End() && b.start < ed {
        if st <= b.start && b.End() <= ed {
          MergeAgree(rest, After(b), hi, st, ed, index, data, s);
        } else if b.start <= st && ed <= b.End() {
          assert Merge(rest, st, ed, index, []) == Merged(rest, index, []);
          assert [b] + rest == bs;
        } else if st <= b.start {
          var grown := data + b.data[ed - b.start..];
          TakesOver(s, index, b.start, ed, b.End());
          assert Merge(rest, st, ed, index, grown) == Merged(rest, index, grown);
        } else {
          var grown := b.data[..st - b.start] + data;
          TakesOver(s, b.start, index, index, ed);
          MergeAgree(rest, After(b), hi, st, ed, b.start, grown, s);
        }
      } else {
        MergeAgree(rest, After(b), hi, st, ed, index, data, s);
        AgreePrepended(b, Merge(rest, st, ed, index, data).blocks, s);
      }
    }
  }

  lemma {:induction false} InsertAgree(bs: seq<Block>, b: Block, s: seq<Byte>)
    requires Agree(bs, s) && b.End() <= |s| && b.data == s[b.start..b.End()]
    ensures Agree(Insert(bs, b), s)
  {
    if bs == [] || b.start < bs[0].start {
      assert ([b] + bs)[1..] == bs;
    } else if b.start > bs[0].start {
      InsertAgree(bs[1..], b, s);
      assert ([bs[0]] + Insert(bs[1..], b))[1..] == Insert(bs[1..], b);
    }
  }

  lemma {:induction false} DrainAgree(out: Stream, bs: seq<Block>, s: seq<Byte>)
    requires out.Valid() && out.history <= s && Agree(bs, s)
    ensures var (out', bs') := Drain(out, bs); out'.history <= s && Agree(bs', s)
    decreases |bs|
  {
    if bs == [] || |out.history| < bs[0].start {
    } else if bs[0].End() > |out.history| {
      DrainAgree(out.Write(bs[0].data[|out.history| - bs[0].start..]), bs[1..], s);
    } else {
      DrainAgree(out, bs[1..], s);
    }
  }

  lemma StoreAgree(r: Reassembler, data: seq<Byte>, index: nat, s: seq<Byte>)
    requires r.Inv() && r.Next() < index <= r.out.Edge()
    requires Agree(r.blocks, s) && index + |data| <= |s| && data == s[index..index + |data|]
    ensures Agree(Store(r, data, index).blocks, s)
  {
    hide Laid, Merge, Insert, Agree, Solid;
    MergeAgree(r.blocks, r.Next() + 1, r.out.Edge(), index, index + |data|, index, data, s);
    MergeFits(r, data, index);
    var m := Merge(r.blocks, index, index + |data|, index, data);
    if m.data != [] {
      var count := r.count - (Size(r.blocks) - Size(m.blocks));
      var size := Min(Min(m.End(), r.out.Edge()) - m.index, r.out.capacity - r.out.Buffered() - count);
      InsertAgree(m.blocks, Block(m.index, m.data[..size]), s);
    }
  }

  lemma SliceSlice(s: seq<Byte>, i: nat, j: nat, a: nat, b: nat)
    requires i <= j <= |s| && a <= b <= j - i
    ensures s[i..j][a..b] == s[i + a..i + b]
  {
    forall k | 0 <= k < b - a
      ensures s[i..j][a..b][k] == s[i + a..i + b][k]
    {
    }
  }

  lemma WriteAgree(out: Stream, size: nat, s: seq<Byte>)
    requires out.Valid() && out.history <= s && |out.history| + size <= |s|
    ensures out.Write(s[|out.history|..|out.history| + size]).history <= s
  {
  }

  lemma JoinedAgree(r: Reassembler, data: seq<Byte>, index: nat, s: seq<Byte>)
    requires r.Inv() && index <= r.Next() <= index + |data|
    requires r.out.history <= s && index + |data| <= |s| && data == s[index..index + |data|]
    ensures Joined(r, data, index).history <= s
  {
    hide Laid, Size;
    var size := Min(Min(index + |data|, r.out.Edge()) - r.Next(), r.Room());
    var skip := r.Next() - index;
    SliceSlice(s, index, index + |data|, skip, skip + size);
    WriteAgree(r.out, size, s);
  }

  lemma AppendAgree(r: Reassembler, data: seq<Byte>, index: nat, s: seq<Byte>)
    requires r.Inv() && index <= r.Next() <= index + |data|
    requires r.out.history <= s && Agree(r.blocks, s) && index + |data| <= |s| && data == s[index..index + |data|]
    ensures var r' := Append(r, data, index); r'.out.history <= s && Agree(r'.blocks, s)
  {
    hide Laid, Agree, Drain, Size, Joined;
    JoinedAgree(r, data, index, s);
    DrainAgree(Joined(r, data, index), r.blocks, s);
  }

  /**
   r is reassembling s: everything in it is an excerpt of s, the end mark is
   known only if s is complete, and the output has ended exactly when the whole
   of a complete s has been assembled.
   */
  ghost predicate Follows(r: Reassembler, s: seq<Byte>, complete: bool) {
    && r.out.history <= s
    && Agree(r.blocks, s)
    && |s| < SIZE_MAX
    && (r.eof == SIZE_MAX || (complete && r.eof == |s|))
    && (r.out.ended <==> r.Next() >= r.eof)
  }

  /** Excerpts of s keep the reassembler an assembly of s, and the input ends only with all of s. */
  lemma PushFollows(r: Reassembler, data: seq<Byte>, index: nat, eof: bool, s: seq<Byte>, complete: bool)
    requires r.Inv() && Follows(r, s, complete)
    requires index + |data| <= |s| && data == s[index..index + |data|]
    requires eof ==> complete && index + |data| == |s|
    ensures Follows(Push(r, data, index, eof), s, complete)
    ensures eof || r.eof != SIZE_MAX ==> Push(r, data, index, eof).eof == |s|
  {
    hide Store, Append;
    var r1 := r.(eof := EofAfter(r, data, index, eof));
    if r1.Next() >= r1.eof || index + |data| < r1.Next() || r1.out.Edge() < index {
    } else if index > r1.Next() {
      StoreInv(r1, data, index);
      StoreAgree(r1, data, index, s);
    } else {
      AppendInv(r1, data, index);
      AppendAgree(r1, data, index, s);
    }
  }

  /** Empty substrings, such as bare acknowledgements carry, store and write nothing. */
  lemma PushNothing(r: Reassembler, index: nat)
    requires r.Inv() && (r.out.ended <==> r.Next() >= r.eof)
    ensures Push(r, [], index, false) == r
  {
    if r.Next() < r.eof && r.Next() <= index <= r.out.Edge() {
      if index > r.Next() {
        MergeNothing(r.blocks, index);
      } else {
        var out := r.out.Write([]);
        assert out == r.out;
        DrainIdle(out, r.blocks, r.out.Edge());
      }
    }
  }

  lemma {:induction false} MergeNothing(bs: seq<Block>, st: nat)
    ensures Merge(bs, st, st, st, []) == Merged(bs, st, [])
  {
    if bs != [] && st > bs[0].start {
      MergeNothing(bs[1..], st);
      assert [bs[0]] + bs[1..] == bs;
    }
  }

  // ---------------------------------------------------------------------
  // Completeness of one push

  /** Every byte of the push that lies inside the window is held afterwards. */
  ghost predicate KeepsWindow(r: Reassembler, data: seq<Byte>, index: nat, eof: bool)
    requires r.Inv()
  {
    forall i: nat :: index <= i < Min(index + |data|, r.out.Edge()) ==> Held(Push(r, data, index, eof), i)
  }

  /**
   A push off the edge keeps its in-window bytes if and only if it starts above
   the prefix or everything the counted bytes crowd out is already held.
   */
  lemma KeepsWindowIff(r: Reassembler, data: seq<Byte>, index: nat, eof: bool)
    requires r.Exact() && !r.out.ended && !EdgePush(r, data, index)
    requires r.Next() < EofAfter(r, data, index, eof)
    ensures KeepsWindow(r, data, index, eof) <==>
            r.Next() < index
            || forall i: nat :: index <= i && r.out.Edge() - r.count <= i < Min(index + |data|, r.out.Edge()) ==>
                Held(r, i)
  {
    hide Push;
    forall i: nat
      ensures Held(Push(r, data, index, eof), i) <==> Held(r, i) || index <= i < Limit(r, data, index)
    {
      PushHeld(r, data, index, eof, i);
    }
  }

  /**
   In-window bytes can be lost: with bytes 2 and 3 stored in a window of eight, a push of bytes 0
   to 7 leaves 6 and 7 out although the buffer has room for them.
   */
  lemma WindowBytesLost(s: seq<Byte>)
    requires |s| == 8
    ensures var r := Push(NewReassembler(8), s[2..4], 2, false);
            r.Exact() && Push(r, s, 0, false).Inv() && !KeepsWindow(r, s, 0, false)
            && Push(r, s, 0, false).out.history == s[..6] && Push(r, s, 0, false).blocks == []
  {
    var r := Push(NewReassembler(8), s[2..4], 2, false);
    FirstEntry(NewReassembler(8), s[2..4], 2);
    PushInv(NewReassembler(8), s[2..4], 2, false);
    assert s[2..4][..2] == s[2..4];
    var b := Block(2, s[2..4]);
    assert [b][1..] == [];
    assert r == Reassembler(NewStream(8), [b], 2, SIZE_MAX);
    PushInv(r, s, 0, false);
    var out := r.out.Write(s[0..6]);
    assert s[0..6][..6] == s[..6];
    assert Drain(out, [b]) == Drain(out, []);
    assert !Held(Push(r, s, 0, false), 7);
  }

  // A push above the prefix into an empty map.
  lemma FirstEntry(r: Reassembler, data: seq<Byte>, index: nat)
    requires r.out.Valid() && r.blocks == [] && r.count == 0 && data != [] && r.Next() < index <= r.out.Edge()
    requires r.Next() < r.eof && !r.out.ended
    ensures r.Inv()
    ensures var size := Min(|data|, r.out.Edge() - index);
            Push(r, data, index, false) == r.(blocks := [Block(index, data[..size])], count := size)
  {
    assert Merge([], index, index + |data|, index, data) == Merged([], index, data);
  }

  // ---------------------------------------------------------------------
  // The wedge behind edge pushes

  /** Nothing buffered or stored, yet the counter has used up the capacity. */
  ghost predicate Wedged(r: Reassembler) {
    r.Inv() && r.out.Buffered() == 0 && r.Room() == 0 && Size(r.blocks) == 0
  }

  lemma {:induction false} NothingMerged(bs: seq<Block>, st: nat, ed: nat, index: nat, data: seq<Byte>)
    requires Size(bs) == 0
    ensures Size(Merge(bs, st, ed, index, data).blocks) == 0
  {
    if bs == [] || index + |data| <= bs[0].start {
    } else {
      var b, rest := bs[0], bs[1..];
      NothingMerged(rest, st, ed, index, data);
      var m := Merge(rest, st, ed, index, data);
      assert ([b] + m.blocks)[1..] == m.blocks;
    }
  }

  lemma {:induction false} InsertNothing(bs: seq<Block>, at: nat)
    requires Size(bs) == 0
    ensures Size(Insert(bs, Block(at, []))) == 0
  {
    if bs == [] || at < bs[0].start {
      assert ([Block(at, [])] + bs)[1..] == bs;
    } else if at > bs[0].start {
      var inserted := Insert(bs[1..], Block(at, []));
      InsertNothing(bs[1..], at);
      assert ([bs[0]] + inserted)[1..] == inserted;
    }
  }

  lemma StoreWedged(r: Reassembler, data: seq<Byte>, index: nat)
    requires Wedged(r) && r.Next() < index <= r.out.Edge()
    ensures Wedged(Store(r, data, index))
  {
    StoreInv(r, data, index);
    MergeFits(r, data, index);
    NothingMerged(r.blocks, index, index + |data|, index, data);
    var m := Merge(r.blocks, index, index + |data|, index, data);
    assert m.data[..0] == [];
    InsertNothing(m.blocks, m.index);
  }

  lemma WedgedStep(r: Reassembler, data: seq<Byte>, index: nat, eof: bool, len: nat)
    requires Wedged(r)
    ensures Wedged(Push(r, data, index, eof)) && Push(r, data, index, eof).out.history == r.out.history
    ensures Wedged(Pop(r, len)) && Pop(r, len).out.history == r.out.history
  {
    hide Store;
    PushInv(r, data, index, eof);
    PopInv(r, len);
    var r1 := r.(eof := EofAfter(r, data, index, eof));
    if r1.Next() >= r1.eof || index + |data| < r1.Next() || r1.out.Edge() < index {
    } else if index > r1.Next() {
      StoreInv(r1, data, index);
      StoreWedged(r1, data, index);
    } else {
      var skip := r1.Next() - index;
      assert data[skip..skip] == [];
      var out := r1.out.Write([]);
      assert out == r1.out;
      DrainIdle(out, r1.blocks, r1.out.Edge());
      assert Append(r1, data, index) == r1;
    }
  }

  /** A wedged reassembler never assembles another byte, whatever is pushed or read. */
  lemma {:induction false} WedgedForever(r: Reassembler, cmds: seq<Command>)
    requires Wedged(r)
    ensures Wedged(Replay(r, cmds)) && Replay(r, cmds).out.history == r.out.history
  {
    if cmds == [] {
    } else {
      hide Wedged, Push, Pop;
      var n := |cmds| - 1;
      assert r.Inv() by { WedgedInv(r); }
      WedgedForever(r, cmds[..n]);
      var p := Replay(r, cmds[..n]);
      match cmds[n]
      case PushSubstring(data, index, eof) => WedgedStep(p, data, index, eof, 0);
      case ReadOutput(len) => WedgedStep(p, [], 0, false, len);
    }
  }

  lemma WedgedInv(r: Reassembler)
    requires Wedged(r)
    ensures r.Inv()
  {
  }

  /**
   Excerpts of one stream s reach a wedge: an edge push leaves an empty entry at
   index 2, and each later copy of byte 2 is counted but refused by the map.
   */
  lemma EdgePushesWedge(s: seq<Byte>)
    requires |s| == 3
    ensures var r1 := Push(NewReassembler(2), s[2..], 2, false);
            && r1.Inv()
            && var r2 := Push(r1, s[..1], 0, false);
            && r2.Inv()
            && var r3 := Pop(r2, 1);
            && r3.Inv()
            && var r4 := Push(r3, s[2..], 2, false);
            && r4.Inv()
            && var r5 := Push(r4, s[2..], 2, false);
            && Wedged(r5) && r5.out.history == s[..1] && r5.out.capacity == 2
  {
    var last := Block(2, []);
    FirstEntry(NewReassembler(2), s[2..], 2);
    assert s[2..][..0] == [];
    EdgeThenFirst(s[..1]);
    var r3 := Pop(Reassembler(Stream(s[..1], 0, 2, false, false), [last], 0, SIZE_MAX), 1);
    RefusedEntry(r3, s[2..]);
    RefusedEntry(r3.(count := 1), s[2..]);
  }

  lemma EdgeThenFirst(data: seq<Byte>)
    requires |data| == 1
    ensures var r := Reassembler(NewStream(2), [Block(2, [])], 0, SIZE_MAX);
            && r.Inv()
            && var r' := Push(r, data, 0, false);
            r'.Inv() && r' == Reassembler(Stream(data, 0, 2, false, false), [Block(2, [])], 0, SIZE_MAX)
  {
    var r := Reassembler(NewStream(2), [Block(2, [])], 0, SIZE_MAX);
    assert [Block(2, [])][1..] == [];
    assert r.Inv();
    assert data[0..1] == data && data[..1] == data;
    var out := r.out.Write(data);
    assert [] + data == data;
    DrainIdle(out, r.blocks, 2);
    PushInv(r, data, 0, false);
  }

  // Pushing over an empty entry counts the byte and stores nothing.
  lemma RefusedEntry(r: Reassembler, data: seq<Byte>)
    requires r.blocks == [Block(2, [])] && |data| == 1 && r.count < 2 && r.eof == SIZE_MAX
    requires r.out.popped == 1 && |r.out.history| == 1 && r.out.capacity == 2 && !r.out.ended
    ensures r.Inv() && Push(r, data, 2, false) == r.(count := r.count + 1)
  {
    var last := Block(2, []);
    assert [last][1..] == [];
    assert Merge([], 2, 3, 2, data) == Merged([], 2, data);
    assert Merge([last], 2, 3, 2, data) == Merged([last], 2, data);
    assert Insert([last], Block(2, data[..1])) == [last];
  }

  // ---------------------------------------------------------------------
  // Whole runs with room to spare

  /** The call pushes an excerpt of s, with the end marked only if it reaches the end of s, or reads. */
  predicate Excerpt(s: seq<Byte>, cmd: Command) {
    cmd.PushSubstring? ==>
      var hi := cmd.index + |cmd.data|;
      hi <= |s| && cmd.data == s[cmd.index..hi] && (cmd.eof ==> hi == |s|)
  }

  ghost predicate Excerpts(s: seq<Byte>, cmds: seq<Command>) {
    forall k :: 0 <= k < |cmds| ==> Excerpt(s, cmds[k])
  }

  predicate Covers(cmd: Command, i: nat) {
    cmd.PushSubstring? && cmd.index <= i < cmd.index + |cmd.data|
  }

  /** Some push of the run contains index i. */
  ghost predicate Offered(cmds: seq<Command>, i: nat) {
    exists k :: 0 <= k < |cmds| && Covers(cmds[k], i)
  }

  lemma PushedHeld(r: Reassembler, s: seq<Byte>, cmd: Command, i: nat)
    requires r.Exact() && Follows(r, s, true) && Excerpt(s, cmd) && 2 * |s| <= r.out.capacity && cmd.PushSubstring?
    ensures var r' := Push(r, cmd.data, cmd.index, cmd.eof);
            && r'.Exact() && Follows(r', s, true) && r'.out.capacity == r.out.capacity
            && (Held(r', i) <==> Held(r, i) || Covers(cmd, i))
  {
    hide Store, Append;
    var data, lo, last := cmd.data, cmd.index, cmd.eof;
    PushFollows(r, data, lo, last, s, true);
    PushInv(r, data, lo, last);
    CapacityKept(r, data, lo, last);
    if r.Next() < EofAfter(r, data, lo, last) {
      StoredWithin(r, s);
      PushExactIff(r, data, lo, last);
      PushHeld(r, data, lo, last, i);
    }
  }

  lemma ReadHeld(r: Reassembler, s: seq<Byte>, len: nat, i: nat)
    requires r.Exact() && Follows(r, s, true)
    ensures var r' := Pop(r, len);
            r'.Exact() && Follows(r', s, true) && r'.out.capacity == r.out.capacity && (Held(r', i) <==> Held(r, i))
  {
    PopInv(r, len);
  }

  // Stored bytes lie in the unassembled part of s, so they are at most |s| many.
  lemma StoredWithin(r: Reassembler, s: seq<Byte>)
    requires r.Exact() && Follows(r, s, true)
    ensures r.Next() + r.count <= |s|
  {
    LaidInStream(r.blocks, r.Next() + 1, r.out.Edge(), s);
    if r.blocks != [] { SizeBound(r.blocks, r.Next() + 1, |s|); }
  }

  lemma {:induction false} LaidInStream(bs: seq<Block>, lo: nat, hi: nat, s: seq<Byte>)
    requires Laid(bs, lo, hi) && Agree(bs, s)
    ensures Laid(bs, lo, |s|)
  {
    if bs == [] {
    } else {
      LaidInStream(bs[1..], After(bs[0]), hi, s);
    }
  }

  /**
   With capacity for twice the stream, after any excerpts in any order with any
   overlap, and any reads between, exactly the offered indices are held.
   */
  lemma {:induction false} RunHeld(s: seq<Byte>, cmds: seq<Command>, capacity: nat, i: nat)
    requires Excerpts(s, cmds) && 2 * |s| <= capacity && |s| < SIZE_MAX
    ensures NewReassembler(capacity).Inv()
    ensures var r := Replay(NewReassembler(capacity), cmds);
            && r.Exact() && Follows(r, s, true) && r.out.capacity == capacity
            && (Held(r, i) <==> Offered(cmds, i))
  {
    hide Push, Pop, Follows, Reassembler.Exact, Reassembler.Inv, Offered, Held, Excerpt, NewReassembler;
    NewHolds(s, capacity, i);
    if cmds == [] {
      assert !Offered(cmds, i) by { OfferedNone(i); }
    } else {
      var n := |cmds| - 1;
      RunHeld(s, cmds[..n], capacity, i);
      OfferedLast(cmds, i);
      var p := Replay(NewReassembler(capacity), cmds[..n]);
      match cmds[n]
      case PushSubstring(data, index, eof) => PushedHeld(p, s, cmds[n], i);
      case ReadOutput(len) => ReadHeld(p, s, len, i);
    }
  }

  lemma NewHolds(s: seq<Byte>, capacity: nat, i: nat)
    requires |s| < SIZE_MAX
    ensures var r := NewReassembler(capacity);
            && r.Exact() && r.Inv() && Follows(r, s, true) && !Held(r, i) && r.out.capacity == capacity
  {
  }

  lemma OfferedNone(i: nat)
    ensures !Offered([], i)
  {
  }

  lemma OfferedLast(cmds: seq<Command>, i: nat)
    requires |cmds| > 0
    ensures var n := |cmds| - 1; Offered(cmds, i) <==> Offered(cmds[..n], i) || Covers(cmds[n], i)
  {
    var n := |cmds| - 1;
    if Offered(cmds[..n], i) {
      var k :| 0 <= k < n && Covers(cmds[..n][k], i);
      assert cmds[k] == cmds[..n][k];
    }
    if k :| 0 <= k < |cmds| && Covers(cmds[k], i) {
      if k < n { assert cmds[..n][k] == cmds[k]; }
    }
  }

  /** The assembled prefix is therefore the longest prefix of the offered indices. */
  lemma RunPrefix(s: seq<Byte>, cmds: seq<Command>, capacity: nat)
    requires Excerpts(s, cmds) && 2 * |s| <= capacity && |s| < SIZE_MAX
    ensures NewReassembler(capacity).Inv()
    ensures var r := Replay(NewReassembler(capacity), cmds);
            && r.out.history <= s
            && !Offered(cmds, r.Next())
            && forall i: nat :: i < r.Next() ==> Offered(cmds, i)
  {
    var r := Replay(NewReassembler(capacity), cmds);
    RunHeld(s, cmds, capacity, r.Next());
    NextMissing(r);
    forall i: nat | i < r.Next()
      ensures Offered(cmds, i)
    {
      RunHeld(s, cmds, capacity, i);
    }
  }

  /** Order, repetition and fragmentation do not matter: runs that offer the same indices agree. */
  lemma RunOrderIrrelevant(s: seq<Byte>, cmds: seq<Command>, cmds': seq<Command>, capacity: nat, capacity': nat)
    requires Excerpts(s, cmds) && 2 * |s| <= capacity && |s| < SIZE_MAX
    requires Excerpts(s, cmds') && 2 * |s| <= capacity'
    requires forall i: nat :: Offered(cmds, i) <==> Offered(cmds', i)
    ensures NewReassembler(capacity).Inv() && NewReassembler(capacity').Inv()
    ensures Replay(NewReassembler(capacity), cmds).out.history == Replay(NewReassembler(capacity'), cmds').out.history
  {
    RunPrefix(s, cmds, capacity);
    RunPrefix(s, cmds', capacity');
  }
}
