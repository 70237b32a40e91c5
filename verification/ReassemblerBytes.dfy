/** Which byte the reassembler holds at each index, for any data, even data that contradicts what it holds. */
module ReassemblyBytes {
  import opened Types
  import opened ByteStreams
  import opened Reassembly
  import opened ReassemblyProofs
  import ReassemblyRuns

  /** The byte that the entries hold at stream index i. */
  function ByteAt(bs: seq<Block>, i: nat): Option<Byte> {
    if bs == [] then None
    else if bs[0].start <= i < bs[0].End() then Some(bs[0].data[i - bs[0].start])
    else ByteAt(bs[1..], i)
  }

  /** The byte held at stream index i, assembled or stored. */
  function Content(r: Reassembler, i: nat): Option<Byte> {
    if i < r.Next() then Some(r.out.history[i]) else ByteAt(r.blocks, i)
  }

  /** Some entry reaches over [st, ed) and beyond it. */
  predicate Covered(bs: seq<Block>, st: nat, ed: nat) {
    bs != []
    && ((bs[0].start <= st && ed <= bs[0].End() && ed - st < |bs[0].data|) || Covered(bs[1..], st, ed))
  }

  lemma {:induction false} ByteAtHolds(bs: seq<Block>, i: nat)
    ensures ByteAt(bs, i).Some? <==> Holds(bs, i)
  {
    if bs == [] {
    } else {
      ByteAtHolds(bs[1..], i);
    }
  }

  /** A byte is held at exactly the held indices. */
  lemma ContentHeld(r: Reassembler, i: nat)
    ensures Content(r, i).Some? <==> Held(r, i)
  {
    ByteAtHolds(r.blocks, i);
  }

  lemma {:induction false} ByteAtLaid(bs: seq<Block>, lo: nat, hi: nat, i: nat)
    requires Laid(bs, lo, hi) && (i < lo || hi <= i)
    ensures ByteAt(bs, i) == None
  {
    if bs == [] {
    } else {
      ByteAtLaid(bs[1..], After(bs[0]), hi, i);
    }
  }

  lemma {:induction false} CoveredLaid(bs: seq<Block>, lo: nat, hi: nat, st: nat, ed: nat)
    requires Laid(bs, lo, hi) && st < ed && (st < lo || hi <= st)
    ensures !Covered(bs, st, ed)
  {
    if bs == [] {
    } else {
      CoveredLaid(bs[1..], After(bs[0]), hi, st, ed);
    }
  }

  /** The byte at index i once the scan has been done and the grown substring put back. */
  function MergedAt(m: Merged, i: nat): Option<Byte> {
    if m.index <= i < m.End() then Some(m.data[i - m.index]) else ByteAt(m.blocks, i)
  }

  /** What the scan must leave at index i: see MergeBytes. */
  predicate Gathers(bs: seq<Block>, st: nat, ed: nat, index: nat, data: seq<Byte>, i: nat, m: Merged)
    requires index + |data| == ed
  {
    if Covered(bs, st, ed) then m.data == [] && m.blocks == bs
    else m.data != [] && MergedAt(m, i) == if index <= i < ed then Some(data[i - index]) else ByteAt(bs, i)
  }

  /**
   The scan: a substring that an entry reaches over is dropped and the entries stay; from
   any other the grown substring has the new bytes where they arrived and the old ones
   elsewhere.
   */
  lemma {:induction false} MergeBytes(bs: seq<Block>, lo: nat, hi: nat, st: nat, ed: nat, index: nat,
                                      data: seq<Byte>, i: nat)
    requires Scanning(bs, lo, hi, st, ed, index, data) && st < ed
    ensures Gathers(bs, st, ed, index, data, i, Merge(bs, st, ed, index, data))
  {
    hide Gathers;
    if bs == [] || index + |data| <= bs[0].start {
      StopsHere(bs, hi, st, ed, index, data, i);
    } else {
      var b, rest := bs[0], bs[1..];
      assert Laid(rest, After(b), hi);
      if st < b.End() && b.start < ed {
        CoveredLaid(rest, After(b), hi, st, ed);
        if st <= b.start && b.End() <= ed {
          MergeBytes(rest, After(b), hi, st, ed, index, data, i);
          Replaces(bs, st, ed, index, data, i, Merge(rest, st, ed, index, data));
        } else if b.start <= st && ed <= b.End() {
          assert Merge(rest, st, ed, index, []) == Merged(rest, index, []);
          Drops(bs, st, ed, index, data, i);
        } else if st <= b.start {
          TakesTail(bs, hi, st, ed, index, data, i);
        } else {
          var grown := b.data[..st - b.start] + data;
          MergeBytes(rest, After(b), hi, st, ed, b.start, grown, i);
          TakesHead(bs, st, ed, data, i, Merge(rest, st, ed, b.start, grown));
        }
      } else {
        var m := Merge(rest, st, ed, index, data);
        MergeBytes(rest, After(b), hi, st, ed, index, data, i);
        MergeSound(rest, After(b), hi, st, ed, index, data);
        Passes(bs, st, ed, index, data, i, m);
      }
    }
  }

  lemma StopsHere(bs: seq<Block>, hi: nat, st: nat, ed: nat, index: nat, data: seq<Byte>, i: nat)
    requires bs == [] || (index + |data| <= bs[0].start && Laid(bs, bs[0].start, hi))
    requires index <= st < ed == index + |data|
    ensures Gathers(bs, st, ed, index, data, i, Merged(bs, index, data))
  {
    if bs != [] { CoveredLaid(bs, bs[0].start, hi, st, ed); }
  }

  // The entry in front lies inside the substring, and goes.
  lemma Replaces(bs: seq<Block>, st: nat, ed: nat, index: nat, data: seq<Byte>, i: nat, m: Merged)
    requires bs != [] && index <= st <= bs[0].start && bs[0].End() <= ed == index + |data|
    requires !Covered(bs[1..], st, ed) && Gathers(bs[1..], st, ed, index, data, i, m)
    ensures Gathers(bs, st, ed, index, data, i, m)
  {
  }

  // The entry in front reaches over the substring, which is dropped.
  lemma Drops(bs: seq<Block>, st: nat, ed: nat, index: nat, data: seq<Byte>, i: nat)
    requires bs != [] && index + |data| == ed && bs[0].start <= st <= ed <= bs[0].End() && ed - st < |bs[0].data|
    ensures Gathers(bs, st, ed, index, data, i, Merged(bs[1..], index, []).Keep(bs[0]))
  {
    assert [bs[0]] + bs[1..] == bs;
  }

  // The entry in front reaches past the end of the substring, which takes its tail.
  lemma TakesTail(bs: seq<Block>, hi: nat, st: nat, ed: nat, index: nat, data: seq<Byte>, i: nat)
    requires bs != [] && index + |data| == ed && index <= st <= bs[0].start < ed < bs[0].End()
    requires Laid(bs[1..], After(bs[0]), hi) && !Covered(bs[1..], st, ed) && st < ed
    requires !(bs[0].start <= st)
    ensures Gathers(bs, st, ed, index, data, i, Merge(bs[1..], st, ed, index, data + bs[0].data[ed - bs[0].start..]))
  {
    var b, rest := bs[0], bs[1..];
    var grown := data + b.data[ed - b.start..];
    assert Merge(rest, st, ed, index, grown) == Merged(rest, index, grown);
  }

  // The entry in front starts before the substring, which takes its head.
  lemma TakesHead(bs: seq<Block>, st: nat, ed: nat, data: seq<Byte>, i: nat, m: Merged)
    requires bs != [] && st + |data| == ed && bs[0].start < st < bs[0].End() < ed && !Covered(bs[1..], st, ed)
    requires Gathers(bs[1..], st, ed, bs[0].start, bs[0].data[..st - bs[0].start] + data, i, m)
    ensures Gathers(bs, st, ed, st, data, i, m)
  {
  }

  // The entry in front ends before the substring starts, and stays.
  lemma Passes(bs: seq<Block>, st: nat, ed: nat, index: nat, data: seq<Byte>, i: nat, m: Merged)
    requires bs != [] && index + |data| == ed && bs[0].End() <= index <= st < ed
    requires bs[0].End() <= m.index && Gathers(bs[1..], st, ed, index, data, i, m)
    ensures Gathers(bs, st, ed, index, data, i, m.Keep(bs[0]))
  {
    assert [bs[0]] + bs[1..] == bs;
    assert ([bs[0]] + m.blocks)[1..] == m.blocks;
  }

  lemma {:induction false} InsertBytes(bs: seq<Block>, b: Block, i: nat)
    requires Clear(bs, b.start, b.End()) && Solid(bs) && b.data != []
    ensures ByteAt(Insert(bs, b), i) == if b.start <= i < b.End() then Some(b.data[i - b.start]) else ByteAt(bs, i)
  {
    if bs == [] || b.start < bs[0].start {
      assert ([b] + bs)[1..] == bs;
    } else {
      var inserted := Insert(bs[1..], b);
      InsertBytes(bs[1..], b, i);
      assert ([bs[0]] + inserted)[1..] == inserted;
    }
  }

  lemma {:induction false} DrainBytes(out: Stream, bs: seq<Block>, lo: nat, i: nat)
    requires out.Valid() && !out.ended && Laid(bs, lo, out.Edge())
    ensures var (out', bs') := Drain(out, bs);
            out.history <= out'.history
            && (if i < |out'.history| then Some(out'.history[i]) else ByteAt(bs', i))
               == if i < |out.history| then Some(out.history[i]) else ByteAt(bs, i)
    decreases |bs|
  {
    if bs == [] || |out.history| < bs[0].start {
    } else if bs[0].End() > |out.history| {
      DrainBytes(out.Write(bs[0].data[|out.history| - bs[0].start..]), bs[1..], After(bs[0]), i);
    } else {
      DrainBytes(out, bs[1..], After(bs[0]), i);
    }
  }

  lemma StoreBytes(r: Reassembler, data: seq<Byte>, index: nat, i: nat)
    requires r.Exact() && r.Next() < index <= r.out.Edge() && !EdgePush(r, data, index)
    ensures Content(Store(r, data, index), i) ==
            if index <= i < Min(index + |data|, r.out.Edge()) && !Covered(r.blocks, index, index + |data|)
            then Some(data[i - index]) else Content(r, i)
  {
    hide Store, Covered, Merge, Insert, Laid, Clear, Solid, Size, ByteAt;
    var lo, hi := r.Next() + 1, r.out.Edge();
    StoreExact(r, data, index);
    StoreInv(r, data, index);
    var m := Merge(r.blocks, index, index + |data|, index, data);
    if data == [] {
      ReassemblyRuns.MergeNothing(r.blocks, index);
    } else {
      MergeBytes(r.blocks, lo, hi, index, index + |data|, index, data, i);
      if m.data != [] {
        var cut := Block(m.index, m.data[..Min(m.End(), hi) - m.index]);
        InsertBytes(m.blocks, cut, i);
      }
      if i < lo || hi <= i {
        ByteAtLaid(r.blocks, lo, hi, i);
        ByteAtLaid(m.blocks, lo, hi, i);
      }
    }
  }

  lemma AppendBytes(r: Reassembler, data: seq<Byte>, index: nat, i: nat)
    requires r.Inv() && index <= r.Next() <= index + |data| && !r.out.ended
    ensures Content(Append(r, data, index), i) ==
            if r.Next() <= i < Limit(r, data, index) then Some(data[i - index]) else Content(r, i)
  {
    hide Drain;
    DrainBytes(Joined(r, data, index), r.blocks, r.Next() + 1, i);
  }

  /**
   What a push leaves at every index, whatever its data: the new byte where it arrived below
   its limit, unless the byte was already assembled or one entry reached over the whole
   push; and the old byte everywhere else.
   */
  lemma PushBytes(r: Reassembler, data: seq<Byte>, index: nat, eof: bool, i: nat)
    requires r.Exact() && !r.out.ended && !EdgePush(r, data, index)
    requires r.Next() < EofAfter(r, data, index, eof)
    ensures Content(Push(r, data, index, eof), i) ==
            if && Max(index, r.Next()) <= i < Limit(r, data, index)
               && !(index > r.Next() && Covered(r.blocks, index, index + |data|))
            then Some(data[i - index]) else Content(r, i)
  {
    hide Store, Append, Laid, Solid, Size, Holds, Covered, ByteAt;
    var r1 := r.(eof := EofAfter(r, data, index, eof));
    if index + |data| < r1.Next() || r1.out.Edge() < index {
    } else if index > r1.Next() {
      StoreBytes(r1, data, index, i);
    } else {
      AppendBytes(r1, data, index, i);
    }
  }

  /** The output ends with the push that completes it, and a push past the end leaves the rest as it was. */
  lemma PushEnds(r: Reassembler, data: seq<Byte>, index: nat, eof: bool)
    requires r.Inv()
    ensures var r', end := Push(r, data, index, eof), EofAfter(r, data, index, eof);
            && (r'.out.ended <==> r.out.ended || end <= |r'.out.history|)
            && (end <= |r.out.history| ==> r' == r.(eof := end, out := r.out.(ended := true)))
  {
    hide Store, Append, Laid, Size;
    var r1 := r.(eof := EofAfter(r, data, index, eof));
    if r1.Next() >= r1.eof || index + |data| < r1.Next() || r1.out.Edge() < index {
    } else if index > r1.Next() {
      StoreInv(r1, data, index);
    } else {
      AppendInv(r1, data, index);
    }
  }
}
