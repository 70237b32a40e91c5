/**
 The stream reassembler (libsponge/stream_reassembler.cc) as functions over
 values: what one push of a substring does to the stored blocks, the byte
 counter and the output stream.
 */
module Reassembly {
  import opened Types
  import opened ByteStreams

  /** One entry of the ordered map: a substring and the stream index it starts at. */
  datatype Block = Block(start: nat, data: seq<Byte>)
  {
    function End(): nat {
      start + |data|
    }
  }

  /** The least key the next entry of the map may have. */
  function After(b: Block): nat {
    Max(b.start + 1, b.End())
  }

  /** The std::map: entries in key order, no key twice, none overlapping, all inside [lo, hi). */
  predicate Laid(bs: seq<Block>, lo: nat, hi: nat) {
    bs == [] || (lo <= bs[0].start && bs[0].End() <= hi && Laid(bs[1..], After(bs[0]), hi))
  }

  /** No entry reaches into [lo, hi). */
  predicate Clear(bs: seq<Block>, lo: nat, hi: nat) {
    bs == [] || ((bs[0].End() <= lo || hi <= bs[0].start) && Clear(bs[1..], lo, hi))
  }

  /** No entry is empty. */
  predicate Solid(bs: seq<Block>) {
    bs == [] || (bs[0].data != [] && Solid(bs[1..]))
  }

  /** The number of bytes in the entries. */
  function Size(bs: seq<Block>): nat {
    if bs == [] then 0 else |bs[0].data| + Size(bs[1..])
  }

  /** Some entry holds the byte at stream index i. */
  predicate Holds(bs: seq<Block>, i: nat) {
    bs != [] && (bs[0].start <= i < bs[0].End() || Holds(bs[1..], i))
  }

  datatype Merged = Merged(blocks: seq<Block>, index: nat, data: seq<Byte>)
  {
    function End(): nat {
      index + |data|
    }

    function Keep(b: Block): Merged {
      this.(blocks := [b] + blocks)
    }
  }

  /**
   The scan of merge_string. `st` and `ed` are the bounds of the substring as it
   arrived; `index` and `data` are the substring grown by what it absorbs.
   */
  function Merge(bs: seq<Block>, st: nat, ed: nat, index: nat, data: seq<Byte>): Merged {
    if bs == [] || index + |data| <= bs[0].start then
      Merged(bs, index, data)
    else
      var b, rest := bs[0], bs[1..];
      if st < b.End() && b.start < ed then
        if st <= b.start && b.End() <= ed then
          Merge(rest, st, ed, index, data)
        else if b.start <= st && ed <= b.End() then
          Merge(rest, st, ed, index, []).Keep(b)
        else if st <= b.start then
          Merge(rest, st, ed, index, data + b.data[ed - b.start..])
        else
          Merge(rest, st, ed, b.start, b.data[..st - b.start] + data)
      else
        Merge(rest, st, ed, index, data).Keep(b)
  }

  /** std::map::insert: an entry whose key is taken is refused. */
  function Insert(bs: seq<Block>, b: Block): seq<Block> {
    if bs == [] || b.start < bs[0].start then [b] + bs
    else if b.start == bs[0].start then bs
    else [bs[0]] + Insert(bs[1..], b)
  }

  lemma {:induction false} LaidMeans(bs: seq<Block>, lo: nat, hi: nat, i: nat, j: nat)
    requires Laid(bs, lo, hi) && i < j < |bs|
    ensures lo <= bs[i].start < bs[j].start && bs[i].End() <= bs[j].start && bs[j].End() <= hi
  {
    if 0 < i {
      LaidMeans(bs[1..], After(bs[0]), hi, i - 1, j - 1);
    } else if 1 < j {
      LaidMeans(bs[1..], After(bs[0]), hi, 0, j - 1);
    }
  }

  lemma {:induction false} LaidWithin(bs: seq<Block>, lo: nat, hi: nat, i: nat)
    requires Laid(bs, lo, hi) && i < |bs|
    ensures lo <= bs[i].start && bs[i].End() <= hi
  {
    if i == 0 {
    } else {
      LaidWithin(bs[1..], After(bs[0]), hi, i - 1);
    }
  }

  lemma {:induction false} LaidHigher(bs: seq<Block>, lo: nat, hi: nat, hi': nat)
    requires Laid(bs, lo, hi) && hi <= hi'
    ensures Laid(bs, lo, hi')
  {
    if bs == [] {
    } else {
      LaidHigher(bs[1..], After(bs[0]), hi, hi');
    }
  }

  lemma {:induction false} HoldsLaid(bs: seq<Block>, lo: nat, hi: nat, i: nat)
    requires Laid(bs, lo, hi) && Holds(bs, i)
    ensures lo <= i < hi
  {
    if !(bs[0].start <= i < bs[0].End()) {
      HoldsLaid(bs[1..], After(bs[0]), hi, i);
    }
  }

  lemma {:induction false} HoldsClear(bs: seq<Block>, lo: nat, hi: nat, i: nat)
    requires Clear(bs, lo, hi) && Holds(bs, i)
    ensures i < lo || hi <= i
  {
    if !(bs[0].start <= i < bs[0].End()) {
      HoldsClear(bs[1..], lo, hi, i);
    }
  }

  lemma {:induction false} LaidClear(bs: seq<Block>, lo: nat, hi: nat, below: nat)
    requires Laid(bs, lo, hi)
    ensures Clear(bs, below, lo)
  {
    if bs == [] {
    } else {
      LaidClear(bs[1..], After(bs[0]), hi, below);
      ClearNarrower(bs[1..], below, After(bs[0]), below, lo);
    }
  }

  lemma {:induction false} ClearNarrower(bs: seq<Block>, lo: nat, hi: nat, lo': nat, hi': nat)
    requires Clear(bs, lo, hi) && lo <= lo' && hi' <= hi
    ensures Clear(bs, lo', hi')
  {
    if bs == [] {
    } else {
      ClearNarrower(bs[1..], lo, hi, lo', hi');
    }
  }

  /** Pigeonhole: disjoint entries between lo and hi hold at most hi - lo bytes. */
  lemma {:induction false} SizeBound(bs: seq<Block>, lo: nat, hi: nat)
    requires Laid(bs, lo, hi) && lo <= hi
    ensures Size(bs) <= hi - lo
  {
    if bs == [] {
    } else {
      if After(bs[0]) <= hi {
        SizeBound(bs[1..], After(bs[0]), hi);
      } else {
        assert Laid(bs[1..], After(bs[0]), hi);
      }
    }
  }

  lemma Prepended(b: Block, bs: seq<Block>, lo: nat, hi: nat)
    requires lo <= b.start && b.End() <= hi && Laid(bs, After(b), hi)
    ensures Laid([b] + bs, lo, hi)
    ensures Size([b] + bs) == |b.data| + Size(bs)
  {
    assert ([b] + bs)[1..] == bs;
  }

  /** Where the scan stands before the substring has reached an entry that ends it. */
  predicate Scanning(bs: seq<Block>, lo: nat, hi: nat, st: nat, ed: nat, index: nat, data: seq<Byte>) {
    && Laid(bs, lo, hi)
    && index <= st <= ed
    && index + |data| == ed
    && (index < st ==> st < lo)
  }

  /** What the scan leaves: see MergeSound. */
  ghost predicate MergeOk(bs: seq<Block>, lo: nat, hi: nat, ed: nat, index: nat, m: Merged) {
    && Laid(m.blocks, lo, hi)
    && Size(m.blocks) <= Size(bs)
    && Min(lo, index) <= m.index <= index
    && m.End() <= Max(hi, ed)
    && (m.data == [] ==> m.blocks == bs)
    && (m.data != [] ==> Clear(m.blocks, m.index, m.End()))
    && (Solid(bs) ==> Solid(m.blocks))
  }

  /**
   Although st and ed never move, the scan is sound: the entries left are in
   order, and either nothing is left to insert and no entry has gone, or no entry
   left reaches into the grown substring.
   */
  lemma {:induction false} MergeSound(bs: seq<Block>, lo: nat, hi: nat, st: nat, ed: nat, index: nat, data: seq<Byte>)
    requires Scanning(bs, lo, hi, st, ed, index, data)
    ensures MergeOk(bs, lo, hi, ed, index, Merge(bs, st, ed, index, data))
    ensures Merge(bs, st, ed, index, data).data == [] && st < ed ==> index == st && !(st < lo)
  {
    hide Solid, Size;
    if bs == [] {
    } else if index + |data| <= bs[0].start {
      LaidClear(bs, bs[0].start, hi, index);
      ClearNarrower(bs, index, bs[0].start, index, ed);
    } else {
      var b, rest := bs[0], bs[1..];
      assert Laid(rest, After(b), hi);
      if st < b.End() && b.start < ed {
        if st <= b.start && b.End() <= ed {
          MergeSound(rest, After(b), hi, st, ed, index, data);
          MergeAbsorbed(bs, lo, hi, ed, index, index, Merge(rest, st, ed, index, data));
        } else if b.start <= st && ed <= b.End() {
          assert Merge(rest, st, ed, index, []) == Merged(rest, index, []);
          assert [b] + rest == bs;
        } else if st <= b.start {
          MergeRight(bs, lo, hi, st, ed, index, data);
        } else {
          var grown := b.data[..st - b.start] + data;
          MergeSound(rest, After(b), hi, st, ed, b.start, grown);
          MergeAbsorbed(bs, lo, hi, ed, index, b.start, Merge(rest, st, ed, b.start, grown));
        }
      } else {
        MergeSound(rest, After(b), hi, st, ed, index, data);
        MergeApart(bs, lo, hi, ed, index, Merge(rest, st, ed, index, data));
      }
    }
  }

  // The entry in front is gone, taken into the substring.
  lemma MergeAbsorbed(bs: seq<Block>, lo: nat, hi: nat, ed: nat, index: nat, index': nat, m: Merged)
    requires bs != [] && Laid(bs, lo, hi) && m.data != [] && (index' == index || lo <= index' <= index)
    requires MergeOk(bs[1..], After(bs[0]), hi, ed, index', m)
    ensures MergeOk(bs, lo, hi, ed, index, m)
  {
    hide Clear;
  }

  // The entry in front reaches past the substring, which takes over its tail.
  lemma MergeRight(bs: seq<Block>, lo: nat, hi: nat, st: nat, ed: nat, index: nat, data: seq<Byte>)
    requires Scanning(bs, lo, hi, st, ed, index, data)
    requires bs != [] && st <= bs[0].start < ed < bs[0].End()
    ensures var m := Merge(bs[1..], st, ed, index, data + bs[0].data[ed - bs[0].start..]);
            MergeOk(bs, lo, hi, ed, index, m) && m.data != []
  {
    var b, rest := bs[0], bs[1..];
    var grown := data + b.data[ed - b.start..];
    assert Laid(rest, After(b), hi);
    assert Merge(rest, st, ed, index, grown) == Merged(rest, index, grown);
    LaidClear(rest, After(b), hi, index);
    ClearNarrower(rest, index, After(b), index, b.End());
  }

  // The entry in front ends before the substring starts, and stays.
  lemma MergeApart(bs: seq<Block>, lo: nat, hi: nat, ed: nat, index: nat, m: Merged)
    requires bs != [] && Laid(bs, lo, hi) && bs[0].End() <= index
    requires MergeOk(bs[1..], After(bs[0]), hi, ed, index, m)
    ensures MergeOk(bs, lo, hi, ed, index, m.Keep(bs[0]))
  {
    Prepended(bs[0], m.blocks, lo, hi);
    assert ([bs[0]] + m.blocks)[1..] == m.blocks;
    assert [bs[0]] + bs[1..] == bs;
  }

  /** The scan loses no index and invents none. */
  lemma {:induction false} MergeHolds(bs: seq<Block>, lo: nat, hi: nat, st: nat, ed: nat, index: nat,
                                      data: seq<Byte>, i: nat)
    requires Scanning(bs, lo, hi, st, ed, index, data)
    ensures var m := Merge(bs, st, ed, index, data);
            (Holds(m.blocks, i) || m.index <= i < m.End()) <==> (Holds(bs, i) || index <= i < ed)
  {
    if bs == [] || index + |data| <= bs[0].start {
    } else {
      var b, rest := bs[0], bs[1..];
      assert Laid(rest, After(b), hi);
      if st < b.End() && b.start < ed {
        if st <= b.start && b.End() <= ed {
          MergeHolds(rest, After(b), hi, st, ed, index, data, i);
        } else if b.start <= st && ed <= b.End() {
          assert Merge(rest, st, ed, index, []) == Merged(rest, index, []);
          assert [b] + rest == bs;
        } else if st <= b.start {
          var grown := data + b.data[ed - b.start..];
          assert Merge(rest, st, ed, index, grown) == Merged(rest, index, grown);
        } else {
          MergeHolds(rest, After(b), hi, st, ed, b.start, b.data[..st - b.start] + data, i);
        }
      } else {
        MergeHolds(rest, After(b), hi, st, ed, index, data, i);
        assert ([b] + Merge(rest, st, ed, index, data).blocks)[1..] == Merge(rest, st, ed, index, data).blocks;
      }
    }
  }

  lemma {:induction false} InsertLaid(bs: seq<Block>, b: Block, lo: nat, hi: nat)
    requires Laid(bs, lo, hi) && Clear(bs, b.start, b.End()) && lo <= b.start && b.End() <= hi
    ensures Laid(Insert(bs, b), lo, hi)
    ensures Size(Insert(bs, b)) <= Size(bs) + |b.data|
  {
    if bs == [] || b.start < bs[0].start {
      Prepended(b, bs, lo, hi);
    } else if b.start == bs[0].start {
    } else {
      InsertLaid(bs[1..], b, After(bs[0]), hi);
      Prepended(bs[0], Insert(bs[1..], b), lo, hi);
    }
  }

  lemma {:induction false} InsertSolid(bs: seq<Block>, b: Block)
    requires Clear(bs, b.start, b.End()) && Solid(bs) && b.data != []
    ensures Solid(Insert(bs, b))
    ensures Size(Insert(bs, b)) == Size(bs) + |b.data|
  {
    if bs == [] || b.start < bs[0].start {
      assert ([b] + bs)[1..] == bs;
    } else {
      var inserted := Insert(bs[1..], b);
      InsertSolid(bs[1..], b);
      assert ([bs[0]] + inserted)[1..] == inserted;
    }
  }

  lemma {:induction false} InsertHolds(bs: seq<Block>, b: Block, i: nat)
    requires Clear(bs, b.start, b.End()) && Solid(bs) && b.data != []
    ensures Holds(Insert(bs, b), i) <==> Holds(bs, i) || b.start <= i < b.End()
  {
    if bs == [] || b.start < bs[0].start {
      assert ([b] + bs)[1..] == bs;
    } else {
      var inserted := Insert(bs[1..], b);
      InsertHolds(bs[1..], b, i);
      assert ([bs[0]] + inserted)[1..] == inserted;
    }
  }

  datatype Reassembler = Reassembler(out: Stream, blocks: seq<Block>, count: nat, eof: nat)
  {
    /** The number of bytes assembled so far, which is also the first missing index. */
    function Next(): nat {
      |out.history|
    }

    /** Room not yet taken by buffered or counted bytes. */
    function Room(): int {
      out.capacity - out.Buffered() - count
    }

    /** What holds after any pushes and pops whatever, even of contradictory data. */
    ghost predicate Inv() {
      && out.Valid()
      && Laid(blocks, Next() + 1, out.Edge())
      && Size(blocks) <= count
      && 0 <= Room()
    }

    /** Counting is exact: the counter is the stored bytes and no entry is empty. */
    ghost predicate Exact() {
      && Inv()
      && count == Size(blocks)
      && Solid(blocks)
    }
  }

  function NewReassembler(capacity: nat): Reassembler {
    Reassembler(NewStream(capacity), [], 0, SIZE_MAX)
  }

  lemma MergeFits(r: Reassembler, data: seq<Byte>, index: nat)
    requires r.Inv() && r.Next() < index <= r.out.Edge()
    ensures var m := Merge(r.blocks, index, index + |data|, index, data);
            && Size(m.blocks) <= Size(r.blocks)
            && m.index <= index
  {
    MergeSound(r.blocks, r.Next() + 1, r.out.Edge(), index, index + |data|, index, data);
  }

  lemma {:induction false} DrainFits(out: Stream, bs: seq<Block>)
    requires out.Valid()
    ensures var (out', bs') := Drain(out, bs);
            out'.Valid() && Size(bs') <= Size(bs)
    decreases |bs|
  {
    if bs == [] || |out.history| < bs[0].start {
    } else if bs[0].End() > |out.history| {
      DrainFits(out.Write(bs[0].data[|out.history| - bs[0].start..]), bs[1..]);
    } else {
      DrainFits(out, bs[1..]);
    }
  }

  /** The entries in front that the assembled prefix has reached are written out or discarded. */
  function Drain(out: Stream, bs: seq<Block>): (Stream, seq<Block>)
    requires out.Valid()
    decreases |bs|
  {
    if bs == [] || |out.history| < bs[0].start then (out, bs)
    else
      var b := bs[0];
      if b.End() > |out.history| then Drain(out.Write(b.data[|out.history| - b.start..]), bs[1..])
      else Drain(out, bs[1..])
  }

  /** A push that starts above the assembled prefix: merge_string. */
  function Store(r: Reassembler, data: seq<Byte>, index: nat): Reassembler
    requires r.Inv() && r.Next() < index <= r.out.Edge()
  {
    MergeFits(r, data, index);
    var m := Merge(r.blocks, index, index + |data|, index, data);
    var count := r.count - (Size(r.blocks) - Size(m.blocks));
    if m.data == [] then
      r.(blocks := m.blocks, count := count)
    else
      var bound := Min(m.End(), r.out.Edge());
      var size := Min(bound - m.index, r.out.capacity - r.out.Buffered() - count);
      r.(blocks := Insert(m.blocks, Block(m.index, m.data[..size])), count := count + size)
  }

  /** The output once a push that reaches the assembled prefix has been cut at both ends and written. */
  function Joined(r: Reassembler, data: seq<Byte>, index: nat): (out: Stream)
    requires r.Inv() && index <= r.Next() <= index + |data|
    ensures out.Valid()
  {
    var bound := Min(index + |data|, r.out.Edge());
    var skip := r.Next() - index;
    var size := Min(bound - r.Next(), r.Room());
    r.out.Write(data[skip..skip + size])
  }

  /** A push that reaches the assembled prefix: it is joined, and then the entries it has reached. */
  function Append(r: Reassembler, data: seq<Byte>, index: nat): Reassembler
    requires r.Inv() && index <= r.Next() <= index + |data|
  {
    var out := Joined(r, data, index);
    var (out', blocks') := Drain(out, r.blocks);
    DrainFits(out, r.blocks);
    r.(out := out', blocks := blocks', count := r.count - (Size(r.blocks) - Size(blocks')))
  }

  function CloseIfComplete(r: Reassembler): Reassembler {
    if r.Next() >= r.eof then r.(out := r.out.EndInput()) else r
  }

  /** The end index once a push has been looked at; the sum is taken in 64 bits. */
  function EofAfter(r: Reassembler, data: seq<Byte>, index: nat, eof: bool): nat {
    if eof then (index + |data|) % TWO64 else r.eof
  }

  /** push_substring. */
  function Push(r: Reassembler, data: seq<Byte>, index: nat, eof: bool): Reassembler
    requires r.Inv()
  {
    var r := r.(eof := EofAfter(r, data, index, eof));
    if r.Next() >= r.eof || index + |data| < r.Next() || r.out.Edge() < index then
      CloseIfComplete(r)
    else if index > r.Next() then
      CloseIfComplete(Store(r, data, index))
    else
      CloseIfComplete(Append(r, data, index))
  }

  /** The reader of the assembled stream removes bytes. */
  function Pop(r: Reassembler, len: nat): Reassembler
    requires r.out.Valid()
  {
    r.(out := r.out.Pop(len))
  }
}
