/**
 The zlib streams of the Tight encoding (novnc/include/rfb.js) with the TINF decoder in them. Four decoders are
 used in turn, as the control byte of each rectangle says; each returns what its own data expands to, whatever
 is done with the others in between.
 */
module TightStreams {
  import opened Common
  import opened Bits
  import opened RfbSpec
  import Inflate
  import Streams
  import Windows

  /** What a decoder keeps from one call to the next */
  datatype Zlib = Zlib(history: seq<int>, headerSeen: bool)

  /** One call of uncompress; an error leaves the caller without data, and so does a block that never ends. */
  ghost function Inflated(n: nat, z: Zlib, data: seq<Byte>): (Zlib, Option<seq<int>>) {
    var r := Inflate.Uncompress(data, 0, z.history, z.headerSeen, n);
    if r.Unfinished? then (z, None)
    else (Zlib(Inflate.HistoryAfter(z.history, r), true), if r.status == Inflate.Ok then Some(r.out) else None)
  }

  ghost function TinfCodec(n: nat): Codec<Zlib> {
    Codec(Zlib([], false), (z: Zlib, data: seq<Byte>) => Inflated(n, z, data))
  }

  /** A compressed rectangle: its control byte, which selects and may reset streams, and its data */
  datatype Rect = Rect(ctl: nat, data: seq<Byte>)

  function StreamOf(r: Rect): nat { r.ctl / 16 % 4 }

  predicate Resets(r: Rect, k: nat)
    requires k < 4
  {
    Flag(r.ctl % 16, [1, 2, 4, 8][k])
  }

  /** What the rectangles of stream k decompress to, while all are decompressed in turn */
  ghost function Outputs<Z>(codec: Codec<Z>, zlibs: seq<Z>, rects: seq<Rect>, k: nat): seq<Option<seq<int>>>
    requires |zlibs| == 4
    decreases |rects|
  {
    if rects == [] then []
    else
      var (zs, out) := Decompress(codec, zlibs, rects[0].ctl, rects[0].data);
      (if StreamOf(rects[0]) == k then [out] else []) + Outputs(codec, zs, rects[1..], k)
  }

  /** The data of stream k alone */
  function DataOf(rects: seq<Rect>, k: nat): seq<seq<Byte>> {
    if rects == [] then []
    else (if StreamOf(rects[0]) == k then [rects[0].data] else []) + DataOf(rects[1..], k)
  }

  /** What one rectangle does to stream k */
  lemma StreamStep<Z>(codec: Codec<Z>, zlibs: seq<Z>, r: Rect, k: nat)
    requires |zlibs| == 4 && k < 4 && !Resets(r, k)
    ensures var (zs, out) := Decompress(codec, zlibs, r.ctl, r.data);
            if StreamOf(r) == k then (zs[k], out) == codec.inflate(zlibs[k], r.data) else zs[k] == zlibs[k]
  {
    hide Flag;
    var zs := Reset(codec, zlibs, r.ctl % 16);
    assert zs[k] == zlibs[k];
  }

  /** The results of a run of successful calls, as the rectangle handlers get them */
  ghost predicate Same(outs: seq<Option<seq<int>>>, rs: seq<Inflate.Outcome>) {
    |outs| == |rs| && forall i :: 0 <= i < |rs| ==> rs[i].Finished? && outs[i] == Some(rs[i].out)
  }

  lemma SessionFirst(calls: seq<seq<Byte>>, hist: seq<int>, headerSeen: bool, n: nat)
    requires calls != [] && Windows.Succeeds(Windows.Session(calls, hist, headerSeen, true, n))
    ensures var rs := Windows.Session(calls, hist, headerSeen, true, n);
            var r := Inflate.Uncompress(calls[0], 0, hist, headerSeen, n);
            && r.Finished? && r.status == Inflate.Ok && rs != [] && rs[0] == r
            && rs[1..] == Windows.Session(calls[1..], Inflate.HistoryAfter(hist, r), true, true, n)
  {
    hide Inflate.Uncompress, Inflate.HistoryAfter;
    var rs := Windows.Session(calls, hist, headerSeen, true, n);
    assert rs[0].Finished?;
  }

  lemma SucceedsRest(rs: seq<Inflate.Outcome>)
    requires Windows.Succeeds(rs) && rs != []
    ensures Windows.Succeeds(rs[1..])
  {
  }

  /** Interleaved with the other streams, a stream does what its decoder does on its own data. */
  lemma {:induction false} StreamAlone(n: nat, zlibs: seq<Zlib>, rects: seq<Rect>, k: nat)
    requires |zlibs| == 4 && k < 4 && forall i :: 0 <= i < |rects| ==> !Resets(rects[i], k)
    requires var rs := Windows.Session(DataOf(rects, k), zlibs[k].history, zlibs[k].headerSeen, true, n);
             |rs| == |DataOf(rects, k)| && Windows.Succeeds(rs)
    ensures Same(Outputs(TinfCodec(n), zlibs, rects, k),
                 Windows.Session(DataOf(rects, k), zlibs[k].history, zlibs[k].headerSeen, true, n))
    decreases |rects|
  {
    hide Decompress, Inflate.Uncompress, Inflate.HistoryAfter, Resets;
    if rects != [] {
      var r, rest := rects[0], rects[1..];
      var (zs, out) := Decompress(TinfCodec(n), zlibs, r.ctl, r.data);
      StreamStep(TinfCodec(n), zlibs, r, k);
      var z, mine := zlibs[k], DataOf(rects, k);
      if StreamOf(r) == k {
        assert mine[0] == r.data && mine[1..] == DataOf(rest, k);
        var rs := Windows.Session(mine, z.history, z.headerSeen, true, n);
        SessionFirst(mine, z.history, z.headerSeen, n);
        var u := Inflate.Uncompress(r.data, 0, z.history, z.headerSeen, n);
        assert rs[0] == u;
        SucceedsRest(rs);
        assert rs[1..] == Windows.Session(DataOf(rest, k), zs[k].history, zs[k].headerSeen, true, n);
        StreamAlone(n, zs, rest, k);
      } else {
        assert mine == DataOf(rest, k);
        StreamAlone(n, zs, rest, k);
      }
    }
  }

  function Joined(outs: seq<Option<seq<int>>>): seq<int> {
    if outs == [] then [] else (if outs[0].Some? then outs[0].value else []) + Joined(outs[1..])
  }

  lemma {:induction false} JoinedSame(outs: seq<Option<seq<int>>>, rs: seq<Inflate.Outcome>)
    requires Same(outs, rs)
    ensures Joined(outs) == Windows.Joined(rs)
  {
    if outs != [] {
      assert outs[0] == Some(rs[0].out);
      JoinedSame(outs[1..], rs[1..]);
    }
  }

  /**
   For every interleaving of rectangles on the four streams: if the data of a stream that is not reset is a
   flushed DEFLATE stream cut into those rectangles, each of them decompresses, and together they are the
   LZ77 expansion of the whole stream.
   */
  lemma TightStreamDecodes(n: nat, zlibs: seq<Zlib>, rects: seq<Rect>, k: nat, bss: seq<seq<Streams.Block>>)
    requires |zlibs| == 4 && k < 4 && zlibs[k] == TinfCodec(n).start
    requires forall i :: 0 <= i < |rects| ==> !Resets(rects[i], k)
    requires Windows.FlushedSession(DataOf(rects, k), bss, [], false) && Windows.AllTokensBelow(bss, n)
    ensures var outs := Outputs(TinfCodec(n), zlibs, rects, k);
            && |outs| == |DataOf(rects, k)| && (forall i :: 0 <= i < |outs| ==> outs[i].Some?)
            && Joined(outs) == Windows.SessionOutput(DataOf(rects, k), bss, [], false)
  {
    hide Windows.FlushedSession, Windows.SessionOutput, Windows.Session, Outputs, DataOf, Resets, Windows.Joined,
      Joined;
    Windows.SessionDecodes(DataOf(rects, k), bss, n);
    StreamAlone(n, zlibs, rects, k);
    var rs := Windows.Session(DataOf(rects, k), [], false, true, n);
    JoinedSame(Outputs(TinfCodec(n), zlibs, rects, k), rs);
  }
}
