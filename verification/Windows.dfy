/**
 Sequences of uncompress calls. The decoder keeps only the last 32768 bytes of history between calls; no
 distance code reaches further, so a decoder that kept everything would return the same results, and
 sync-flushed data comes back complete, call by call.
 */
module Windows {
  import opened Bits
  import opened Huffman
  import opened Trees
  import opened Inflate
  import opened Deflate
  import opened Streams

  /** t is what may be left of the full history h: all of it, or at least a whole window. */
  ghost predicate Agrees(t: seq<int>, h: seq<int>) {
    |t| <= |h| && t == h[|h| - |t|..] && (t == h || |t| >= WINDOW_SIZE)
  }

  lemma AgreesAfter(t: seq<int>, h: seq<int>, o: seq<int>)
    requires Agrees(t, h)
    ensures Agrees(t + o, h + o) && Agrees(Window(t + o), h + o)
  {
    assert (h + o)[|h + o| - |t + o|..] == t + o;
    if |t + o| > WINDOW_SIZE {
      assert (t + o)[|t + o| - WINDOW_SIZE..] == (h + o)[|h + o| - WINDOW_SIZE..];
    }
  }

  lemma {:induction false} CopyAgrees(t: seq<int>, h: seq<int>, len: nat, dist: nat)
    requires |t| <= |h| && t == h[|h| - |t|..] && 1 <= dist <= |t|
    ensures CopyOut(t, len, dist) == CopyOut(h, len, dist)
    decreases len
  {
    if len > 0 {
      var b := t[|t| - dist];
      assert b == h[|h| - dist];
      assert (h + [b])[|h| + 1 - (|t| + 1)..] == t + [b];
      CopyAgrees(t + [b], h + [b], len - 1, dist);
    }
  }

  lemma {:induction false} BlockDataAgrees(src: seq<Byte>, c: Cursor, ll: seq<nat>, dl: seq<nat>, t: seq<int>,
          h: seq<int>, n: nat)
    requires CodeLengths(ll) && CodeLengths(dl) && Agrees(t, h)
    ensures BlockData(src, c, ll, dl, t, n) == BlockData(src, c, ll, dl, h, n)
    decreases n
  {
    hide NextToken, CopyOut, CodeLengths;
    if n > 0 {
      var r := NextToken(src, c, ll, dl);
      if !r.tok.EndOfBlock? && !Throws(r.tok, t) {
        if r.tok.Copy? { CopyAgrees(t, h, r.tok.len, r.tok.dist); }
        var o := TokenOut(r.tok, t);
        AgreesAfter(t, h, o);
        BlockDataAgrees(src, r.c, ll, dl, t + o, h + o, n - 1);
      }
    }
  }

  lemma OneBlockAgrees(src: seq<Byte>, c: Cursor, t: seq<int>, h: seq<int>, n: nat)
    requires Agrees(t, h)
    ensures OneBlock(src, c, t, n) == OneBlock(src, c, h, n)
  {
    hide BlockData, DynamicHeader, Stored, Lsb, FixedLiterals, FixedDistances, Agrees;
    var c2 := ReadCursor(BitCursor(c), 2);
    var d := DynamicHeader(src, c2);
    BlockDataAgrees(src, c2, FixedLiterals(), FixedDistances(), t, h, n);
    BlockDataAgrees(src, d.c, d.ll, d.dl, t, h, n);
  }

  lemma {:induction false} BlocksAgree(src: seq<Byte>, c: Cursor, t: seq<int>, h: seq<int>, n: nat)
    requires Agrees(t, h)
    ensures Blocks(src, c, t, n) == Blocks(src, c, h, n)
    decreases 8 * |src| + 1 - Pos(c)
  {
    hide OneBlock, Bit, Agrees;
    OneBlockAgrees(src, c, t, h, n);
    var b := OneBlock(src, c, t, n);
    if b.Finished? && b.status == Ok && Bit(src, Pos(c)) != 1 && b.c.si < |src| {
      AgreesAfter(t, h, b.out);
      BlocksAgree(src, b.c, t + b.out, h + b.out, n);
    }
  }

  /** The results of consecutive calls, with the history cut after each success or kept whole */
  ghost function Session(calls: seq<seq<Byte>>, hist: seq<int>, headerSeen: bool, cut: bool, n: nat): seq<Outcome>
    decreases calls
  {
    hide Uncompress, Window;
    if calls == [] then []
    else
      var r := Uncompress(calls[0], 0, hist, headerSeen, n);
      if r.Unfinished? then [r]   // the call does not return
      else [r] + Session(calls[1..], if cut then HistoryAfter(hist, r) else hist + r.out, true, cut, n)
  }

  /** Cutting the history is never observed, on any data: same status, same bytes, same position. */
  lemma {:induction false} WindowUnobserved(calls: seq<seq<Byte>>, t: seq<int>, h: seq<int>, headerSeen: bool, n: nat)
    requires Agrees(t, h)
    ensures Session(calls, t, headerSeen, true, n) == Session(calls, h, headerSeen, false, n)
    decreases calls
  {
    hide Blocks, Agrees, Window, StartCursor;
    if calls != [] {
      BlocksAgree(calls[0], StartCursor(0, headerSeen), t, h, n);
      var r := Uncompress(calls[0], 0, t, headerSeen, n);
      if r.Finished? {
        AgreesAfter(t, h, r.out);
        WindowUnobserved(calls[1..], HistoryAfter(t, r), h + r.out, true, n);
      }
    }
  }

  /** Where the first block of a call starts: after the zlib header on the first call */
  function StartBit(headerSeen: bool): nat {
    if headerSeen then 0 else 16
  }

  /** Call i holds the blocks bss[i], all of them relative to everything sent before. */
  ghost predicate FlushedSession(calls: seq<seq<Byte>>, bss: seq<seq<Block>>, hist: seq<int>, headerSeen: bool)
    decreases calls
  {
    |calls| == |bss| &&
    (calls != [] ==>
       var p := StartBit(headerSeen);
       && SyncFlushed(calls[0], p, bss[0], hist)
       && FlushedSession(calls[1..], bss[1..], hist + Output(calls[0], p, bss[0], false, hist), true))
  }

  /** Everything the blocks of all calls expand to */
  ghost function SessionOutput(calls: seq<seq<Byte>>, bss: seq<seq<Block>>, hist: seq<int>, headerSeen: bool): seq<int>
    requires FlushedSession(calls, bss, hist, headerSeen)
    decreases calls
  {
    if calls == [] then []
    else
      var o := Output(calls[0], StartBit(headerSeen), bss[0], false, hist);
      o + SessionOutput(calls[1..], bss[1..], hist + o, true)
  }

  function Joined(rs: seq<Outcome>): seq<int> {
    if rs == [] then [] else (if rs[0].Finished? then rs[0].out else []) + Joined(rs[1..])
  }

  ghost predicate Succeeds(rs: seq<Outcome>) {
    forall i :: 0 <= i < |rs| ==> rs[i].Finished? && rs[i].status == Ok
  }

  lemma JoinFirst(r: Outcome, rs: seq<Outcome>)
    requires r.Finished? && r.status == Ok && Succeeds(rs)
    ensures Succeeds([r] + rs) && Joined([r] + rs) == r.out + Joined(rs)
  {
    assert ([r] + rs)[1..] == rs;
  }

  ghost predicate AllTokensBelow(bss: seq<seq<Block>>, n: nat) {
    forall i :: 0 <= i < |bss| ==> TokensBelow(bss[i], n)
  }

  lemma FlushedUnfolds(calls: seq<seq<Byte>>, bss: seq<seq<Block>>, hist: seq<int>, headerSeen: bool, o: seq<int>)
    requires FlushedSession(calls, bss, hist, headerSeen) && calls != []
    requires o == Output(calls[0], StartBit(headerSeen), bss[0], false, hist)
    ensures FlushedSession(calls[1..], bss[1..], hist + o, true)
    ensures SessionOutput(calls, bss, hist, headerSeen) == o + SessionOutput(calls[1..], bss[1..], hist + o, true)
  {
    hide Output, Holds, End, StartBit;
  }

  /** What the first call contributes to a session */
  lemma FirstCall(calls: seq<seq<Byte>>, bss: seq<seq<Block>>, hist: seq<int>, headerSeen: bool, n: nat)
    requires FlushedSession(calls, bss, hist, headerSeen) && calls != [] && TokensBelow(bss[0], n)
    ensures Holds(calls[0], StartBit(headerSeen), bss[0], false, hist)
    ensures var r := Uncompress(calls[0], 0, hist, headerSeen, n);
            && r.Finished? && r.status == Ok
            && r.out == Output(calls[0], StartBit(headerSeen), bss[0], false, hist)
  {
    hide Holds, End, Blocks, TokensBelow, Output, StartCursor;
    SyncFlushDecodes(calls[0], StartCursor(0, headerSeen), bss[0], hist, n);
  }

  lemma {:induction false} WholeSessionDecodes(calls: seq<seq<Byte>>, bss: seq<seq<Block>>, hist: seq<int>,
          headerSeen: bool, n: nat)
    requires FlushedSession(calls, bss, hist, headerSeen) && AllTokensBelow(bss, n)
    ensures var rs := Session(calls, hist, headerSeen, false, n);
            |rs| == |calls| && Succeeds(rs) && Joined(rs) == SessionOutput(calls, bss, hist, headerSeen)
    decreases calls
  {
    hide Uncompress, TokensBelow, Output, StartBit;
    if calls != [] {
      hide Joined, Succeeds, Holds, End;
      assert TokensBelow(bss[0], n);
      assert AllTokensBelow(bss[1..], n);
      FirstCall(calls, bss, hist, headerSeen, n);
      hide FlushedSession, SessionOutput;
      var r := Uncompress(calls[0], 0, hist, headerSeen, n);
      FlushedUnfolds(calls, bss, hist, headerSeen, r.out);
      WholeSessionDecodes(calls[1..], bss[1..], hist + r.out, true, n);
      JoinFirst(r, Session(calls[1..], hist + r.out, true, false, n));
    }
  }

  /**
   A fresh decoder fed sync-flushed data, cut into any number of calls and any block types, returns
   success every time and, joined, exactly the LZ77 expansion of the whole stream.
   */
  lemma SessionDecodes(calls: seq<seq<Byte>>, bss: seq<seq<Block>>, n: nat)
    requires FlushedSession(calls, bss, [], false) && AllTokensBelow(bss, n)
    ensures var rs := Session(calls, [], false, true, n);
            |rs| == |calls| && Succeeds(rs) && Joined(rs) == SessionOutput(calls, bss, [], false)
  {
    hide FlushedSession, SessionOutput, Session, Joined, AllTokensBelow, Succeeds;
    WindowUnobserved(calls, [], [], false, n);
    WholeSessionDecodes(calls, bss, [], false, n);
  }
}
