/**
 The receive queue of the WebSocket layer (novnc/include/websock.js). Whatever is shifted, peeked, put back
 or compacted, what the shifts have returned and what is still unread are everything received.
 */
module WebsockQueue {
  import opened Bits
  import opened RfbSpec

  const RQ_MAX := 10000

  datatype WaitResult = Ready | NeedMore | CannotBackUp

  ghost predicate IsTail(q: seq<Byte>, all: seq<Byte>) {
    |q| <= |all| && q == all[|all| - |q|..]
  }

  lemma InFront(rQ: seq<Byte>, rQi: nat, num: Byte)
    requires rQi <= |rQ|
    ensures rQi == 0 ==> ([num] + rQ)[0..] == [num] + rQ[0..]
    ensures rQi > 0 ==> rQ[rQi - 1 := num][rQi - 1..] == [num] + rQ[rQi..]
  {
  }

  /** The byte shifted last is the one before the read index, or was dropped by compaction. */
  lemma PutBack(rQ: seq<Byte>, rQi: nat, received: seq<Byte>, taken: seq<Byte>)
    requires rQi <= |rQ| && IsTail(rQ, received) && received == taken + rQ[rQi..] && taken != []
    ensures var num := taken[|taken| - 1];
            && IsTail(if rQi == 0 then [num] + rQ else rQ[rQi - 1 := num], received)
            && received == taken[..|taken| - 1] + ([num] + rQ[rQi..])
  {
    var num, at := taken[|taken| - 1], |taken| - 1;
    assert received[at] == num;
    if rQi == 0 {
      assert received[at..] == [num] + rQ;
    } else {
      assert rQ[rQi - 1] == received[|received| - |rQ| + (rQi - 1)];
      assert rQ[rQi - 1 := num] == rQ;
    }
  }

  class Websock {
    var rQ: seq<Byte>
    var rQi: nat
    ghost var received: seq<Byte>   // every byte that has arrived
    ghost var taken: seq<Byte>      // what the shifts returned, less what was put back

    /** Nothing received is lost, repeated or reordered. */
    ghost predicate Valid()
      reads this
    {
      rQi <= |rQ| && IsTail(rQ, received) && received == taken + rQ[rQi..]
    }

    ghost function Unread(): seq<Byte>
      reads this
      requires Valid()
    {
      rQ[rQi..]
    }

    /** init */
    constructor ()
      ensures Valid() && Unread() == [] && received == [] && taken == []
    {
      rQ, rQi, received, taken := [], 0, [], [];
    }

    /** decode_message: a message is appended. */
    method Append(data: seq<Byte>)
      requires Valid()
      modifies this`rQ, this`received
      ensures Valid() && received == old(received) + data && Unread() == old(Unread()) + data
    {
      rQ := rQ + data;
      received := received + data;
      assert received[|received| - |rQ|..] == old(received)[|old(received)| - |old(rQ)|..] + data;
      assert taken + (old(rQ[rQi..]) + data) == taken + old(rQ[rQi..]) + data;
    }

    /** The compaction at the end of recv_message */
    method Compact()
      requires Valid()
      modifies this`rQ, this`rQi
      ensures Valid() && Unread() == old(Unread())
    {
      if |rQ| > RQ_MAX {
        rQ := rQ[rQi..];
        rQi := 0;
      }
    }

    method Len() returns (n: nat)
      requires Valid()
      ensures n == |Unread()|
    {
      n := |rQ| - rQi;
    }

    /** rQwait: true means more data is needed; with goback what was shifted last is put back before waiting. */
    method Wait(num: nat, goback: nat) returns (r: WaitResult)
      requires Valid()
      modifies this`rQi, this`taken
      ensures Valid()
      ensures r == Ready <==> old(|Unread()|) >= num
      ensures r == CannotBackUp <==> old(|Unread()|) < num && old(rQi) < goback
      ensures r == NeedMore ==> rQi + goback == old(rQi) && |taken| + goback == |old(taken)| && taken <= old(taken)
      ensures r != NeedMore ==> rQi == old(rQi) && taken == old(taken)
    {
      var rQlen := |rQ| - rQi;
      if rQlen < num {
        if goback != 0 {
          if rQi < goback {
            return CannotBackUp;
          }
          rQi := rQi - goback;
          taken := received[..|received| - (|rQ| - rQi)];
        }
        return NeedMore;
      }
      return Ready;
    }

    /** rQwait without goback */
    method MustWait(num: nat) returns (wait: bool)
      requires Valid()
      ensures wait <==> |Unread()| < num
    {
      wait := |rQ| - rQi < num;
    }

    method Shift8() returns (b: Byte)
      requires Valid() && |Unread()| >= 1
      modifies this`rQi, this`taken
      ensures Valid() && b == old(Unread()[0]) && Unread() == old(Unread())[1..] && rQi == old(rQi) + 1
      ensures taken == old(taken) + [b]
    {
      b := rQ[rQi];
      taken := taken + [b];
      rQi := rQi + 1;
    }

    /** rQunshift8: any byte may be put in front; the account stays right when it is the one shifted last. */
    method Unshift8(num: Byte)
      requires Valid()
      modifies this`rQ, this`rQi, this`taken
      ensures rQi <= |rQ| && rQ[rQi..] == [num] + old(Unread())
      ensures old(taken) != [] && old(taken[|taken| - 1]) == num ==>
                Valid() && taken == old(taken)[..|old(taken)| - 1]
    {
      hide IsTail;
      ghost var q, i, all := rQ, rQi, taken;
      if rQi == 0 {
        rQ := [num] + rQ;
      } else {
        rQi := rQi - 1;
        rQ := rQ[rQi := num];
      }
      InFront(q, i, num);
      if all != [] && all[|all| - 1] == num {
        taken := all[..|all| - 1];
        PutBack(q, i, received, all);
      }
    }

    method Shift16() returns (v: nat)
      requires Valid() && |Unread()| >= 2
      modifies this`rQi, this`taken
      ensures Valid() && v == old(Be16(Unread(), 0)) && Unread() == old(Unread())[2..] && rQi == old(rQi) + 2
      ensures taken == old(taken) + old(Unread()[..2])
    {
      hide IsTail;
      v := Be16(rQ, rQi);
      taken := taken + rQ[rQi..rQi + 2];
      rQi := rQi + 2;
    }

    method Shift32() returns (v: nat)
      requires Valid() && |Unread()| >= 4
      modifies this`rQi, this`taken
      ensures Valid() && v == old(Be32(Unread(), 0)) && Unread() == old(Unread())[4..] && rQi == old(rQi) + 4
      ensures taken == old(taken) + old(Unread()[..4])
    {
      hide IsTail;
      v := Be32(rQ, rQi);
      taken := taken + rQ[rQi..rQi + 4];
      rQi := rQi + 4;
    }

    method ShiftBytes(n: nat) returns (s: seq<Byte>)
      requires Valid() && |Unread()| >= n
      modifies this`rQi, this`taken
      ensures Valid() && s == old(Unread()[..n]) && Unread() == old(Unread())[n..] && rQi == old(rQi) + n
      ensures taken == old(taken) + s
    {
      rQi := rQi + n;
      s := rQ[rQi - n..rQi];
      taken := taken + s;
    }

    /** set_rQi, forwards */
    method Skip(i: nat)
      requires Valid() && rQi <= i <= |rQ|
      modifies this`rQi, this`taken
      ensures Valid() && Unread() == old(Unread())[i - old(rQi)..] && rQi == i
      ensures taken == old(taken) + old(Unread()[..i - rQi])
    {
      taken := taken + rQ[rQi..i];
      rQi := i;
    }
  }
}
