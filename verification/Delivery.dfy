/**
 The client and the server together: whatever messages the server sends and however they are delivered, as long as no
 message ends inside a read that does not wait, the client at rest shows what the server means.
 */
module Delivery {
  import opened Common
  import opened Bits
  import opened RfbSpec
  import opened RfbChunks
  import opened RfbSteps
  import opened Screens
  import opened RfbDecodes
  import RfbSessions
  import opened RfbClient
  import Server = RfbServer

  /** With subrectangles missing the machine does not get to the end of an RRE rectangle. */
  lemma RreWaits<Z>(codec: Codec<Z>, f: Fbu<Z>, q: seq<Byte>)
    requires Valid(f) && Busy(f) && f.encoding == RRE && f.bytes == 1 && |q| < SUB * f.subrects
    ensures Run(codec, f, q).f.rects > 0
  {
    hide Leads, Run, Be16;
    var k := |q| / SUB;
    RreRuns(codec, f, q, k);
    var g, r := AfterSubs(f, k), q[SUB * k..];
    assert |r| < SUB && k < f.subrects;
    LeadsToRest(codec, f, q, Point(g, r, SubFills(f, k, q) + Tail(g)));
  }

  /** A client that has received everything, and is not torn, does not wait for a chunk of subrectangles. */
  lemma NotBehind<Z>(c: Rfb<Z>)
    requires c.Invariant() && !c.msgTimer && c.Untorn()
    requires Run(c.codec, Initial(c.codec), c.ws.received).f.rects == 0
    ensures !Lags(c.fbu, c.ws.Unread())
  {
    hide Leads, Run, Step;
    c.Quiescent();
    if Lags(c.fbu, c.ws.Unread()) {
      RreWaits(c.codec, Canon(c.fbu), c.ws.Unread());
    }
  }

  /** For every sequence of messages and every untorn way to deliver it, the client shows what the server means. */
  lemma ClientShows<Z>(c: Rfb<Z>, ms: seq<Server.Message>, s: Screen)
    requires c.Invariant() && !c.msgTimer && c.Untorn()
    requires Server.SessionFits(ms) && Server.SessionUnpacks(c.codec, Initial(c.codec).zlibs, ms)
    requires c.ws.received == Server.SessionBytes(ms)
    ensures c.ws.Unread() == [] && RfbSessions.Idle(Canon(c.fbu))
    ensures Shows(c.log, s, Server.SessionShown(ms, s)) && Told(c.log) == Server.SessionTold(ms)
  {
    hide Leads, Run, Step, Server.SessionShown, Server.SessionTold, Server.SessionFits, Server.SessionBytes,
      Server.SessionUnpacks, Shows, Told;
    RfbSessions.SessionDecodes(c.codec, ms, s);
    NotBehind(c);
    c.Quiescent();
  }
}
