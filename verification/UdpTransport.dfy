/** The pair of UDP sockets a streamer shares among its sessions (CStreamer::InitUdpTransport and
    ReleaseUdpTransport in src/CStreamer.cpp), and who keeps them open. */
module UdpTransport {
  import opened Wrappers

  const FIRST_PORT := 6970
  const LAST_PORT := 0xFFFE

  /** A socket variable: NULLSOCKET, which is descriptor 0; bound to a port; or the number of a closed descriptor. */
  datatype Socket = Null | Bound(port: nat) | Closed

  /** What descriptor 0 is: what the program was started with, nothing, or a UDP socket bound to a port. */
  datatype Zero = Inherited | Unused | UdpOn(port: nat)

  /** The transport's fields, and descriptor 0. */
  datatype Udp = Udp(rtp: Socket, rtcp: Socket, rtpPort: nat, rtcpPort: nat, count: int, zero: Zero)

  const NO_UDP := Udp(Null, Null, 0, 0, 0, Inherited)

  /** udpsocketcreate: `free` tells which ports can be bound. A new socket takes descriptor 0 if that is unused; it then
      looks to the caller as if there were none. */
  function Create(free: nat -> bool, port: nat, zero: Zero): (Socket, Zero) {
    if !free(port) then (Null, zero)
    else if zero.Unused? then (Null, UdpOn(port))
    else (Bound(port), zero)
  }

  /** udpsocketclose */
  function AfterClose(s: Socket, zero: Zero): Zero {
    if s.Null? then Unused else zero
  }

  /** The search for a pair of ports, from p on. */
  function Search(free: nat -> bool, p: nat, u: Udp): Udp
    decreases LAST_PORT - p
  {
    if p >= LAST_PORT then u
    else
      var (r, z) := Create(free, p, u.zero);
      if r.Null? then Search(free, p + 2, u.(rtp := Null, zero := z))
      else
        var (c, y) := Create(free, p + 1, z);
        if c.Null? then Search(free, p + 2, u.(rtp := Closed, rtcp := Null, zero := Unused))
        else u.(rtp := r, rtcp := c, rtpPort := p, rtcpPort := p + 1, zero := y)
  }

  /** What InitUdpTransport does. */
  function Init(u: Udp, free: nat -> bool): Udp {
    (if u.count == 0 then Search(free, FIRST_PORT, u) else u).(count := u.count + 1)
  }

  /** What ReleaseUdpTransport does. */
  function Release(u: Udp): Udp {
    if u.count == 1 then Udp(Null, Null, 0, 0, 0, AfterClose(u.rtcp, AfterClose(u.rtp, u.zero)))
    else u.(count := u.count - 1)
  }

  class Transport {
    var rtpSocket: Socket
    var rtcpSocket: Socket
    var rtpServerPort: nat
    var rtcpServerPort: nat
    var refCount: int
    var zero: Zero  // not a field of the source: what descriptor 0 of the process is

    function View(): Udp
      reads this
    {
      Udp(rtpSocket, rtcpSocket, rtpServerPort, rtcpServerPort, refCount, zero)
    }

    constructor ()
      ensures View() == NO_UDP
    {
      rtpSocket, rtcpSocket, rtpServerPort, rtcpServerPort, refCount, zero := Null, Null, 0, 0, 0, Inherited;
    }

    method CreateSocket(port: nat, free: nat -> bool) returns (s: Socket)
      modifies this`zero
      ensures (s, zero) == Create(free, port, old(zero))
    {
      if !free(port) {
        s := Null;
      } else if zero.Unused? {
        zero := UdpOn(port);
        s := Null;
      } else {
        s := Bound(port);
      }
    }

    method CloseSocket(s: Socket)
      modifies this`zero
      ensures zero == AfterClose(s, old(zero))
    {
      if s.Null? {
        zero := Unused;
      }
    }

    /** `free` tells which ports can be bound during the call. */
    method InitUdpTransport(free: nat -> bool) returns (ok: bool)
      modifies this
      ensures ok && View() == Init(old(View()), free)
    {
      if refCount != 0 {
        refCount := refCount + 1;
        return true;
      }
      var p := FIRST_PORT;
      while p < LAST_PORT
        invariant refCount == 0
        invariant Search(free, p, View()) == Search(free, FIRST_PORT, old(View()))
      {
        rtpSocket := CreateSocket(p, free);
        if !rtpSocket.Null? {
          rtcpSocket := CreateSocket(p + 1, free);
          if !rtcpSocket.Null? {
            rtpServerPort := p;
            rtcpServerPort := p + 1;
            break;
          } else {
            CloseSocket(rtpSocket);
            rtpSocket := Closed;
            CloseSocket(rtcpSocket);
          }
        }
        p := p + 2;
      }
      refCount := refCount + 1;
      ok := true;
    }

    method ReleaseUdpTransport()
      modifies this
      ensures View() == Release(old(View()))
    {
      refCount := refCount - 1;
      if refCount == 0 {
        rtpServerPort := 0;
        rtcpServerPort := 0;
        CloseSocket(rtpSocket);
        CloseSocket(rtcpSocket);
        rtpSocket, rtcpSocket := Null, Null;
      }
    }
  }

  // ----- what the search finds

  /** A port the search may settle on. */
  predicate Candidate(p: nat) {
    6970 <= p < 65534 && p % 2 == 0
  }

  predicate PairFree(free: nat -> bool, p: nat) {
    Candidate(p) && free(p) && free(p + 1)
  }

  /** Only the first port of a pair is free: then the search closes descriptor 0. */
  predicate HalfFree(free: nat -> bool, p: nat) {
    Candidate(p) && free(p) && !free(p + 1)
  }

  /** The first pair found from p on. Once descriptor 0 is unused, the next port that can be bound is passed over. */
  function FirstPair(free: nat -> bool, p: nat, unused: bool): Option<nat>
    decreases 65534 - p
  {
    if p >= 65534 then None
    else if !free(p) then FirstPair(free, p + 2, unused)
    else if unused then FirstPair(free, p + 2, false)
    else if free(p + 1) then Some(p)
    else FirstPair(free, p + 2, true)
  }

  predicate Open(u: Udp, p: nat) {
    Candidate(p) && u.rtp == Bound(p) && u.rtcp == Bound(p + 1) && u.rtpPort == p && u.rtcpPort == p + 1
  }

  predicate Shut(u: Udp) {
    u.rtpPort == 0 && u.rtcpPort == 0 && !u.rtp.Bound? && !u.rtcp.Bound?
  }

  /** Open on an even port and the next one exactly while the count is positive. */
  predicate Healthy(u: Udp) {
    if u.count > 0 then Open(u, u.rtpPort) else Shut(u)
  }

  /** The search finds a pair if it is made now. */
  predicate Finds(u: Udp, free: nat -> bool) {
    u.count == 0 ==> FirstPair(free, 6970, u.zero.Unused?).Some?
  }

  lemma {:induction false} SearchFinds(free: nat -> bool, p: nat, u: Udp)
    requires p % 2 == 0 && 6970 <= p
    ensures var s, q := Search(free, p, u), FirstPair(free, p, u.zero.Unused?);
      && s.count == u.count
      && (q.Some? ==> PairFree(free, q.value) && p <= q.value && Open(s, q.value))
      && (q.None? ==> s.rtpPort == u.rtpPort && s.rtcpPort == u.rtcpPort && (Shut(u) ==> Shut(s)))
    decreases 65534 - p
  {
    if p < 65534 {
      var (r, z) := Create(free, p, u.zero);
      if r.Null? {
        SearchFinds(free, p + 2, u.(rtp := Null, zero := z));
      } else if !free(p + 1) {
        SearchFinds(free, p + 2, u.(rtp := Closed, rtcp := Null, zero := Unused));
      }
    }
  }

  /** If no pair before it is half free, and descriptor 0 is in use, the least free pair is found. */
  lemma {:induction false} LeastPair(free: nat -> bool, p: nat, q: nat)
    requires p % 2 == 0 && 6970 <= p <= q && PairFree(free, q)
    requires forall k: nat :: p <= k < q ==> !PairFree(free, k) && !HalfFree(free, k)
    ensures FirstPair(free, p, false) == Some(q)
    decreases q - p
  {
    if p < q {
      assert !PairFree(free, p) && !HalfFree(free, p) && Candidate(p);
      assert q % 2 == 0;
      LeastPair(free, p + 2, q);
    }
  }

  /** A set-up with no sockets open binds the first pair of which both ports are free, if no pair before it has its
      first port free, whichever pair from 6970 and 6971 to 65532 and 65533 that is. */
  lemma SetUpBinds(u: Udp, free: nat -> bool, p: nat)
    requires u.count == 0 && !u.zero.Unused?
    requires 6970 <= p < 65534 && p % 2 == 0 && free(p) && free(p + 1)
    requires forall q: nat :: 6970 <= q < p && q % 2 == 0 ==> !free(q)
    ensures var v := Init(u, free);
      && v.rtp == Bound(p) && v.rtcp == Bound(p + 1) && v.rtpPort == p && v.rtcpPort == p + 1 && v.count == 1
      && SourceOf(v) == p
  {
    LeastPair(free, 6970, p);
    SearchFinds(free, 6970, u);
    hide Search, FirstPair;
  }

  /** A pair that is passed over: behind a half-free one the search finds nothing, though the pair is free, and leaves
      descriptor 0 bound to its first port. */
  lemma PairPassedOver()
    ensures var free := (p: nat) => p == 6970 || p == 6972 || p == 6973;
      && PairFree(free, 6972) && FirstPair(free, 6970, false) == None
      && SourceOf(Init(NO_UDP, free)) == 6972 && Init(NO_UDP, free).rtp == Null
  {
    var free := (p: nat) => p == 6970 || p == 6972 || p == 6973;
    var u := NO_UDP.(rtp := Closed, rtcp := Null, zero := Unused);
    var v := u.(rtp := Null, zero := UdpOn(6972));
    assert Search(free, 6970, NO_UDP) == Search(free, 6972, u) == Search(free, 6974, v);
    NothingFree(free, 6974, v);
    assert FirstPair(free, 6972, true) == FirstPair(free, 6974, false);
  }

  lemma {:induction false} NothingFree(free: nat -> bool, p: nat, u: Udp)
    requires (forall q: nat :: q >= p ==> !free(q)) && u.rtp == Null
    ensures Search(free, p, u) == u && FirstPair(free, p, u.zero.Unused?) == None
    decreases 65534 - p
  {
    if p < 65534 { NothingFree(free, p + 2, u); }
  }

  /** The port that datagrams leave from, 0 if they do not: while m_RtpSocket is 0 they are handed to descriptor 0. */
  function SourceOf(u: Udp): nat {
    match u.rtp
    case Bound(p) => p
    case Null => (match u.zero case UdpOn(p) => p case _ => 0)
    case Closed => 0
  }

  /** The first user opens the sockets if the search finds a pair; they stay open on an even port and the next one
      exactly while there are users. */
  lemma InitHealthy(u: Udp, free: nat -> bool)
    requires Healthy(u)
    ensures Init(u, free).count == u.count + 1
    ensures Finds(u, free) ==> Healthy(Init(u, free))
    ensures u.count == 0 ==> (Healthy(Init(u, free)) <==> Finds(u, free))
  {
    SearchFinds(free, 6970, u);
    hide Search, FirstPair;
  }

  lemma ReleaseHealthy(u: Udp)
    ensures Release(u).count == u.count - 1
    ensures Healthy(u) ==> Healthy(Release(u))
    ensures Release(u).zero == if u.count == 1 && (u.rtp == Null || u.rtcp == Null) then Unused else u.zero
  {
  }

  // ----- who is counted

  /** A session's UDP SETUP, or its destructor, which releases the transport whether or not it was set up. */
  datatype Event = SetUp(session: nat) | Destroy(session: nat)

  /** The transport after these calls, `free` telling which ports can be bound during each of them. */
  function AfterEvents(u: Udp, es: seq<Event>, free: nat -> (nat -> bool)): Udp {
    if es == [] then u else
      var n := |es| - 1;
      var v := AfterEvents(u, es[..n], free);
      if es[n].SetUp? then Init(v, free(n)) else Release(v)
  }

  /** Whenever a search is made it finds a pair. */
  ghost predicate AlwaysFinds(u: Udp, es: seq<Event>, free: nat -> (nat -> bool)) {
    forall i: nat :: i < |es| && es[i].SetUp? ==> Finds(AfterEvents(u, es[..i], free), free(i))
  }

  /** m_udpRefCount after these calls. */
  function Count(es: seq<Event>): int {
    if es == [] then 0 else Count(es[..|es| - 1]) + if es[|es| - 1].SetUp? then 1 else -1
  }

  /** The live sessions that have been set up. */
  function Holders(es: seq<Event>): set<nat> {
    if es == [] then {} else
      var e := es[|es| - 1];
      if e.SetUp? then Holders(es[..|es| - 1]) + {e.session} else Holders(es[..|es| - 1]) - {e.session}
  }

  /** A SETUP of a session not yet set up, or the destruction of one that is. */
  predicate Regular(e: Event, holders: set<nat>) {
    if e.SetUp? then e.session !in holders else e.session in holders
  }

  predicate AllRegular(es: seq<Event>) {
    forall k :: 0 <= k < |es| ==> Regular(es[k], Holders(es[..k]))
  }

  /** After every event the count is the number of live set-up sessions. */
  predicate CountsHolders(es: seq<Event>) {
    forall k :: 0 <= k <= |es| ==> Count(es[..k]) == |Holders(es[..k])|
  }

  lemma PrefixesOf(es: seq<Event>)
    requires es != []
    ensures var front := es[..|es| - 1];
      && (CountsHolders(es) <==> CountsHolders(front) && Count(es) == |Holders(es)|)
      && (AllRegular(es) <==> AllRegular(front) && Regular(es[|es| - 1], Holders(front)))
  {
    hide Count, Holders, Regular;
    var n := |es| - 1;
    assert es[..|es|] == es;
    assert forall k :: 0 <= k <= n ==> es[..n][..k] == es[..k];
    assert CountsHolders(es) ==> Count(es[..n + 1]) == |Holders(es[..n + 1])|;
    assert CountsHolders(es[..n]) <==> forall k :: 0 <= k <= n ==> Count(es[..k]) == |Holders(es[..k])|;
  }

  /** The count is the number of live set-up sessions all through a run exactly when every session is set up
      over UDP once before it is destroyed. */
  lemma {:induction false} CountExact(es: seq<Event>)
    ensures CountsHolders(es) <==> AllRegular(es)
  {
    if es == [] {
      assert es[..0] == [];
    } else {
      PrefixesOf(es);
      hide CountsHolders, AllRegular, Regular;
      CountExact(es[..|es| - 1]);
      Holding(Holders(es[..|es| - 1]), es[|es| - 1]);
      if AllRegular(es[..|es| - 1]) { CountAtEnd(es[..|es| - 1]); }
    }
  }

  lemma {:induction false} CountAtEnd(es: seq<Event>)
    requires CountsHolders(es)
    ensures Count(es) == |Holders(es)|
  {
    assert es[..|es|] == es;
  }

  lemma Holding(holders: set<nat>, e: Event)
    ensures var after := if e.SetUp? then holders + {e.session} else holders - {e.session};
      |after| == |holders| + (if e.SetUp? then 1 else -1) <==> Regular(e, holders)
  {
    var after := if e.SetUp? then holders + {e.session} else holders - {e.session};
    if Regular(e, holders) {
      assert e.SetUp? ==> after - {e.session} == holders;
    } else {
      assert after == holders;
    }
  }

  /** m_udpRefCount is that count, and the sockets stay open exactly while it is positive. */
  lemma {:induction false} EventsCounted(u: Udp, es: seq<Event>, free: nat -> (nat -> bool))
    requires Healthy(u)
    ensures AfterEvents(u, es, free).count == u.count + Count(es)
    ensures AlwaysFinds(u, es, free) ==> Healthy(AfterEvents(u, es, free))
  {
    hide Init, Release, Healthy, Finds;
    if es != [] {
      var n := |es| - 1;
      var v := AfterEvents(u, es[..n], free);
      assert forall i: nat :: i < n ==> es[..n][..i] == es[..i];
      EventsCounted(u, es[..n], free);
      CountsOne(v, free(n));
      if AlwaysFinds(u, es, free) {
        assert AlwaysFinds(u, es[..n], free);
        if es[n].SetUp? { assert Finds(v, free(n)); InitHealthy(v, free(n)); } else { ReleaseHealthy(v); }
      }
    }
  }

  lemma CountsOne(u: Udp, free: nat -> bool)
    ensures Init(u, free).count == u.count + 1 && Release(u).count == u.count - 1
  {
    hide Search;
    SearchKeepsCount(free, 6970, u);
  }

  lemma {:induction false} SearchKeepsCount(free: nat -> bool, p: nat, u: Udp)
    ensures Search(free, p, u).count == u.count
    decreases 65534 - p
  {
    if p < 65534 {
      var (r, z) := Create(free, p, u.zero);
      if r.Null? {
        SearchKeepsCount(free, p + 2, u.(rtp := Null, zero := z));
      } else {
        SearchKeepsCount(free, p + 2, u.(rtp := Closed, rtcp := Null, zero := Unused));
      }
    }
  }

  /** Where every session is set up over UDP once before it is destroyed, and every search finds a pair, the sockets are
      open exactly while there are live set-up sessions. */
  lemma {:induction false} OpenWhileHeld(es: seq<Event>, free: nat -> (nat -> bool))
    requires AllRegular(es) && AlwaysFinds(NO_UDP, es, free)
    ensures var u := AfterEvents(NO_UDP, es, free);
      u.count == |Holders(es)| && if Holders(es) != {} then Open(u, u.rtpPort) else Shut(u)
  {
    hide AfterEvents, Count, Holders, AllRegular, AlwaysFinds;
    EventsCounted(NO_UDP, es, free);
    CountExact(es);
    CountAtEnd(es);
  }

  /** The transport's methods, called by these events. */
  method PlayEvents(t: Transport, es: seq<Event>, free: nat -> (nat -> bool))
    modifies t
    ensures t.View() == AfterEvents(old(t.View()), es, free)
  {
    assert es[..0] == [];
    for i := 0 to |es|
      invariant t.View() == AfterEvents(old(t.View()), es[..i], free)
    {
      assert es[..i + 1][..i] == es[..i];
      if es[i].SetUp? {
        var _ := t.InitUdpTransport(free(i));
      } else {
        t.ReleaseUdpTransport();
      }
    }
    assert es[..|es|] == es;
  }

  /** A session that was never set up over UDP, such as any TCP session, goes away first: the next UDP SETUP then makes
      no search, whatever ports are free, so that nothing is bound. */
  method ReleaseFirst(t: Transport, free: nat -> bool)
    requires t.View() == NO_UDP
    modifies t
    ensures t.View() == NO_UDP
  {
    t.ReleaseUdpTransport();
    var _ := t.InitUdpTransport(free);
  }

  /** The same in events: the count is 0 although a session is set up. */
  lemma UncountedSession(free: nat -> (nat -> bool))
    ensures var es := [Destroy(0), SetUp(1)];
      AfterEvents(NO_UDP, es, free) == NO_UDP && Holders(es) == {1} && !AllRegular(es)
  {
    var es := [Destroy(0), SetUp(1)];
    assert es[..1] == [Destroy(0)] && es[..1][..0] == [];
    assert !Regular(es[0], Holders(es[..0]));
    assert AfterEvents(NO_UDP, es[..1], free) == Release(NO_UDP);
  }
}
