/** The multiplexer context of src/RTPEnc.h: the buffers and counters that both senders write in place. */
module RtpContext {
  import opened Bytes
  import opened Rtp
  import opened Sequences
  import opened Units

  class RtpMuxContext {
    const cache: array<byte>  // interleaved prefix, RTP header, payload
    const buf: array<byte>  // payload under construction
    var bufPtr: nat  // how much of buf is filled
    var aggregation: bool
    var ssrc: nat
    var seqno: nat
    var timestamp: nat

    ghost predicate Valid()
      reads this
    {
      && cache.Length == MAX + HEADER + PREFIX && buf.Length == MAX && cache != buf
      && bufPtr <= MAX
      && seqno < 0x1_0000 && timestamp < 0x1_0000_0000 && ssrc < 0x1_0000_0000
    }

    /** The bytes waiting in the buffer. */
    function Pending(): (s: seq<byte>)
      requires Valid()
      reads this, buf
      ensures |s| == bufPtr
    {
      buf[..bufPtr]
    }

    constructor ()
      ensures Valid() && fresh(cache) && fresh(buf)
      ensures Pending() == [] && !aggregation && seqno == 0 && timestamp == 0 && ssrc == 0x1234_5678
    {
      cache := new byte[MAX + HEADER + PREFIX];
      buf := new byte[MAX];
      bufPtr, aggregation, seqno, timestamp, ssrc := 0, false, 0, 0, 0x1234_5678;
    }

    /** The packet that sending `data` now would emit. */
    function Next(data: seq<byte>, mark: bool): (p: Packet)
      requires Valid() && |data| <= MAX
      reads this
      ensures p.Fits()
    {
      Packet(mark, seqno, timestamp, ssrc, data)
    }

    method WriteHeader(at: nat, ghost data: seq<byte>, mark: bool)
      requires Valid() && |data| <= MAX && at + HEADER <= cache.Length
      modifies cache
      ensures cache[at..at + HEADER] == RtpHeader(Next(data, mark))
      ensures cache[..at] == old(cache[..at])
    {
      hide Be16, Be32;
      cache[at] := 2 << 6;
      cache[at + 1] := (96 & 0x7F) | ((if mark then 1 else 0) << 7);
      ghost var s0 := cache[..];
      assert s0[at..at + 2] == [2 << 6, 96 | (if mark then 1 << 7 else 0)];
      var pos := Load16(cache, at + 2, seqno);
      ghost var s1 := cache[..];
      pos := Load32(cache, at + 4, timestamp);
      ghost var s2 := cache[..];
      pos := Load32(cache, at + 8, ssrc);
      Written(s0, s1, at, at + 2, Be16(seqno));
      Written(s1, s2, at, at + 4, Be32(timestamp));
      Written(s2, cache[..], at, at + 8, Be32(ssrc));
      assert cache[..][at..at + HEADER] == cache[at..at + HEADER];
      assert cache[..][..at] == s0[..at] == old(cache[..at]);
    }

    /** Writes the RTP header and the payload from cache[at] on. */
    method WritePacket(at: nat, data: seq<byte>, mark: bool)
      requires Valid() && |data| <= MAX && at + HEADER + |data| <= cache.Length
      modifies cache
      ensures cache[at..at + HEADER + |data|] == Datagram(Next(data, mark))
      ensures cache[..at] == old(cache[..at])
    {
      hide RtpHeader;
      WriteHeader(at, data, mark);
      ghost var s0 := cache[..];
      CopyInto(cache, at + HEADER, data);
      Written(s0, cache[..], at, at + HEADER, data);
      assert s0[..at] == cache[..][..at] == cache[..at];
      assert cache[..][at..at + HEADER + |data|] == cache[at..at + HEADER + |data|];
    }

    /** Puts a length-prefixed unit at the end of what is pending. */
    method AppendEntry(nal: Nal)
      requires Valid() && bufPtr + 2 + |nal| <= MAX
      modifies this`bufPtr, buf
      ensures Valid() && Pending() == old(Pending()) + Entry(nal)
    {
      ghost var s0 := buf[..];
      var p := Load16(buf, bufPtr, |nal|);
      ghost var s1 := buf[..];
      CopyInto(buf, p, nal);
      Written(s0, s1, 0, bufPtr, Be16(|nal|));
      Written(s1, buf[..], 0, p, nal);
      bufPtr := p + |nal|;
      assert buf[..bufPtr] == buf[..][0..bufPtr] == s0[0..old(bufPtr)] + Be16(|nal|) + nal;
    }

    /** What follows a send: the front of the cache is cleared, the buffer restarts, the number advances. */
    method Finish()
      requires Valid()
      modifies this`bufPtr, this`seqno, cache
      ensures Valid() && bufPtr == 0 && seqno == (old(seqno) + 1) % 0x1_0000
      ensures (forall i :: 0 <= i < MAX + 10 ==> cache[i] == 0)
      ensures forall i :: MAX + 10 <= i < cache.Length ==> cache[i] == old(cache[i])
    {
      forall i | 0 <= i < MAX + 10 {
        cache[i] := 0;
      }
      bufPtr := 0;
      seqno := (seqno + 1) % 0x1_0000;
    }
  }
}
