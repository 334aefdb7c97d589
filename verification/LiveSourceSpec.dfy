/** internal/rtsp/livesource.go on values: what consuming one access unit does to the
    readiness gate, the parameter sets, the SDP copies and the GOP cache. What the RTP
    encoder returns for a unit is given from outside, as payloads or a failure. */
module LiveSourceSpec {
  import opened Options

  const LIVE_BUFFER_SIZE := 32
  const MAX_GOP_CACHE_PACKETS := 512
  const IDR := 5
  const SPS := 7
  const PPS := 8

  type Byte = b: int | 0 <= b < 256
  type Nal = seq<Byte>

  datatype AccessUnit = AccessUnit(pts: int, ntp: int, nals: seq<Nal>)

  datatype Packet = Packet(payload: seq<Byte>, timestamp: int)

  datatype CachedPacket = CachedPacket(pkt: Packet, ntp: int)

  datatype Sdp = Sdp(sps: Nal, pps: Nal)

  predicate IsType(nal: Nal, t: int) { |nal| > 0 && nal[0] % 32 == t }

  predicate Has(nals: seq<Nal>, t: int) { exists nal <- nals :: IsType(nal, t) }

  lemma HasAppend(nals: seq<Nal>, nal: Nal, t: int)
    ensures Has(nals + [nal], t) <==> Has(nals, t) || IsType(nal, t)
  {
  }

  /** The last NAL of type `t`, or the empty one if there is none. */
  function LastOf(nals: seq<Nal>, t: int): (r: Nal)
    ensures r != [] <==> Has(nals, t)
    ensures r != [] ==> r in nals && IsType(r, t)
  {
    if nals == [] then []
    else if IsType(nals[|nals| - 1], t) then nals[|nals| - 1]
    else
      assert nals == nals[..|nals| - 1] + [nals[|nals| - 1]];
      LastOf(nals[..|nals| - 1], t)
  }

  /** The state Run works on. `sdp` is the attached H.264 format, if there is one. */
  datatype Core = Core(ready: bool, sps: Nal, pps: Nal, sdp: Option<Sdp>, gop: seq<CachedPacket>)

  function Initial(sdp: Option<Sdp>): Core { Core(false, [], [], sdp, []) }

  function Mirrored(c: Core): Core {
    if c.ready || c.sdp.None? then c
    else c.(sdp := Some(Sdp(if |c.sps| > 0 then c.sps else c.sdp.value.sps,
                            if |c.pps| > 0 then c.pps else c.sdp.value.pps)))
  }

  function Absorbed(c: Core, nals: seq<Nal>): Core {
    var newSps, newPps := LastOf(nals, SPS), LastOf(nals, PPS);
    var sps := if newSps != [] then newSps else c.sps;
    var pps := if newPps != [] then newPps else c.pps;
    if sps == c.sps && pps == c.pps then c else Mirrored(c.(sps := sps, pps := pps))
  }

  function Prepended(c: Core, nals: seq<Nal>): seq<Nal> {
    if Has(nals, SPS) && Has(nals, PPS) then nals
    else
      (if !Has(nals, SPS) && |c.sps| > 0 then [c.sps] else [])
      + (if !Has(nals, PPS) && |c.pps| > 0 then [c.pps] else [])
      + nals
  }

  /** The packets of one unit, stamped with its presentation time modulo 2^32. */
  function Stamped(payloads: seq<seq<Byte>>, au: AccessUnit): seq<CachedPacket> {
    seq(|payloads|, i requires 0 <= i < |payloads| =>
      CachedPacket(Packet(payloads[i], au.pts % 0x1_0000_0000), au.ntp))
  }

  function Recached(gop: seq<CachedPacket>, pkts: seq<CachedPacket>, isIDR: bool): seq<CachedPacket> {
    if isIDR then pkts
    else if |gop| == 0 || |gop| + |pkts| > MAX_GOP_CACHE_PACKETS then gop
    else gop + pkts
  }

  /** One unit together with what the encoder makes of it. */
  datatype Feed = Feed(au: AccessUnit, encoded: Option<seq<seq<Byte>>>)

  /** Absorb the unit's parameter sets and open the gate if this is the moment. */
  function Gated(c: Core, au: AccessUnit): Core {
    var a := Absorbed(c, au.nals);
    if Has(au.nals, IDR) && |a.sps| > 0 && |a.pps| > 0 then a.(ready := true) else a
  }

  /** What the encoder is given for the unit, if it is given anything. */
  function ToEncoder(c: Core, au: AccessUnit): Option<seq<Nal>> {
    var g := Gated(c, au);
    if !g.ready then None
    else Some(if Has(au.nals, IDR) then Prepended(g, au.nals) else au.nals)
  }

  function Consumed(c: Core, f: Feed): Core {
    var g := Gated(c, f.au);
    if !g.ready || f.encoded.None? then g
    else g.(gop := Recached(g.gop, Stamped(f.encoded.value, f.au), Has(f.au.nals, IDR)))
  }

  function After(sdp: Option<Sdp>, feeds: seq<Feed>): Core {
    if feeds == [] then Initial(sdp)
    else Consumed(After(sdp, feeds[..|feeds| - 1]), feeds[|feeds| - 1])
  }
}
