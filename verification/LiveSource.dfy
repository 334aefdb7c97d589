/** The live source itself, updated in place, proved to do what LiveSourceSpec says. */
module LiveSources {
  import opened Options
  import opened LiveSourceSpec
  import opened LiveSourceRuns

  class LiveSource {
    // The access-unit channel.
    var queue: seq<AccessUnit>
    var closed: bool
    // The gate, the cached parameter sets, the attached format's copies, the GOP cache.
    var ready: bool
    var psSPS: Nal
    var psPPS: Nal
    var format: Option<Sdp>
    var gopCache: seq<CachedPacket>

    constructor (format: Option<Sdp>)
      ensures Core() == Initial(format) && Channel() == LiveSourceRuns.Channel([], false)
    {
      queue, closed, ready, psSPS, psPPS, gopCache := [], false, false, [], [], [];
      this.format := format;
    }

    function Core(): Core
      reads this
    {
      LiveSourceSpec.Core(ready, psSPS, psPPS, format, gopCache)
    }

    function Channel(): Channel
      reads this
    {
      LiveSourceRuns.Channel(queue, closed)
    }

    method Push(au: AccessUnit)
      modifies this`queue
      ensures Channel() == Offer(old(Channel()), Input.Push(au))
    {
      if closed {
        return;
      }
      if |queue| < LIVE_BUFFER_SIZE {
        queue := queue + [au];
      }
    }

    method Close()
      modifies this`closed
      ensures Channel() == Offer(old(Channel()), Input.Close)
    {
      if closed {
        return;
      }
      closed := true;
    }

    method HasIDR(nals: seq<Nal>) returns (found: bool)
      ensures found == Has(nals, IDR)
    {
      for i := 0 to |nals|
        invariant forall j | 0 <= j < i :: !IsType(nals[j], IDR)
      {
        if |nals[i]| > 0 && nals[i][0] % 32 == IDR {
          assert IsType(nals[i], IDR) && nals[i] in nals;
          return true;
        }
      }
      found := false;
    }

    method MirrorParameterSetsToFormat()
      modifies this`format
      ensures Core() == Mirrored(old(Core()))
    {
      if ready || format.None? {
        return;
      }
      if |psSPS| > 0 {
        format := Some(format.value.(sps := psSPS));
      }
      if |psPPS| > 0 {
        format := Some(format.value.(pps := psPPS));
      }
    }

    method AbsorbParameterSets(nals: seq<Nal>)
      modifies this`psSPS, this`psPPS, this`format
      ensures Core() == Absorbed(old(Core()), nals)
    {
      var newSPS, newPPS: Nal := [], [];
      for i := 0 to |nals|
        invariant newSPS == LastOf(nals[..i], SPS) && newPPS == LastOf(nals[..i], PPS)
      {
        assert nals[..i + 1][..i] == nals[..i];
        if |nals[i]| > 0 {
          if nals[i][0] % 32 == SPS {
            newSPS := nals[i];
          } else if nals[i][0] % 32 == PPS {
            newPPS := nals[i];
          }
        }
      }
      assert nals[..|nals|] == nals;
      if newSPS == [] && newPPS == [] {
        return;
      }
      var changed := false;
      if newSPS != [] && psSPS != newSPS {
        psSPS := newSPS;
        changed := true;
      }
      if newPPS != [] && psPPS != newPPS {
        psPPS := newPPS;
        changed := true;
      }
      if changed {
        MirrorParameterSetsToFormat();
      }
    }

    method MaybePrependParameterSets(nals: seq<Nal>) returns (out: seq<Nal>)
      ensures out == Prepended(Core(), nals)
    {
      var hasSPS, hasPPS := false, false;
      for i := 0 to |nals|
        invariant hasSPS == Has(nals[..i], SPS) && hasPPS == Has(nals[..i], PPS)
      {
        assert nals[..i + 1] == nals[..i] + [nals[i]];
        HasAppend(nals[..i], nals[i], SPS);
        HasAppend(nals[..i], nals[i], PPS);
        if |nals[i]| > 0 {
          if nals[i][0] % 32 == SPS {
            hasSPS := true;
          } else if nals[i][0] % 32 == PPS {
            hasPPS := true;
          }
        }
      }
      assert nals[..|nals|] == nals;
      if hasSPS && hasPPS {
        return nals;
      }
      out := [];
      if !hasSPS && |psSPS| > 0 {
        out := out + [psSPS];
      }
      if !hasPPS && |psPPS| > 0 {
        out := out + [psPPS];
      }
      out := out + nals;
    }

    method UpdateGOPCache(pkts: seq<CachedPacket>, isIDR: bool)
      modifies this`gopCache
      ensures gopCache == Recached(old(gopCache), pkts, isIDR)
    {
      if isIDR {
        gopCache := [];
        for i := 0 to |pkts|
          invariant gopCache == pkts[..i]
        {
          gopCache := gopCache + [pkts[i]];
        }
        return;
      }
      if |gopCache| == 0 {
        return;
      }
      if |gopCache| + |pkts| > MAX_GOP_CACHE_PACKETS {
        return;
      }
      ghost var before := gopCache;
      for i := 0 to |pkts|
        invariant gopCache == before + pkts[..i]
      {
        gopCache := gopCache + [pkts[i]];
      }
    }

    /** `given` is what the encoder was called with, `encoded` what it answered, and
        `sent` what was then written to the stream, which takes `writable` packets before
        it reports an error. */
    method WriteAU(au: AccessUnit, isIDR: bool, encoded: Option<seq<seq<Byte>>>, writable: nat)
      returns (given: seq<Nal>, sent: seq<CachedPacket>, failed: bool)
      modifies this`gopCache
      ensures given == if isIDR then Prepended(old(Core()), au.nals) else au.nals
      ensures encoded.None? ==> gopCache == old(gopCache) && sent == [] && !failed
      ensures encoded.Some? ==>
                var pkts := Stamped(encoded.value, au);
                && gopCache == Recached(old(gopCache), pkts, isIDR)
                && (failed <==> writable < |pkts|)
                && sent == if failed then pkts[..writable] else pkts
      ensures encoded.Some? ==>
                && (failed <==> writable < |encoded.value|)
                && |sent| == (if failed then writable else |encoded.value|)
                && forall i | 0 <= i < |sent| ::
                     && sent[i].pkt.payload == encoded.value[i]
                     && sent[i].pkt.timestamp == au.pts % 0x1_0000_0000
                     && sent[i].ntp == au.ntp
    {
      given := au.nals;
      if isIDR {
        given := MaybePrependParameterSets(given);
      }
      sent, failed := [], false;
      if encoded.None? {
        return;
      }
      var pkts := Stamped(encoded.value, au);
      UpdateGOPCache(pkts, isIDR);
      for i := 0 to |pkts|
        invariant i <= writable && sent == pkts[..i]
      {
        if i >= writable {
          failed := true;
          return;
        }
        sent := sent + [pkts[i]];
      }
    }

    /** One turn of the loop in Run that receives a unit. */
    method Receive(encoded: Option<seq<seq<Byte>>>, writable: nat)
      returns (given: Option<seq<Nal>>, sent: seq<CachedPacket>, stop: bool)
      requires queue != []
      modifies this
      ensures Channel() == Offer(old(Channel()), Input.Receive)
      ensures Core() == Consumed(old(Core()), Feed(old(queue)[0], encoded))
      ensures given == ToEncoder(old(Core()), old(queue)[0])
      ensures given.None? || encoded.None? ==> sent == [] && !stop
      ensures given.Some? && encoded.Some? ==>
                var pkts := Stamped(encoded.value, old(queue)[0]);
                (stop <==> writable < |pkts|) && sent == if stop then pkts[..writable] else pkts
      ensures given.Some? && encoded.Some? ==>
                && (stop <==> writable < |encoded.value|)
                && |sent| == (if stop then writable else |encoded.value|)
                && forall i | 0 <= i < |sent| ::
                     && sent[i].pkt.payload == encoded.value[i]
                     && sent[i].pkt.timestamp == old(queue)[0].pts % 0x1_0000_0000
                     && sent[i].ntp == old(queue)[0].ntp
    {
      hide Absorbed, Prepended, Recached, Stamped, Has;
      var au := queue[0];
      queue := queue[1..];
      assert Channel() == Offer(old(Channel()), Input.Receive);
      AbsorbParameterSets(au.nals);
      assert Core() == Absorbed(old(Core()), au.nals);
      var isIDR := HasIDR(au.nals);
      if isIDR && |psSPS| > 0 && |psPPS| > 0 {
        ready := true;
      }
      ghost var gated := Core();
      assert gated == Gated(old(Core()), au);
      if !ready {
        return None, [], false;
      }
      var nals;
      nals, sent, stop := WriteAU(au, isIDR, encoded, writable);
      given := Some(nals);
      assert Core() == gated.(gop := gopCache);
    }
  }
}
