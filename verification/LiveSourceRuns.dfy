/** What the live source guarantees for every stream of access units. */
module LiveSourceRuns {
  import opened Options
  import opened LiveSourceSpec

  /** All NAL units of the stream, in order, including those of dropped units. */
  function AllNals(feeds: seq<Feed>): seq<Nal> {
    if feeds == [] then [] else AllNals(feeds[..|feeds| - 1]) + feeds[|feeds| - 1].au.nals
  }

  /** The latest parameter set of type `t` in the stream so far. */
  function Latest(feeds: seq<Feed>, t: int): Nal { LastOf(AllNals(feeds), t) }

  /** Unit `j` is an IDR at which both parameter sets are known. */
  predicate Decodable(feeds: seq<Feed>, j: nat) {
    j < |feeds| && Has(feeds[j].au.nals, IDR)
    && Has(AllNals(feeds[..j + 1]), SPS) && Has(AllNals(feeds[..j + 1]), PPS)
  }

  /** Unit `j` is the first such unit. */
  predicate FirstDecodable(feeds: seq<Feed>, j: nat) {
    Decodable(feeds, j) && forall i: nat | i < j :: !Decodable(feeds, i)
  }

  lemma {:induction false} LastOfConcat(a: seq<Nal>, b: seq<Nal>, t: int)
    ensures LastOf(a + b, t) == if LastOf(b, t) != [] then LastOf(b, t) else LastOf(a, t)
  {
    if b == [] {
      assert a + b == a;
    } else {
      assert (a + b)[..|a + b| - 1] == a + b[..|b| - 1];
      LastOfConcat(a, b[..|b| - 1], t);
    }
  }

  /** One unit's effect on the gate and on the cached parameter sets. */
  lemma ConsumedFields(c: Core, f: Feed)
    ensures var sps, pps := LastOf(f.au.nals, SPS), LastOf(f.au.nals, PPS);
            var c' := Consumed(c, f);
            && c'.sps == (if sps != [] then sps else c.sps)
            && c'.pps == (if pps != [] then pps else c.pps)
            && (c'.ready <==> c.ready || (Has(f.au.nals, IDR) && c'.sps != [] && c'.pps != []))
            && (c'.ready <==> Gated(c, f.au).ready)
            && c'.sps == Gated(c, f.au).sps && c'.pps == Gated(c, f.au).pps
  {
  }

  lemma LatestAppend(feeds: seq<Feed>, f: Feed, t: int)
    ensures Latest(feeds + [f], t) == if LastOf(f.au.nals, t) != [] then LastOf(f.au.nals, t) else Latest(feeds, t)
  {
    assert (feeds + [f])[..|feeds|] == feeds;
    LastOfConcat(AllNals(feeds), f.au.nals, t);
  }

  lemma AfterAppend(sdp: Option<Sdp>, feeds: seq<Feed>, f: Feed)
    ensures After(sdp, feeds + [f]) == Consumed(After(sdp, feeds), f)
  {
  }

  lemma {:induction false} CachesLatest(sdp: Option<Sdp>, feeds: seq<Feed>)
    ensures After(sdp, feeds).sps == Latest(feeds, SPS) && After(sdp, feeds).pps == Latest(feeds, PPS)
  {
    if feeds != [] {
      var init, f := feeds[..|feeds| - 1], feeds[|feeds| - 1];
      assert feeds == init + [f];
      CachesLatest(sdp, init);
      AfterAppend(sdp, init, f);
      ConsumedFields(After(sdp, init), f);
      LatestAppend(init, f, SPS);
      LatestAppend(init, f, PPS);
    }
  }

  lemma DecodablePrefix(feeds: seq<Feed>, n: nat, j: nat)
    requires j < n <= |feeds|
    ensures Decodable(feeds[..n], j) <==> Decodable(feeds, j)
  {
    assert feeds[..n][..j + 1] == feeds[..j + 1];
  }

  lemma ReadyStep(sdp: Option<Sdp>, init: seq<Feed>, f: Feed)
    ensures After(sdp, init + [f]).ready <==> After(sdp, init).ready || Decodable(init + [f], |init|)
  {
    AfterAppend(sdp, init, f);
    ConsumedFields(After(sdp, init), f);
    CachesLatest(sdp, init + [f]);
    assert (init + [f])[..|init| + 1] == init + [f];
  }

  /** The gate is open exactly when some unit so far was decodable on its own. */
  lemma {:induction false} ReadyExactly(sdp: Option<Sdp>, feeds: seq<Feed>)
    ensures After(sdp, feeds).ready <==> exists j: nat :: Decodable(feeds, j)
  {
    if feeds != [] {
      var n := |feeds| - 1;
      var init := feeds[..n];
      assert feeds == init + [feeds[n]];
      ReadyExactly(sdp, init);
      ReadyStep(sdp, init, feeds[n]);
      SomeDecodable(feeds, n);
    }
  }

  lemma SomeDecodable(feeds: seq<Feed>, n: nat)
    requires n < |feeds|
    ensures (exists j: nat | j <= n :: Decodable(feeds, j))
       <==> (exists j: nat :: Decodable(feeds[..n], j)) || Decodable(feeds, n)
  {
    forall j: nat | j < n ensures Decodable(feeds[..n], j) <==> Decodable(feeds, j) { DecodablePrefix(feeds, n, j); }
  }

  /** Nothing reaches the encoder before the first IDR at which SPS and PPS are both
      known; from that unit on, everything does. */
  lemma EncodedFromFirstDecodableOn(sdp: Option<Sdp>, feeds: seq<Feed>, k: nat)
    requires k < |feeds|
    ensures ToEncoder(After(sdp, feeds[..k]), feeds[k].au).Some? <==> exists j: nat | j <= k :: Decodable(feeds, j)
  {
    var upTo := feeds[..k + 1];
    assert upTo[..k] == feeds[..k] && upTo[k] == feeds[k];
    ReadyExactly(sdp, upTo);
    forall j: nat | j <= k ensures Decodable(upTo, j) <==> Decodable(feeds, j) { DecodablePrefix(feeds, k + 1, j); }
    assert forall j: nat :: Decodable(upTo, j) ==> j <= k;
  }

  /** Every IDR the encoder gets carries an SPS and a PPS. What was inserted is the latest
      of its kind in the stream, dropped units included, and the unit's own NALs follow
      unchanged. Other units are passed on as they are. */
  lemma EncodedUnits(sdp: Option<Sdp>, feeds: seq<Feed>, k: nat)
    requires k < |feeds| && ToEncoder(After(sdp, feeds[..k]), feeds[k].au).Some?
    ensures var nals, given := feeds[k].au.nals, ToEncoder(After(sdp, feeds[..k]), feeds[k].au).value;
            var sps, pps := Latest(feeds[..k + 1], SPS), Latest(feeds[..k + 1], PPS);
            if Has(nals, IDR) then
              && Has(given, SPS) && Has(given, PPS)
              && LastOf(given, SPS) == sps && LastOf(given, PPS) == pps
              && given == (if Has(nals, SPS) then [] else [sps]) + (if Has(nals, PPS) then [] else [pps]) + nals
            else given == nals
  {
    hide After, ToEncoder, Gated, Latest, Has;
    var c, au := After(sdp, feeds[..k]), feeds[k].au;
    assert feeds[..k + 1] == feeds[..k] + [feeds[k]];
    GatedKnown(sdp, feeds, k);
    LatestAppend(feeds[..k], feeds[k], SPS);
    LatestAppend(feeds[..k], feeds[k], PPS);
    GivenUnit(c, au);
  }

  /** Behind an open gate both parameter sets are known, and are the latest ones. */
  lemma GatedKnown(sdp: Option<Sdp>, feeds: seq<Feed>, k: nat)
    requires k < |feeds| && ToEncoder(After(sdp, feeds[..k]), feeds[k].au).Some?
    ensures var g := Gated(After(sdp, feeds[..k]), feeds[k].au);
            && g.sps == Latest(feeds[..k + 1], SPS) && IsType(g.sps, SPS)
            && g.pps == Latest(feeds[..k + 1], PPS) && IsType(g.pps, PPS)
  {
    assert feeds[..k + 1] == feeds[..k] + [feeds[k]];
    AfterAppend(sdp, feeds[..k], feeds[k]);
    ConsumedFields(After(sdp, feeds[..k]), feeds[k]);
    CachesLatest(sdp, feeds[..k + 1]);
    ReadyImpliesKnown(sdp, feeds[..k + 1]);
  }

  /** What one unit looks like when it is passed on behind an open gate. */
  lemma GivenUnit(c: Core, au: AccessUnit)
    requires ToEncoder(c, au).Some? && Gated(c, au).sps != [] && Gated(c, au).pps != []
    requires IsType(Gated(c, au).sps, SPS) && IsType(Gated(c, au).pps, PPS)
    ensures var nals, given := au.nals, ToEncoder(c, au).value;
            var sps, pps := Gated(c, au).sps, Gated(c, au).pps;
            if Has(nals, IDR) then
              && Has(given, SPS) && Has(given, PPS)
              && LastOf(given, SPS) == (if Has(nals, SPS) then LastOf(nals, SPS) else sps)
              && LastOf(given, PPS) == (if Has(nals, PPS) then LastOf(nals, PPS) else pps)
              && given == (if Has(nals, SPS) then [] else [sps]) + (if Has(nals, PPS) then [] else [pps]) + nals
            else given == nals
  {
    var nals, given := au.nals, ToEncoder(c, au).value;
    if Has(nals, IDR) {
      var sps, pps := Gated(c, au).sps, Gated(c, au).pps;
      var a := (if Has(nals, SPS) then [] else [sps]);
      var b := (if Has(nals, PPS) then [] else [pps]);
      assert given == a + b + nals;
      LastOfInserted(a, b, nals, SPS, sps, pps);
      LastOfInserted(a, b, nals, PPS, sps, pps);
    }
  }

  lemma LastOfInserted(a: seq<Nal>, b: seq<Nal>, nals: seq<Nal>, t: int, sps: Nal, pps: Nal)
    requires IsType(sps, SPS) && IsType(pps, PPS) && (t == SPS || t == PPS)
    requires a == (if Has(nals, SPS) then [] else [sps]) && b == (if Has(nals, PPS) then [] else [pps])
    ensures LastOf(a + b + nals, t)
         == if Has(nals, t) then LastOf(nals, t) else if t == SPS then sps else pps
  {
    LastOfConcat(a + b, nals, t);
    LastOfConcat(a, b, t);
    assert LastOf([sps], t) == (if t == SPS then sps else []) by { assert [sps][..0] == []; }
    assert LastOf([pps], t) == (if t == PPS then pps else []) by { assert [pps][..0] == []; }
  }

  lemma {:induction false} ReadyImpliesKnown(sdp: Option<Sdp>, feeds: seq<Feed>)
    ensures After(sdp, feeds).ready ==> After(sdp, feeds).sps != [] && After(sdp, feeds).pps != []
  {
    if feeds != [] { ReadyImpliesKnown(sdp, feeds[..|feeds| - 1]); }
  }

  /** The SDP copies show the cached parameter sets, or what they showed at first. */
  predicate Following(c: Core, first: Sdp) {
    c.sdp == Some(Sdp(if c.sps != [] then c.sps else first.sps, if c.pps != [] then c.pps else first.pps))
  }

  /** Behind an open gate the SDP does not change; behind a closed one it follows the
      cached parameter sets. */
  lemma SdpStep(c: Core, f: Feed, first: Sdp)
    ensures c.ready ==> Consumed(c, f).sdp == c.sdp && Consumed(c, f).ready
    ensures !c.ready && Following(c, first) ==> Following(Consumed(c, f), first)
  {
  }

  lemma {:induction false} FollowingUntilReady(sdp: Option<Sdp>, feeds: seq<Feed>)
    requires sdp.Some? && (feeds != [] ==> !After(sdp, feeds[..|feeds| - 1]).ready)
    ensures Following(After(sdp, feeds), sdp.value)
  {
    if feeds != [] {
      var init, f := feeds[..|feeds| - 1], feeds[|feeds| - 1];
      if init != [] {
        SdpStep(After(sdp, init[..|init| - 1]), init[|init| - 1], sdp.value);
      }
      FollowingUntilReady(sdp, init);
      SdpStep(After(sdp, init), f, sdp.value);
    }
  }

  /** Until the gate opens, and at the unit that opens it, the SDP shows the parameter sets
      that are the latest so far. */
  lemma SdpFollowsUntilReady(sdp: Option<Sdp>, feeds: seq<Feed>)
    requires sdp.Some? && forall j: nat | j + 1 < |feeds| :: !Decodable(feeds, j)
    ensures After(sdp, feeds).sdp
         == Some(Sdp(if Latest(feeds, SPS) != [] then Latest(feeds, SPS) else sdp.value.sps,
                     if Latest(feeds, PPS) != [] then Latest(feeds, PPS) else sdp.value.pps))
  {
    if feeds != [] {
      var n := |feeds| - 1;
      forall j: nat | j < n ensures !Decodable(feeds[..n], j) { DecodablePrefix(feeds, n, j); }
      ReadyExactly(sdp, feeds[..n]);
    }
    FollowingUntilReady(sdp, feeds);
    CachesLatest(sdp, feeds);
  }

  lemma {:induction false} SdpKept(sdp: Option<Sdp>, feeds: seq<Feed>, n: nat)
    requires n <= |feeds| && After(sdp, feeds[..n]).ready
    ensures After(sdp, feeds).sdp == After(sdp, feeds[..n]).sdp && After(sdp, feeds).ready
    decreases |feeds|
  {
    if n == |feeds| {
      assert feeds[..n] == feeds;
    } else {
      var init, f := feeds[..|feeds| - 1], feeds[|feeds| - 1];
      assert init[..n] == feeds[..n];
      SdpKept(sdp, init, n);
      SdpStep(After(sdp, init), f, Sdp([], []));
    }
  }

  /** From the moment of readiness on the SDP holds the sets that were the latest at that
      moment, and later parameter sets do not change it. */
  lemma SdpFrozenAtReadiness(sdp: Option<Sdp>, feeds: seq<Feed>, j: nat)
    requires sdp.Some? && FirstDecodable(feeds, j)
    ensures After(sdp, feeds).sdp == Some(Sdp(Latest(feeds[..j + 1], SPS), Latest(feeds[..j + 1], PPS)))
  {
    var upTo := feeds[..j + 1];
    forall i: nat | i <= j ensures Decodable(upTo, i) <==> Decodable(feeds, i) { DecodablePrefix(feeds, j + 1, i); }
    SdpFollowsUntilReady(sdp, upTo);
    ReadyExactly(sdp, upTo);
    assert Decodable(upTo, j);
    SdpKept(sdp, feeds, j + 1);
  }

  // ---------- the GOP cache ----------------------------------------------------------

  /** The packets of each encoded unit since the last IDR that was encoded, that IDR
      first: one group a unit. */
  function Groups(sdp: Option<Sdp>, feeds: seq<Feed>): seq<seq<CachedPacket>> {
    if feeds == [] then []
    else
      var init, f := feeds[..|feeds| - 1], feeds[|feeds| - 1];
      if ToEncoder(After(sdp, init), f.au).None? || f.encoded.None? then Groups(sdp, init)
      else
        var group := Stamped(f.encoded.value, f.au);
        if Has(f.au.nals, IDR) then [group]
        else if Groups(sdp, init) == [] then []
        else Groups(sdp, init) + [group]
  }

  function Total(groups: seq<seq<CachedPacket>>): nat {
    if groups == [] then 0 else Total(groups[..|groups| - 1]) + |groups[|groups| - 1]|
  }

  /** The packets of the groups that `kept` selects, in order. */
  function Selected(groups: seq<seq<CachedPacket>>, kept: seq<bool>): seq<CachedPacket>
    requires |kept| == |groups|
  {
    if groups == [] then []
    else
      var n := |groups| - 1;
      Selected(groups[..n], kept[..n]) + if kept[n] then groups[n] else []
  }

  function Max(a: nat, b: nat): nat { if a >= b then a else b }

  /** Behind a non-empty first group, a group is kept exactly if it fits. */
  ghost predicate Greedy(groups: seq<seq<CachedPacket>>, kept: seq<bool>)
    requires |kept| == |groups|
  {
    forall i | 0 < i < |groups| && groups[0] != [] ::
      kept[i] <==> |Selected(groups[..i], kept[..i])| + |groups[i]| <= MAX_GOP_CACHE_PACKETS
  }

  /** `cache` consists of whole groups in order, the first one included; a later one is kept
      exactly if it fits into what the ones kept before it leave; and the cache is bounded. */
  ghost predicate CacheShape(groups: seq<seq<CachedPacket>>, kept: seq<bool>, cache: seq<CachedPacket>) {
    && |kept| == |groups|
    && cache == Selected(groups, kept)
    && (groups != [] ==> kept[0] || groups[0] == [])
    && Greedy(groups, kept)
    && |cache| <= Max(MAX_GOP_CACHE_PACKETS, if groups == [] then 0 else |groups[0]|)
    && (groups != [] && groups[0] != [] ==> groups[0] <= cache)
    && (groups != [] && groups[0] == [] ==> cache == [])
  }

  lemma {:induction false} SelectedAtMostTotal(groups: seq<seq<CachedPacket>>, kept: seq<bool>)
    requires |kept| == |groups|
    ensures |Selected(groups, kept)| <= Total(groups)
  {
    if groups != [] { SelectedAtMostTotal(groups[..|groups| - 1], kept[..|groups| - 1]); }
  }

  /** As long as everything fits, everything is kept. */
  lemma CompleteWhileItFits(groups: seq<seq<CachedPacket>>, kept: seq<bool>, cache: seq<CachedPacket>, i: nat)
    requires CacheShape(groups, kept, cache) && i < |groups| && groups[0] != []
    requires Total(groups[..i + 1]) <= MAX_GOP_CACHE_PACKETS
    ensures kept[i]
  {
    if i > 0 {
      assert groups[..i + 1][..i] == groups[..i];
      SelectedAtMostTotal(groups[..i], kept[..i]);
    }
  }

  /** Appending one more group the way `updateGOPCache` does keeps the shape. */
  lemma ShapeKept(groups: seq<seq<CachedPacket>>, kept: seq<bool>, cache: seq<CachedPacket>, group: seq<CachedPacket>)
    returns (kept': seq<bool>)
    requires groups != [] && CacheShape(groups, kept, cache)
    ensures CacheShape(groups + [group], kept', Recached(cache, group, false))
  {
    hide Selected, Greedy;
    var fits := cache != [] && |cache| + |group| <= MAX_GOP_CACHE_PACKETS;
    kept' := kept + [fits];
    SelectedMore(groups, kept, group, fits);
    GreedyMore(groups, kept, group, fits);
  }

  lemma SelectedMore(groups: seq<seq<CachedPacket>>, kept: seq<bool>, group: seq<CachedPacket>, keep: bool)
    requires |kept| == |groups|
    ensures Selected(groups + [group], kept + [keep])
         == if keep then Selected(groups, kept) + group else Selected(groups, kept)
  {
    assert (groups + [group])[..|groups|] == groups && (kept + [keep])[..|groups|] == kept;
  }

  lemma GreedyMore(groups: seq<seq<CachedPacket>>, kept: seq<bool>, group: seq<CachedPacket>, keep: bool)
    requires |kept| == |groups| && groups != [] && Greedy(groups, kept)
    requires groups[0] != [] ==> (keep <==> |Selected(groups, kept)| + |group| <= MAX_GOP_CACHE_PACKETS)
    ensures Greedy(groups + [group], kept + [keep])
  {
    hide Selected;
    var more, kept' := groups + [group], kept + [keep];
    forall i | 0 < i < |more| ensures more[..i] == groups[..i] && kept'[..i] == kept[..i] {
    }
    assert groups[..|groups|] == groups && kept[..|groups|] == kept;
  }

  /** All packets of the groups, in order. */
  function Flat(groups: seq<seq<CachedPacket>>): seq<CachedPacket> {
    if groups == [] then [] else Flat(groups[..|groups| - 1]) + groups[|groups| - 1]
  }

  /** No packet occurs in two units. */
  ghost predicate UnitsDiffer(groups: seq<seq<CachedPacket>>) {
    forall i, j | 0 <= i < j < |groups| :: forall a, b | a in groups[i] && b in groups[j] :: a != b
  }

  ghost predicate AllKept(groups: seq<seq<CachedPacket>>, kept: seq<bool>)
    requires |kept| == |groups|
  {
    forall i | 0 <= i < |groups| && groups[i] != [] :: kept[i]
  }

  /** No unit is kept behind one that is not. */
  ghost predicate KeptFirst(groups: seq<seq<CachedPacket>>, kept: seq<bool>)
    requires |kept| == |groups|
  {
    forall i, j | 0 <= i < j < |groups| && groups[i] != [] && groups[j] != [] && kept[j] :: kept[i]
  }

  lemma {:induction false} SelectedLength(groups: seq<seq<CachedPacket>>, kept: seq<bool>)
    requires |kept| == |groups|
    ensures |Selected(groups, kept)| <= |Flat(groups)|
    ensures |Selected(groups, kept)| == |Flat(groups)| <==> AllKept(groups, kept)
    ensures AllKept(groups, kept) ==> Selected(groups, kept) == Flat(groups)
  {
    if groups != [] { SelectedLength(groups[..|groups| - 1], kept[..|groups| - 1]); }
  }

  lemma {:induction false} FlatMember(groups: seq<seq<CachedPacket>>, p: nat) returns (i: nat)
    requires p < |Flat(groups)|
    ensures i < |groups| && Flat(groups)[p] in groups[i]
  {
    var n := |groups| - 1;
    if p < |Flat(groups[..n])| { i := FlatMember(groups[..n], p); } else { i := n; }
  }

  /** What is selected is a prefix of everything exactly if no unit is kept behind one that
      is not. */
  lemma {:induction false} PrefixIfKeptFirst(groups: seq<seq<CachedPacket>>, kept: seq<bool>)
    requires |kept| == |groups| && UnitsDiffer(groups)
    ensures Selected(groups, kept) <= Flat(groups) <==> KeptFirst(groups, kept)
  {
    if groups != [] {
      var n := |groups| - 1;
      var sel, all := Selected(groups[..n], kept[..n]), Flat(groups[..n]);
      PrefixIfKeptFirst(groups[..n], kept[..n]);
      SelectedLength(groups[..n], kept[..n]);
      LastKept(groups, kept);
      if kept[n] && groups[n] != [] {
        if |sel| < |all| {
          var i := FlatMember(groups[..n], |sel|);
          assert groups[n][0] in groups[n] && groups[..n][i] == groups[i];
          assert (sel + groups[n])[|sel|] == groups[n][0] && (all + groups[n])[|sel|] == all[|sel|];
        }
      } else {
        ShortPrefix(sel, all, groups[n]);
      }
    }
  }

  lemma LastKept(groups: seq<seq<CachedPacket>>, kept: seq<bool>)
    requires |kept| == |groups| && groups != []
    ensures var n := |groups| - 1;
            KeptFirst(groups, kept) <==>
              && KeptFirst(groups[..n], kept[..n])
              && (kept[n] && groups[n] != [] ==> AllKept(groups[..n], kept[..n]))
  {
  }

  lemma ShortPrefix(sel: seq<CachedPacket>, all: seq<CachedPacket>, more: seq<CachedPacket>)
    requires |sel| <= |all|
    ensures sel <= all + more <==> sel <= all
  {
    assert (all + more)[..|sel|] == all[..|sel|];
  }

  /** Group `i` fits beside what was kept before it. */
  predicate Fits(groups: seq<seq<CachedPacket>>, kept: seq<bool>, i: nat)
    requires |kept| == |groups| && i < |groups|
  {
    i == 0 || |Selected(groups[..i], kept[..i])| + |groups[i]| <= MAX_GOP_CACHE_PACKETS
  }

  /** The cache is the early portion of the GOP, and nothing else, if and only if no unit fits
      after one that did not. */
  lemma EarlyPortionExactly(groups: seq<seq<CachedPacket>>, kept: seq<bool>, cache: seq<CachedPacket>)
    requires CacheShape(groups, kept, cache) && groups != [] && groups[0] != [] && UnitsDiffer(groups)
    ensures cache <= Flat(groups) <==>
              forall i, j | 0 <= i < j < |groups| && groups[i] != [] && groups[j] != [] && Fits(groups, kept, j) ::
                Fits(groups, kept, i)
  {
    hide Selected, UnitsDiffer, Flat;
    PrefixIfKeptFirst(groups, kept);
    assert forall i: nat | i < |groups| :: kept[i] <==> Fits(groups, kept, i);
  }

  /** With units of 500, 20 and 5 packets the second does not fit and the third does. */
  lemma LaterUnitFits(
    idr: seq<CachedPacket>, big: seq<CachedPacket>, small: seq<CachedPacket>,
    kept: seq<bool>, cache: seq<CachedPacket>)
    requires |idr| == 500 && |big| == 20 && |small| == 5 && CacheShape([idr, big, small], kept, cache)
    ensures cache == idr + small
  {
    var groups := [idr, big, small];
    assert groups[..1] == [idr] && groups[..2] == [idr, big] && [idr, big][..1] == [idr] && [idr][..0] == [];
    assert kept[..1] == [kept[0]] && kept[..2] == [kept[0], kept[1]] && kept[..2][..1] == kept[..1];
    assert Selected([idr], kept[..1]) == idr;
    assert !kept[1];
    assert Selected([idr, big], kept[..2]) == idr;
  }

  lemma GroupsAppend(sdp: Option<Sdp>, init: seq<Feed>, f: Feed)
    ensures Groups(sdp, init + [f])
         == if ToEncoder(After(sdp, init), f.au).None? || f.encoded.None? then Groups(sdp, init)
            else if Has(f.au.nals, IDR) then [Stamped(f.encoded.value, f.au)]
            else if Groups(sdp, init) == [] then []
            else Groups(sdp, init) + [Stamped(f.encoded.value, f.au)]
  {
  }

  lemma GopStep(c: Core, f: Feed)
    ensures Consumed(c, f).gop
         == if ToEncoder(c, f.au).None? || f.encoded.None? then c.gop
            else Recached(c.gop, Stamped(f.encoded.value, f.au), Has(f.au.nals, IDR))
  {
  }

  lemma ShapeOfOne(group: seq<CachedPacket>)
    ensures CacheShape([group], [true], group)
  {
  }

  /** Without condition: the cache is made of the units encoded since the last IDR that the
      encoder accepted. */
  lemma {:induction false} GopCacheShape(sdp: Option<Sdp>, feeds: seq<Feed>) returns (kept: seq<bool>)
    ensures CacheShape(Groups(sdp, feeds), kept, After(sdp, feeds).gop)
  {
    kept := [];
    if feeds != [] {
      var init, f := feeds[..|feeds| - 1], feeds[|feeds| - 1];
      assert feeds == init + [f];
      kept := GopCacheShape(sdp, init);
      AfterAppend(sdp, init, f);
      GopStep(After(sdp, init), f);
      GroupsAppend(sdp, init, f);
      if ToEncoder(After(sdp, init), f.au).Some? && f.encoded.Some? {
        var group := Stamped(f.encoded.value, f.au);
        if Has(f.au.nals, IDR) {
          kept := [true];
          ShapeOfOne(group);
        } else if Groups(sdp, init) != [] {
          kept := ShapeKept(Groups(sdp, init), kept, After(sdp, init).gop, group);
        }
      }
    }
  }

  /** Which units reached the encoder. */
  function Given(sdp: Option<Sdp>, feeds: seq<Feed>): (given: seq<bool>)
    ensures |given| == |feeds|
  {
    if feeds == [] then []
    else
      var init, f := feeds[..|feeds| - 1], feeds[|feeds| - 1];
      Given(sdp, init) + [ToEncoder(After(sdp, init), f.au).Some?]
  }

  lemma {:induction false} GivenAt(sdp: Option<Sdp>, feeds: seq<Feed>, k: nat)
    requires k < |feeds|
    ensures Given(sdp, feeds)[k] <==> ToEncoder(After(sdp, feeds[..k]), feeds[k].au).Some?
  {
    hide ToEncoder, After;
    var n := |feeds| - 1;
    if k < n {
      GivenAt(sdp, feeds[..n], k);
      assert feeds[..n][..k] == feeds[..k];
    }
  }

  /** The last IDR among the first `n` units that reached the encoder, or -1. */
  function LatestIDR(feeds: seq<Feed>, given: seq<bool>, n: nat): (l: int)
    requires n <= |feeds| == |given|
    ensures -1 <= l < n
    ensures l >= 0 ==> given[l] && Has(feeds[l].au.nals, IDR)
    ensures forall k | l < k < n && given[k] :: !Has(feeds[k].au.nals, IDR)
  {
    if n == 0 then -1
    else if given[n - 1] && Has(feeds[n - 1].au.nals, IDR) then n - 1
    else LatestIDR(feeds, given, n - 1)
  }

  /** Which of the first `n` units were encoded since the last IDR that was, that one first. */
  function Cached(feeds: seq<Feed>, given: seq<bool>, n: nat): (c: seq<nat>)
    requires n <= |feeds| == |given|
    ensures forall i | 0 <= i < |c| :: c[i] < n
  {
    if n == 0 then []
    else
      var c := Cached(feeds, given, n - 1);
      if !given[n - 1] || feeds[n - 1].encoded.None? then c
      else if Has(feeds[n - 1].au.nals, IDR) then [n - 1]
      else if c == [] then []
      else c + [n - 1]
  }

  predicate Ascending(xs: seq<nat>) {
    forall i, j | 0 <= i < j < |xs| :: xs[i] < xs[j]
  }

  /** The cached units are in stream order and start with an IDR that was encoded. That IDR is
      the latest one given to the encoder if and only if the encoder accepted the latest one;
      otherwise it is an earlier one, and the cache is stale. */
  lemma {:induction false} CurrentGopExactly(feeds: seq<Feed>, given: seq<bool>, n: nat)
    requires n <= |feeds| == |given|
    ensures var c, l := Cached(feeds, given, n), LatestIDR(feeds, given, n);
            && Ascending(c)
            && (c != [] ==> Has(feeds[c[0]].au.nals, IDR) && feeds[c[0]].encoded.Some? && c[0] <= l)
            && (l >= 0 ==> ((c != [] && c[0] == l) <==> feeds[l].encoded.Some?))
  {
    if n > 0 { CurrentGopExactly(feeds, given, n - 1); }
  }

  /** The packets of unit `n`, if it was encoded. */
  function PacketsOf(feeds: seq<Feed>, n: nat): seq<CachedPacket>
    requires n < |feeds|
  {
    if feeds[n].encoded.Some? then Stamped(feeds[n].encoded.value, feeds[n].au) else []
  }

  /** The group is the payloads, in order, each with the low 32 bits of the unit's presentation
      time and its capture time. */
  predicate Carries(group: seq<CachedPacket>, payloads: seq<seq<Byte>>, au: AccessUnit) {
    && |group| == |payloads|
    && forall i | 0 <= i < |group| ::
         && group[i].pkt.payload == payloads[i]
         && group[i].pkt.timestamp == au.pts % 0x1_0000_0000
         && group[i].ntp == au.ntp
  }

  /** What the cache consists of: unit by unit over the kept ones, what the encoder made of the
      unit, in order, with the unit's times. */
  lemma CachedPackets(sdp: Option<Sdp>, feeds: seq<Feed>) returns (groups: seq<seq<CachedPacket>>, kept: seq<bool>)
    ensures var c := Cached(feeds, Given(sdp, feeds), |feeds|);
            && |groups| == |kept| == |c| && After(sdp, feeds).gop == Selected(groups, kept)
            && forall i | 0 <= i < |c| ::
                 feeds[c[i]].encoded.Some? && Carries(groups[i], feeds[c[i]].encoded.value, feeds[c[i]].au)
  {
    hide After, Given, Cached, Groups, Selected;
    groups := Groups(sdp, feeds);
    assert feeds[..|feeds|] == feeds;
    GroupsAreCached(sdp, feeds, |feeds|);
    CachedEncoded(feeds, Given(sdp, feeds), |feeds|);
    kept := GopCacheShape(sdp, feeds);
  }

  lemma {:induction false} CachedEncoded(feeds: seq<Feed>, given: seq<bool>, n: nat)
    requires n <= |feeds| == |given|
    ensures forall i <- Cached(feeds, given, n) :: given[i] && feeds[i].encoded.Some?
  {
    if n > 0 { CachedEncoded(feeds, given, n - 1); }
  }

  /** The NAL types by number: an IDR slice is 5, SPS is 7 and PPS is 8, in the low five bits
      of the first byte; empty NALs have none. */
  lemma NalTypes(nal: Nal)
    ensures IsType(nal, IDR) <==> nal != [] && nal[0] % 32 == 5
    ensures IsType(nal, SPS) <==> nal != [] && nal[0] % 32 == 7
    ensures IsType(nal, PPS) <==> nal != [] && nal[0] % 32 == 8
  {
  }

  ghost predicate PacketsOfEach(groups: seq<seq<CachedPacket>>, feeds: seq<Feed>, c: seq<nat>) {
    |groups| == |c| && forall i | 0 <= i < |c| :: c[i] < |feeds| && groups[i] == PacketsOf(feeds, c[i])
  }

  lemma CachedStep(feeds: seq<Feed>, given: seq<bool>, n: nat, groups: seq<seq<CachedPacket>>)
    requires n < |feeds| == |given| && PacketsOfEach(groups, feeds, Cached(feeds, given, n))
    ensures var groups' := if !given[n] || feeds[n].encoded.None? then groups
                           else if Has(feeds[n].au.nals, IDR) then [PacketsOf(feeds, n)]
                           else if groups == [] then []
                           else groups + [PacketsOf(feeds, n)];
            PacketsOfEach(groups', feeds, Cached(feeds, given, n + 1))
  {
  }

  lemma NothingCached(sdp: Option<Sdp>, feeds: seq<Feed>)
    ensures PacketsOfEach(Groups(sdp, feeds[..0]), feeds, Cached(feeds, Given(sdp, feeds), 0))
  {
  }

  /** The groups of `GopCacheShape` are the packets of the cached units, one by one. */
  lemma {:induction false} GroupsAreCached(sdp: Option<Sdp>, feeds: seq<Feed>, n: nat)
    requires n <= |feeds|
    ensures PacketsOfEach(Groups(sdp, feeds[..n]), feeds, Cached(feeds, Given(sdp, feeds), n))
  {
    hide After, ToEncoder, Stamped, Has, Given, Cached, Groups, PacketsOfEach;
    if n == 0 {
      NothingCached(sdp, feeds);
    } else {
      GroupsAreCached(sdp, feeds, n - 1);
      GivenAt(sdp, feeds, n - 1);
      CachedStep(feeds, Given(sdp, feeds), n - 1, Groups(sdp, feeds[..n - 1]));
      assert feeds[..n] == feeds[..n - 1] + [feeds[n - 1]];
      GroupsAppend(sdp, feeds[..n - 1], feeds[n - 1]);
    }
  }

  /** Freshness of the cache, exactly. It holds nothing from before the latest IDR given to
      the encoder if and only if that IDR was encoded or no IDR has been; and its packets start
      with those of the first cached unit, so with the latest IDR's if that one was encoded,
      and with those of an earlier IDR if not. */
  lemma CurrentGopOnly(sdp: Option<Sdp>, feeds: seq<Feed>)
    ensures var c, l := Cached(feeds, Given(sdp, feeds), |feeds|), LatestIDR(feeds, Given(sdp, feeds), |feeds|);
            && ((forall i <- c :: l <= i) <==> c == [] || (l >= 0 && feeds[l].encoded.Some?))
            && (c == [] ==> After(sdp, feeds).gop == [])
            && (c != [] ==> PacketsOf(feeds, c[0]) <= After(sdp, feeds).gop)
            && (c != [] ==> if feeds[l].encoded.Some? then c[0] == l else c[0] < l)
  {
    hide After, Given, Cached, LatestIDR, Groups;
    var c := Cached(feeds, Given(sdp, feeds), |feeds|);
    CurrentGopExactly(feeds, Given(sdp, feeds), |feeds|);
    assert feeds[..|feeds|] == feeds;
    GroupsAreCached(sdp, feeds, |feeds|);
    var kept := GopCacheShape(sdp, feeds);
    if c != [] { assert c[0] in c; }
  }

  /** The stale case exists for any stream whose gate is open: after an IDR that is encoded
      and one that is not, the cache holds exactly the earlier one. */
  lemma FailedIDRLeavesStale(sdp: Option<Sdp>, feeds: seq<Feed>, idr: Feed, failed: Feed)
    requires After(sdp, feeds).ready
    requires Has(idr.au.nals, IDR) && idr.encoded.Some? && Has(failed.au.nals, IDR) && failed.encoded.None?
    ensures var all, n := feeds + [idr] + [failed], |feeds|;
            && Cached(all, Given(sdp, all), n + 2) == [n] && LatestIDR(all, Given(sdp, all), n + 2) == n + 1
            && After(sdp, all).gop == Stamped(idr.encoded.value, idr.au)
  {
    hide After, ToEncoder, Given, Cached, LatestIDR;
    var a, n := feeds + [idr], |feeds|;
    var all := a + [failed];
    OpenStep(sdp, feeds, idr);
    OpenStep(sdp, a, failed);
    assert all[..n] == feeds && all[..n + 1] == a && all[n] == idr && all[n + 1] == failed;
    GivenAt(sdp, all, n);
    GivenAt(sdp, all, n + 1);
    LastTwo(all, Given(sdp, all), n);
  }

  /** Behind an open gate the unit reaches the encoder and the gate stays open. */
  lemma OpenStep(sdp: Option<Sdp>, feeds: seq<Feed>, f: Feed)
    requires After(sdp, feeds).ready
    ensures ToEncoder(After(sdp, feeds), f.au).Some? && After(sdp, feeds + [f]).ready
    ensures f.encoded.None? ==> After(sdp, feeds + [f]).gop == After(sdp, feeds).gop
    ensures f.encoded.Some? && Has(f.au.nals, IDR) ==>
              After(sdp, feeds + [f]).gop == Stamped(f.encoded.value, f.au)
  {
    hide After;
    AfterAppend(sdp, feeds, f);
    GopStep(After(sdp, feeds), f);
  }

  lemma LastTwo(feeds: seq<Feed>, given: seq<bool>, n: nat)
    requires n + 1 < |feeds| == |given| && given[n] && given[n + 1]
    requires Has(feeds[n].au.nals, IDR) && feeds[n].encoded.Some?
    requires Has(feeds[n + 1].au.nals, IDR) && feeds[n + 1].encoded.None?
    ensures Cached(feeds, given, n + 2) == [n] && LatestIDR(feeds, given, n + 2) == n + 1
  {
    assert Cached(feeds, given, n + 1) == [n];
  }

  // ---------- the bounded channel -----------------------------------------------------

  datatype Input = Push(au: AccessUnit) | Close | Receive

  datatype Channel = Channel(queue: seq<AccessUnit>, closed: bool)

  function Offer(ch: Channel, i: Input): Channel {
    match i
    case Push(au) => if !ch.closed && |ch.queue| < LIVE_BUFFER_SIZE then ch.(queue := ch.queue + [au]) else ch
    case Close => ch.(closed := true)
    case Receive => if ch.queue == [] then ch else ch.(queue := ch.queue[1..])
  }

  function Channels(inputs: seq<Input>): Channel {
    if inputs == [] then Channel([], false) else Offer(Channels(inputs[..|inputs| - 1]), inputs[|inputs| - 1])
  }

  /** The units received so far, in order. */
  function Received(inputs: seq<Input>): seq<AccessUnit> {
    if inputs == [] then []
    else
      var init := inputs[..|inputs| - 1];
      if inputs[|inputs| - 1].Receive? && Channels(init).queue != [] then Received(init) + [Channels(init).queue[0]]
      else Received(init)
  }

  /** The units pushed before the first Close, when fewer than 32 were waiting. */
  function Taken(inputs: seq<Input>): seq<AccessUnit> {
    if inputs == [] then []
    else
      var init, last := inputs[..|inputs| - 1], inputs[|inputs| - 1];
      if last.Push? && Close !in init && |Taken(init)| - |Received(init)| < LIVE_BUFFER_SIZE
      then Taken(init) + [last.au]
      else Taken(init)
  }

  /** A unit is dropped exactly when the channel is closed or 32 units wait. */
  lemma PushDropsExactly(ch: Channel, au: AccessUnit)
    ensures Offer(ch, Push(au)) ==
              if ch.closed || |ch.queue| >= 32 then ch else Channel(ch.queue + [au], false)
  {
  }

  /** The channel is first in, first out: what was received followed by what still waits is
      exactly what was taken in, and never more than 32 units wait. */
  lemma {:induction false} ChannelFifo(inputs: seq<Input>)
    ensures Taken(inputs) == Received(inputs) + Channels(inputs).queue
    ensures |Channels(inputs).queue| <= LIVE_BUFFER_SIZE
    ensures Channels(inputs).closed <==> Close in inputs
  {
    if inputs != [] {
      var init, last := inputs[..|inputs| - 1], inputs[|inputs| - 1];
      assert inputs == init + [last];
      ChannelFifo(init);
    }
  }
}
