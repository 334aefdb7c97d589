/** internal/auth/nonce_cache.go: the nonces seen within a time window, with a cap on
    their number. Times and durations are nanoseconds. */
module NonceCaches {
  import opened Sets

  const FIVE_MINUTES := 300_000_000_000
  const MAX_SIZE := 4096

  type Seen = map<string, int>

  /** What is left once entries older than the window are dropped. */
  function Pruned(seen: Seen, now: int, ttl: int): Seen {
    map k <- seen | seen[k] >= now - ttl :: seen[k]
  }

  predicate Oldest(seen: Seen, key: string) {
    key in seen && forall k <- seen :: seen[key] <= seen[k]
  }

  /** An order in which the entries of the map may be visited. */
  ghost predicate Visits(seen: Seen, order: seq<string>) {
    && (forall k :: k in order <==> k in seen)
    && forall i, j | 0 <= i < j < |order| :: order[i] != order[j]
  }

  /** The scan for the oldest entry. The empty key stands for "none yet". */
  function Scan(seen: Seen, order: seq<string>): (key: string)
    requires forall k <- order :: k in seen
    ensures key == "" || key in order
  {
    if order == [] then ""
    else
      var best, k := Scan(seen, order[..|order| - 1]), order[|order| - 1];
      if best == "" || seen[k] < seen[best] then k else best
  }

  /** The scan goes astray: the empty key is in the map, not alone, and strictly the oldest. */
  predicate Astray(seen: Seen) {
    "" in seen && |seen| > 1 && forall k <- seen :: k != "" ==> seen[""] < seen[k]
  }

  /** The entries that may be given up for a new one at the cap. */
  predicate Victim(seen: Seen, key: string) {
    key in seen && (Astray(seen) || (Oldest(seen, key) && (key != "" || |seen| == 1)))
  }

  /** What one call of Add may do. */
  ghost predicate Added(before: Seen, key: string, now: int, ttl: int, maxSize: nat, ok: bool, after: Seen) {
    var p := Pruned(before, now, ttl);
    if key in p then !ok && after == p
    else
      && ok
      && if |p| < maxSize then after == p[key := now]
         else exists victim :: Victim(p, victim) && after == (p - {victim})[key := now]
  }

  class NonceCache {
    const ttl: int
    const maxSize: nat
    var seen: Seen

    constructor (ttl: int)
      ensures this.ttl == (if ttl > 0 then ttl else 300_000_000_000) && maxSize == 4096 && seen == map[]
    {
      this.ttl := if ttl <= 0 then FIVE_MINUTES else ttl;
      maxSize := MAX_SIZE;
      seen := map[];
    }

    method Prune(now: int)
      modifies this`seen
      ensures seen == Pruned(old(seen), now, ttl)
    {
      var todo := seen.Keys;
      while todo != {}
        invariant todo <= seen.Keys <= old(seen).Keys
        invariant forall k <- seen :: seen[k] == old(seen)[k]
        invariant forall k <- old(seen) :: k in seen <==> k in todo || old(seen)[k] >= now - ttl
        decreases |todo|
      {
        var k :| k in todo;
        if seen[k] < now - ttl {
          seen := seen - {k};
        }
        todo := todo - {k};
      }
    }

    /** The scan for the oldest entry, in whatever order the map is visited. */
    method FindOldest() returns (key: string)
      requires seen != map[]
      ensures exists order :: Visits(seen, order) && key == Scan(seen, order)
      ensures Victim(seen, key)
    {
      var oldestKey, oldestAt := "", 0;
      var todo := seen.Keys;
      ghost var order: seq<string> := [];
      while todo != {}
        invariant todo <= seen.Keys
        invariant forall k :: k in order <==> k in seen && k !in todo
        invariant forall i, j | 0 <= i < j < |order| :: order[i] != order[j]
        invariant oldestKey == Scan(seen, order)
        invariant oldestKey != "" ==> oldestAt == seen[oldestKey]
        decreases |todo|
      {
        var k :| k in todo;
        assert (order + [k])[..|order|] == order;
        if oldestKey == "" || seen[k] < oldestAt {
          oldestKey, oldestAt := k, seen[k];
        }
        order := order + [k];
        todo := todo - {k};
      }
      key := oldestKey;
      ScanFindsVictim(seen, order);
    }

    method Add(key: string, now: int) returns (ok: bool)
      requires maxSize > 0
      modifies this`seen
      ensures Added(old(seen), key, now, ttl, maxSize, ok, seen)
    {
      Prune(now);
      if key in seen {
        return false;
      }
      if |seen| >= maxSize {
        var oldest := FindOldest();
        seen := seen - {oldest};
      }
      seen := seen[key := now];
      ok := true;
    }
  }

  // ---------- the scan for the oldest entry --------------------------------------------

  /** What the scan knows after visiting `order`: no entry visited is older than `best`,
      unless the empty key came in between; and the empty key is the answer only if it came
      last and everything else is younger. */
  predicate ScanInv(seen: Seen, order: seq<string>, best: string)
    requires forall k <- order :: k in seen
  {
    if best == "" then
      order == [] || (order[|order| - 1] == "" && forall k <- order :: k != "" ==> seen[""] < seen[k])
    else
      best in order &&
      forall k <- order :: k == "" || seen[best] <= seen[k] || ("" in order && seen[""] < seen[k])
  }

  lemma {:induction false} ScanKnows(seen: Seen, order: seq<string>)
    requires forall k <- order :: k in seen
    requires forall i, j | 0 <= i < j < |order| :: order[i] != order[j]
    ensures ScanInv(seen, order, Scan(seen, order))
  {
    if order != [] {
      var init, k := order[..|order| - 1], order[|order| - 1];
      ScanKnows(seen, init);
      assert order == init + [k];
      ScanInvStep(seen, init, Scan(seen, init), k);
    }
  }

  lemma ScanInvStep(seen: Seen, init: seq<string>, best: string, k: string)
    requires (forall x <- init :: x in seen) && k in seen && k !in init
    requires ScanInv(seen, init, best)
    ensures ScanInv(seen, init + [k], if best == "" || seen[k] < seen[best] then k else best)
  {
  }

  /** Whatever the order, the scan finds a victim. */
  lemma ScanFindsVictim(seen: Seen, order: seq<string>)
    requires Visits(seen, order) && seen != map[]
    ensures Victim(seen, Scan(seen, order))
  {
    hide Scan;
    var best := Scan(seen, order);
    ScanKnows(seen, order);
    assert order != [] by { var k :| k in seen; assert k in order; }
    SizeWithout(seen.Keys, "");
    if best == "" {
      assert order[|order| - 1] in order;
    } else if !Astray(seen) && "" in seen {
      SizeWithout(seen.Keys - {""}, best);
      NotAstrayBest(seen, order, best);
    }
  }

  lemma NotAstrayBest(seen: Seen, order: seq<string>, best: string)
    requires Visits(seen, order) && ScanInv(seen, order, best) && best != ""
    requires "" in seen && |seen| > 1 && !Astray(seen)
    ensures Oldest(seen, best)
  {
    var k :| k in seen && k != "" && seen[k] <= seen[""];
    assert seen[best] <= seen[k];
  }

  lemma {:induction false} SomeOrder(keys: set<string>) returns (order: seq<string>)
    ensures forall k :: k in order <==> k in keys
    ensures forall i, j | 0 <= i < j < |order| :: order[i] != order[j]
  {
    order := [];
    if keys != {} {
      var k :| k in keys;
      var rest := SomeOrder(keys - {k});
      order := rest + [k];
    }
  }

  /** A first entry that nothing beats wins. */
  lemma {:induction false} FirstStays(seen: Seen, key: string, order: seq<string>)
    requires key in seen && key != "" && forall k <- order :: k in seen && seen[key] <= seen[k]
    ensures Scan(seen, [key] + order) == key
  {
    if order == [] {
      assert [key] + order == [key] && [key][..0] == [];
    } else {
      var all := [key] + order;
      assert all[..|all| - 1] == [key] + order[..|order| - 1] && all[|all| - 1] == order[|order| - 1];
      FirstStays(seen, key, order[..|order| - 1]);
    }
  }

  /** Every victim is found by some order, so `Victim` says exactly which entries may go. */
  lemma EveryVictimMayGo(seen: Seen, key: string) returns (order: seq<string>)
    requires Victim(seen, key)
    ensures Visits(seen, order) && Scan(seen, order) == key
  {
    if Astray(seen) {
      order := AnyEntryAstray(seen, key);
    } else if key == "" {
      order := [""];
      SizeWithout(seen.Keys, "");
      assert forall k <- seen :: k != "" ==> k in seen.Keys - {""};
      assert order[..0] == [];
    } else {
      var rest := SomeOrder(seen.Keys - {key});
      order := [key] + rest;
      FirstStays(seen, key, rest);
    }
  }

  /** Astray, the others are visited first, then the empty key, and then `key`. */
  lemma AnyEntryAstray(seen: Seen, key: string) returns (order: seq<string>)
    requires Astray(seen) && key in seen
    ensures Visits(seen, order) && Scan(seen, order) == key
  {
    hide Scan, Visits;
    var before := SomeOrder(seen.Keys - {key} - {""});
    var after := if key == "" then [] else [key];
    order := before + [""] + after;
    VisitsAll(seen, key, before, after);
    EmptyKeyForgets(seen, before, after);
  }

  lemma VisitsAll(seen: Seen, key: string, before: seq<string>, after: seq<string>)
    requires "" in seen && key in seen && after == if key == "" then [] else [key]
    requires forall k :: k in before <==> k in seen && k != key && k != ""
    requires forall i, j | 0 <= i < j < |before| :: before[i] != before[j]
    ensures Visits(seen, before + [""] + after)
  {
    var order := before + [""] + after;
    forall i, j | 0 <= i < j < |order| ensures order[i] != order[j] {
      assert i < |before| ==> order[i] == before[i] && before[i] in before;
      assert j < |before| ==> order[j] == before[j];
    }
  }

  /** After the empty key the scan starts afresh. */
  lemma EmptyKeyForgets(seen: Seen, before: seq<string>, after: seq<string>)
    requires |after| <= 1 && (forall k <- before + after :: k in seen && k != "")
    requires "" in seen && forall k <- before :: seen[""] < seen[k]
    ensures Scan(seen, before + [""]) == ""
    ensures Scan(seen, before + [""] + after) == if after == [] then "" else after[0]
  {
    var all := before + [""];
    assert all[..|before|] == before && all + [] == all;
    if after != [] { assert (all + after)[..|all|] == all; }
  }

  /** Astray, visiting the empty key first gives up an entry that is not the oldest. */
  lemma EmptyKeyFirst(seen: Seen, order: seq<string>)
    requires Astray(seen) && Visits(seen, order) && order[0] == ""
    ensures !Oldest(seen, Scan(seen, order))
  {
    ScanKnows(seen, order);
    SizeWithout(seen.Keys, "");
    var k :| k in seen.Keys - {""};
    assert k in order;
  }

  /** The scan always finds an oldest entry, whatever the order, if and only if the map is
      not such that it goes astray. */
  lemma OldestExactly(seen: Seen)
    requires seen != map[]
    ensures (forall order | Visits(seen, order) :: Oldest(seen, Scan(seen, order))) <==> !Astray(seen)
  {
    forall order | Visits(seen, order) && !Astray(seen) ensures Oldest(seen, Scan(seen, order)) {
      ScanFindsVictim(seen, order);
    }
    if Astray(seen) {
      var rest := SomeOrder(seen.Keys - {""});
      var order := [""] + rest;
      assert Visits(seen, order);
      EmptyKeyFirst(seen, order);
    }
  }

  // ---------- runs of Add ------------------------------------------------------------

  datatype Call = Call(key: string, now: int, ok: bool)

  ghost predicate IsRun(states: seq<Seen>, calls: seq<Call>, ttl: int, maxSize: nat) {
    && |states| == |calls| + 1
    && states[0] == map[]
    && forall i | 0 <= i < |calls| ::
         Added(states[i], calls[i].key, calls[i].now, ttl, maxSize, calls[i].ok, states[i + 1])
  }

  predicate Monotone(calls: seq<Call>) {
    forall i, j | 0 <= i < j < |calls| :: calls[i].now <= calls[j].now
  }

  /** The cap was never in the way. */
  predicate BelowCap(states: seq<Seen>, calls: seq<Call>, ttl: int, maxSize: nat)
    requires |states| == |calls| + 1
  {
    forall i | 0 <= i < |calls| :: |Pruned(states[i], calls[i].now, ttl)| < maxSize
  }

  lemma SizeAfterInsert(seen: Seen, key: string, now: int)
    ensures |seen[key := now]| <= |seen| + 1
  {
  }

  lemma SizeAfterRemove(seen: Seen, key: string)
    requires key in seen
    ensures |seen - {key}| == |seen| - 1
  {
  }

  lemma SizeStep(before: Seen, key: string, now: int, ttl: int, maxSize: nat, ok: bool, after: Seen)
    requires Added(before, key, now, ttl, maxSize, ok, after) && |before| <= maxSize && maxSize > 0
    ensures |after| <= maxSize
  {
    var p := Pruned(before, now, ttl);
    SubsetSize(p.Keys, before.Keys);
    assert |p| == |p.Keys| && |before| == |before.Keys|;
    if key !in p {
      if |p| < maxSize {
        SizeAfterInsert(p, key, now);
      } else {
        var victim :| Victim(p, victim) && after == (p - {victim})[key := now];
        SizeAfterRemove(p, victim);
        SizeAfterInsert(p - {victim}, key, now);
      }
    }
  }

  /** The cache never holds more than its cap, in any run and for any keys. */
  lemma {:induction false} SizeBounded(states: seq<Seen>, calls: seq<Call>, ttl: int, maxSize: nat, i: nat)
    requires IsRun(states, calls, ttl, maxSize) && maxSize > 0 && i <= |calls|
    ensures |states[i]| <= maxSize
  {
    if i > 0 {
      SizeBounded(states, calls, ttl, maxSize, i - 1);
      var c := calls[i - 1];
      SizeStep(states[i - 1], c.key, c.now, ttl, maxSize, c.ok, states[i]);
    }
  }

  /** Every entry was put there by a successful Add at the time it carries. */
  lemma {:induction false} EntriesWereAdded(
    states: seq<Seen>, calls: seq<Call>, ttl: int, maxSize: nat, i: nat, key: string) returns (j: nat)
    requires IsRun(states, calls, ttl, maxSize) && i <= |calls| && key in states[i]
    ensures j < i && calls[j].ok && calls[j].key == key && calls[j].now == states[i][key]
  {
    var c := calls[i - 1];
    assert Added(states[i - 1], c.key, c.now, ttl, maxSize, c.ok, states[i]);
    if c.ok && c.key == key {
      j := i - 1;
    } else {
      j := EntriesWereAdded(states, calls, ttl, maxSize, i - 1, key);
    }
  }

  /** The step from `before` to `after` gave up the entry of `key` although it was still
      within the window. */
  predicate Evicts(before: Seen, now: int, ttl: int, after: Seen, key: string) {
    key in Pruned(before, now, ttl) && key !in after
  }

  /** An entry stays until it leaves the window or is evicted. */
  lemma {:induction false} EntryStays(
    states: seq<Seen>, calls: seq<Call>, ttl: int, maxSize: nat, i: nat, j: nat)
    requires IsRun(states, calls, ttl, maxSize) && Monotone(calls)
    requires i < j <= |calls| && calls[i].ok && calls[j - 1].now - ttl <= calls[i].now
    requires forall k | i < k < j :: !Evicts(states[k], calls[k].now, ttl, states[k + 1], calls[i].key)
    ensures calls[i].key in states[j] && states[j][calls[i].key] == calls[i].now
  {
    var c := calls[j - 1];
    assert Added(states[j - 1], c.key, c.now, ttl, maxSize, c.ok, states[j]);
    if i < j - 1 {
      EntryStays(states, calls, ttl, maxSize, i, j - 1);
    }
  }

  lemma NoEvictionBelowCap(states: seq<Seen>, calls: seq<Call>, ttl: int, maxSize: nat, k: nat, key: string)
    requires IsRun(states, calls, ttl, maxSize) && BelowCap(states, calls, ttl, maxSize) && k < |calls|
    ensures !Evicts(states[k], calls[k].now, ttl, states[k + 1], key)
  {
  }

  /** Add refuses a key exactly when there was a successful Add of it within the last
      `ttl`, as long as the cap is not reached. */
  lemma AddDecides(states: seq<Seen>, calls: seq<Call>, ttl: int, maxSize: nat, i: nat)
    requires IsRun(states, calls, ttl, maxSize) && Monotone(calls) && i < |calls|
    requires ttl >= 0 && BelowCap(states, calls, ttl, maxSize)
    ensures !calls[i].ok <==>
            exists j | 0 <= j < i :: calls[j].ok && calls[j].key == calls[i].key && calls[j].now >= calls[i].now - ttl
  {
    var c := calls[i];
    assert Added(states[i], c.key, c.now, ttl, maxSize, c.ok, states[i + 1]);
    if !c.ok {
      var j := EntriesWereAdded(states, calls, ttl, maxSize, i, c.key);
    }
    forall j | 0 <= j < i && calls[j].ok && calls[j].key == c.key && calls[j].now >= c.now - ttl ensures !c.ok {
      forall k | j < k < i ensures !Evicts(states[k], calls[k].now, ttl, states[k + 1], c.key) {
        NoEvictionBelowCap(states, calls, ttl, maxSize, k, c.key);
      }
      EntryStays(states, calls, ttl, maxSize, j, i);
    }
  }
}
