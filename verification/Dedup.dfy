/** internal/discovery/dedup.go: merging signatures that normalized to one operation. */
module Deduplication {
  import opened Model
  import opened NoiseFiltering

  datatype DedupKey = DedupKey(httpMethod: string, resourcePath: string, serverPort: int, agentId: int)

  function KeyOf(sig: APISignature): DedupKey {
    DedupKey(sig.httpMethod, sig.resourcePath, sig.serverPort, sig.agentId)
  }

  /** A further signature of a group: hits add up; its samples replace the old ones when it has more
      hits than the group had before it. */
  function MergeInto(existing: APISignature, sig: APISignature): APISignature {
    var total := existing.hitCount + sig.hitCount;
    if sig.hitCount > total - sig.hitCount
    then existing.(hitCount := total, sampleURL := sig.sampleURL, samplePath := sig.samplePath,
                   startTime := sig.startTime, requestDomain := sig.requestDomain)
    else existing.(hitCount := total)
  }

  function IndexOf(records: seq<APISignature>, key: DedupKey): (i: nat)
    ensures i <= |records|
    ensures i < |records| ==> KeyOf(records[i]) == key
    ensures forall j :: 0 <= j < i ==> KeyOf(records[j]) != key
  {
    if records == [] then 0
    else if KeyOf(records[0]) == key then 0
    else 1 + IndexOf(records[1..], key)
  }

  /** The same without a map: each signature is merged into the record of its key, or appended. */
  function DedupOf(sigs: seq<APISignature>): seq<APISignature> {
    if sigs == [] then []
    else
      var before, sig := DedupOf(sigs[..|sigs| - 1]), sigs[|sigs| - 1];
      var i := IndexOf(before, KeyOf(sig));
      if i < |before| then before[i := MergeInto(before[i], sig)] else before + [sig]
  }

  /** The map and the key order hold these records; pos says at which place each key stands. */
  predicate Mirrors(groups: map<DedupKey, APISignature>, order: seq<DedupKey>, pos: map<DedupKey, nat>,
                    records: seq<APISignature>) {
    && |order| == |records| && groups.Keys == pos.Keys
    && (forall i :: 0 <= i < |order| ==> order[i] in pos && pos[order[i]] == i)
    && (forall i :: 0 <= i < |order| ==> KeyOf(records[i]) == order[i])
    && (forall key :: key in groups ==> pos[key] < |order| && order[pos[key]] == key && groups[key] == records[pos[key]])
  }

  lemma MirrorsFind(groups: map<DedupKey, APISignature>, order: seq<DedupKey>, pos: map<DedupKey, nat>,
                    records: seq<APISignature>, key: DedupKey)
    requires Mirrors(groups, order, pos, records)
    ensures IndexOf(records, key) == if key in groups then pos[key] else |records|
    ensures key in groups ==> pos[key] < |records| && groups[key] == records[pos[key]] && KeyOf(groups[key]) == key
  {
    assert key in groups ==> KeyOf(records[pos[key]]) == key;
    var i := IndexOf(records, key);
    assert i < |records| ==> order[i] == key;
  }

  lemma MirrorsMerge(groups: map<DedupKey, APISignature>, order: seq<DedupKey>, pos: map<DedupKey, nat>,
                     records: seq<APISignature>, merged: APISignature)
    requires Mirrors(groups, order, pos, records) && KeyOf(merged) in groups
    ensures pos[KeyOf(merged)] < |records|
    ensures Mirrors(groups[KeyOf(merged) := merged], order, pos, records[pos[KeyOf(merged)] := merged])
  {
  }

  lemma MirrorsAppend(groups: map<DedupKey, APISignature>, order: seq<DedupKey>, pos: map<DedupKey, nat>,
                      records: seq<APISignature>, sig: APISignature)
    requires Mirrors(groups, order, pos, records) && KeyOf(sig) !in groups
    ensures Mirrors(groups[KeyOf(sig) := sig], order + [KeyOf(sig)], pos[KeyOf(sig) := |order|], records + [sig])
  {
  }

  lemma DedupSnoc(sigs: seq<APISignature>, sig: APISignature)
    ensures DedupOf(sigs + [sig]) ==
      var before := DedupOf(sigs);
      var i := IndexOf(before, KeyOf(sig));
      if i < |before| then before[i := MergeInto(before[i], sig)] else before + [sig]
  {
    assert (sigs + [sig])[..|sigs|] == sigs;
  }

  /** The body of the loop for a key that has a record: an update of that record in place. */
  method AddTo(record: APISignature, sig: APISignature) returns (existing: APISignature)
    ensures existing == MergeInto(record, sig) && KeyOf(existing) == KeyOf(record)
  {
    existing := record.(hitCount := record.hitCount + sig.hitCount);
    if sig.hitCount > existing.hitCount - sig.hitCount {
      existing := existing.(sampleURL := sig.sampleURL, samplePath := sig.samplePath,
                            startTime := sig.startTime, requestDomain := sig.requestDomain);
    }
  }

  method Dedup(signatures: seq<APISignature>) returns (result: seq<APISignature>)
    ensures result == DedupOf(signatures)
  {
    var groups: map<DedupKey, APISignature> := map[];
    var order: seq<DedupKey> := [];
    ghost var pos: map<DedupKey, nat> := map[];
    for i := 0 to |signatures|
      invariant Mirrors(groups, order, pos, DedupOf(signatures[..i]))
    {
      var sig := signatures[i];
      var key := KeyOf(sig);
      ghost var before := DedupOf(signatures[..i]);
      assert signatures[..i + 1] == signatures[..i] + [sig];
      DedupSnoc(signatures[..i], sig);
      MirrorsFind(groups, order, pos, before, key);
      hide DedupOf, Mirrors, IndexOf;
      if key in groups {
        var existing := AddTo(groups[key], sig);
        hide MergeInto, KeyOf;
        MirrorsMerge(groups, order, pos, before, existing);
        groups := groups[key := existing];
      } else {
        hide MergeInto, KeyOf;
        MirrorsAppend(groups, order, pos, before, sig);
        pos := pos[key := |order|];
        groups := groups[key := sig];
        order := order + [key];
      }
    }
    assert signatures[..|signatures|] == signatures;
    result := Collect(groups, order, pos, DedupOf(signatures));
  }

  /** The last loop: the groups in first-seen order. */
  method Collect(groups: map<DedupKey, APISignature>, order: seq<DedupKey>, ghost pos: map<DedupKey, nat>,
                 ghost records: seq<APISignature>) returns (result: seq<APISignature>)
    requires Mirrors(groups, order, pos, records)
    ensures result == records
  {
    hide KeyOf;
    result := [];
    for i := 0 to |order|
      invariant result == records[..i]
    {
      assert groups[order[i]] == records[i];
      result := result + [groups[order[i]]];
    }
  }

  // ---------- What a record stands for ----------

  /** The signatures with a given key, in order. */
  function GroupOf(sigs: seq<APISignature>, key: DedupKey): seq<APISignature> {
    if sigs == [] then []
    else
      var n := |sigs| - 1;
      GroupOf(sigs[..n], key) + (if KeyOf(sigs[n]) == key then [sigs[n]] else [])
  }

  function MergeGroup(g: seq<APISignature>): APISignature
    requires g != []
  {
    if |g| == 1 then g[0] else MergeInto(MergeGroup(g[..|g| - 1]), g[|g| - 1])
  }

  predicate DistinctKeys(records: seq<APISignature>) {
    forall i, j :: 0 <= i < j < |records| ==> KeyOf(records[i]) != KeyOf(records[j])
  }

  lemma GroupSnoc(sigs: seq<APISignature>, sig: APISignature, key: DedupKey)
    ensures GroupOf(sigs + [sig], key) == GroupOf(sigs, key) + (if KeyOf(sig) == key then [sig] else [])
  {
    assert (sigs + [sig])[..|sigs|] == sigs;
  }

  predicate MergedRecord(sigs: seq<APISignature>, r: APISignature) {
    GroupOf(sigs, KeyOf(r)) != [] && r == MergeGroup(GroupOf(sigs, KeyOf(r)))
  }

  lemma MergeSnoc(g: seq<APISignature>, sig: APISignature)
    requires g != []
    ensures MergeGroup(g + [sig]) == MergeInto(MergeGroup(g), sig)
  {
    assert (g + [sig])[..|g|] == g;
  }

  /** One record per key that occurs, each the merge of its whole group. */
  lemma {:induction false} RecordsAreGroups(sigs: seq<APISignature>)
    ensures DistinctKeys(DedupOf(sigs))
    ensures forall i :: 0 <= i < |DedupOf(sigs)| ==> MergedRecord(sigs, DedupOf(sigs)[i])
    ensures forall key :: GroupOf(sigs, key) != [] ==> exists i :: 0 <= i < |DedupOf(sigs)| && KeyOf(DedupOf(sigs)[i]) == key
    decreases |sigs|
  {
    if sigs != [] {
      var n := |sigs| - 1;
      RecordsAreGroups(sigs[..n]);
      assert sigs == sigs[..n] + [sigs[n]];
      DedupSnoc(sigs[..n], sigs[n]);
      RecordsStep(sigs[..n], sigs[n], DedupOf(sigs[..n]), DedupOf(sigs));
    }
  }

  lemma RecordsStep(sigs: seq<APISignature>, sig: APISignature, before: seq<APISignature>, after: seq<APISignature>)
    requires DistinctKeys(before)
    requires forall i :: 0 <= i < |before| ==> MergedRecord(sigs, before[i])
    requires forall key :: GroupOf(sigs, key) != [] ==> exists i :: 0 <= i < |before| && KeyOf(before[i]) == key
    requires var i := IndexOf(before, KeyOf(sig));
      after == if i < |before| then before[i := MergeInto(before[i], sig)] else before + [sig]
    ensures DistinctKeys(after)
    ensures forall i :: 0 <= i < |after| ==> MergedRecord(sigs + [sig], after[i])
    ensures forall key :: GroupOf(sigs + [sig], key) != [] ==> exists i :: 0 <= i < |after| && KeyOf(after[i]) == key
  {
    var at := IndexOf(before, KeyOf(sig));
    assert DistinctKeys(after);
    hide DistinctKeys;
    RecordTouched(sigs, sig, before, at);
    forall i | 0 <= i < |after|
      ensures MergedRecord(sigs + [sig], after[i])
    {
      hide MergedRecord, GroupOf, MergeInto;
      if i != at {
        assert MergedRecord(sigs, before[i]);
        RecordUntouched(sigs, sig, before[i]);
      }
    }
    hide MergedRecord;
    forall key | GroupOf(sigs + [sig], key) != []
      ensures exists i :: 0 <= i < |after| && KeyOf(after[i]) == key
    {
      StillCovered(sigs, sig, before, after, key);
    }
  }

  lemma StillCovered(sigs: seq<APISignature>, sig: APISignature, before: seq<APISignature>, after: seq<APISignature>, key: DedupKey)
    requires GroupOf(sigs, key) != [] ==> exists i :: 0 <= i < |before| && KeyOf(before[i]) == key
    requires var i := IndexOf(before, KeyOf(sig));
      after == if i < |before| then before[i := MergeInto(before[i], sig)] else before + [sig]
    requires GroupOf(sigs + [sig], key) != []
    ensures exists i :: 0 <= i < |after| && KeyOf(after[i]) == key
  {
    GroupSnoc(sigs, sig, key);
    hide GroupOf;
    if key == KeyOf(sig) {
      assert KeyOf(after[IndexOf(before, key)]) == key;
    } else {
      var i :| 0 <= i < |before| && KeyOf(before[i]) == key;
      assert KeyOf(after[i]) == key;
    }
  }

  lemma RecordTouched(sigs: seq<APISignature>, sig: APISignature, before: seq<APISignature>, at: nat)
    requires at == IndexOf(before, KeyOf(sig))
    requires forall i :: 0 <= i < |before| ==> MergedRecord(sigs, before[i])
    requires forall key :: GroupOf(sigs, key) != [] ==> exists i :: 0 <= i < |before| && KeyOf(before[i]) == key
    ensures MergedRecord(sigs + [sig], if at < |before| then MergeInto(before[at], sig) else sig)
  {
    GroupSnoc(sigs, sig, KeyOf(sig));
    if at < |before| {
      assert MergedRecord(sigs, before[at]);
      MergeSnoc(GroupOf(sigs, KeyOf(sig)), sig);
    } else {
      assert GroupOf(sigs, KeyOf(sig)) == [];
    }
  }

  lemma RecordUntouched(sigs: seq<APISignature>, sig: APISignature, r: APISignature)
    requires MergedRecord(sigs, r) && KeyOf(r) != KeyOf(sig)
    ensures MergedRecord(sigs + [sig], r)
  {
    GroupSnoc(sigs, sig, KeyOf(r));
    assert GroupOf(sigs, KeyOf(r)) + [] == GroupOf(sigs, KeyOf(r));
  }

  predicate SameOperation(a: APISignature, b: APISignature) {
    a.httpMethod == b.httpMethod && a.resourcePath == b.resourcePath && a.serverPort == b.serverPort && a.agentId == b.agentId
  }

  predicate HasSame(records: seq<APISignature>, sig: APISignature) {
    exists i :: 0 <= i < |records| && SameOperation(records[i], sig)
  }

  /** Each signature has exactly one record with its method, normalized path, port and agent, and each record
      has such a signature. */
  predicate OneRecordEach(sigs: seq<APISignature>, records: seq<APISignature>) {
    && (forall k :: 0 <= k < |sigs| ==> HasSame(records, sigs[k]))
    && (forall i, j :: 0 <= i < j < |records| ==> !SameOperation(records[i], records[j]))
    && (forall i :: 0 <= i < |records| ==> HasSame(sigs, records[i]))
  }

  lemma HasSameKey(sigs: seq<APISignature>, sig: APISignature)
    ensures HasSame(sigs, sig) <==> exists k :: 0 <= k < |sigs| && KeyOf(sigs[k]) == KeyOf(sig)
  {
    if k :| 0 <= k < |sigs| && KeyOf(sigs[k]) == KeyOf(sig) {
      assert SameOperation(sigs[k], sig);
    }
  }

  lemma RecordsPerOperation(sigs: seq<APISignature>)
    ensures OneRecordEach(sigs, DedupOf(sigs))
  {
    RecordsAreGroups(sigs);
    GroupsPerOperation(sigs, DedupOf(sigs));
  }

  lemma GroupsPerOperation(sigs: seq<APISignature>, records: seq<APISignature>)
    requires DistinctKeys(records) && forall i :: 0 <= i < |records| ==> MergedRecord(sigs, records[i])
    requires forall key :: GroupOf(sigs, key) != [] ==> exists i :: 0 <= i < |records| && KeyOf(records[i]) == key
    ensures OneRecordEach(sigs, records)
  {
    hide KeyOf, HasSame, GroupOf, MergeGroup;
    forall k | 0 <= k < |sigs|
      ensures HasSame(records, sigs[k])
    {
      NotYetSeen(sigs, KeyOf(sigs[k]));
      HasSameKey(records, sigs[k]);
    }
    forall i | 0 <= i < |records|
      ensures HasSame(sigs, records[i])
    {
      NotYetSeen(sigs, KeyOf(records[i]));
      HasSameKey(sigs, records[i]);
    }
    forall i, j | 0 <= i < j < |records|
      ensures !SameOperation(records[i], records[j])
    {
      SameKey(records[i], records[j]);
    }
  }

  lemma SameKey(a: APISignature, b: APISignature)
    ensures SameOperation(a, b) <==> KeyOf(a) == KeyOf(b)
  {}

  // ---------- Hits ----------

  function SumHits(sigs: seq<APISignature>): int {
    if sigs == [] then 0 else SumHits(sigs[..|sigs| - 1]) + sigs[|sigs| - 1].hitCount
  }

  lemma SumSnoc(sigs: seq<APISignature>, sig: APISignature)
    ensures SumHits(sigs + [sig]) == SumHits(sigs) + sig.hitCount
  {
    assert (sigs + [sig])[..|sigs|] == sigs;
  }

  lemma {:induction false} SumUpdate(sigs: seq<APISignature>, i: nat, sig: APISignature)
    requires i < |sigs|
    ensures SumHits(sigs[i := sig]) == SumHits(sigs) - sigs[i].hitCount + sig.hitCount
    decreases |sigs|
  {
    var n := |sigs| - 1;
    if i == n {
      assert sigs[i := sig][..n] == sigs[..n];
    } else {
      SumUpdate(sigs[..n], i, sig);
      assert sigs[i := sig][..n] == sigs[..n][i := sig];
    }
  }

  /** Deduplication loses no hit. */
  lemma {:induction false} DedupKeepsHits(sigs: seq<APISignature>)
    ensures SumHits(DedupOf(sigs)) == SumHits(sigs)
    decreases |sigs|
  {
    if sigs != [] {
      var n := |sigs| - 1;
      DedupKeepsHits(sigs[..n]);
      assert sigs == sigs[..n] + [sigs[n]];
      DedupSnoc(sigs[..n], sigs[n]);
      var before := DedupOf(sigs[..n]);
      var i := IndexOf(before, KeyOf(sigs[n]));
      if i < |before| {
        SumUpdate(before, i, MergeInto(before[i], sigs[n]));
      } else {
        SumSnoc(before, sigs[n]);
      }
    }
  }

  // ---------- The representative ----------

  /** The member whose samples the merged record carries. */
  function Representative(g: seq<APISignature>): (i: nat)
    requires g != []
    ensures i < |g|
  {
    var n := |g| - 1;
    if n == 0 then 0
    else if g[n].hitCount > SumHits(g[..n]) then n
    else Representative(g[..n])
  }

  predicate SamplesOf(r: APISignature, member: APISignature) {
    r.sampleURL == member.sampleURL && r.samplePath == member.samplePath
    && r.startTime == member.startTime && r.requestDomain == member.requestDomain
  }

  /** A merged record has the group's total, the samples of the representative, and everything else
      from the first member. */
  lemma {:induction false} MergedFields(g: seq<APISignature>)
    requires g != []
    ensures MergeGroup(g).hitCount == SumHits(g)
    ensures SamplesOf(MergeGroup(g), g[Representative(g)])
    ensures MergeGroup(g) == g[0].(hitCount := SumHits(g), sampleURL := MergeGroup(g).sampleURL,
                                   samplePath := MergeGroup(g).samplePath, startTime := MergeGroup(g).startTime,
                                   requestDomain := MergeGroup(g).requestDomain)
    decreases |g|
  {
    var n := |g| - 1;
    if n == 0 {
      assert g[..0] == [];
    } else {
      MergedFields(g[..n]);
    }
  }

  predicate NonNegative(g: seq<APISignature>) {
    forall i :: 0 <= i < |g| ==> g[i].hitCount >= 0
  }

  /** m is the first member with the highest count. */
  predicate FirstMax(g: seq<APISignature>, m: nat) {
    m < |g| && (forall i :: 0 <= i < |g| ==> g[i].hitCount <= g[m].hitCount)
    && forall i :: 0 <= i < m ==> g[i].hitCount < g[m].hitCount
  }

  lemma {:induction false} SumAtLeast(g: seq<APISignature>, m: nat)
    requires NonNegative(g) && m < |g|
    ensures SumHits(g) >= g[m].hitCount
    decreases |g|
  {
    var n := |g| - 1;
    if m < n {
      SumAtLeast(g[..n], m);
    } else {
      SumNonNegative(g[..n]);
    }
  }

  lemma {:induction false} SumNonNegative(g: seq<APISignature>)
    requires NonNegative(g)
    ensures SumHits(g) >= 0
    decreases |g|
  {
    if g != [] {
      SumNonNegative(g[..|g| - 1]);
    }
  }

  /** The source means to keep the samples of a member with the highest count. It does so exactly when
      the first such member comes first, or has more hits than everything before it together. */
  lemma {:induction false} RepresentativeIsMaxIff(g: seq<APISignature>, m: nat)
    requires NonNegative(g) && FirstMax(g, m)
    ensures g[Representative(g)].hitCount == g[m].hitCount <==> m == 0 || g[m].hitCount > SumHits(g[..m])
    decreases |g|
  {
    var n := |g| - 1;
    if m < n {
      assert g[..n][..m] == g[..m];
      RepresentativeIsMaxIff(g[..n], m);
      SumAtLeast(g[..n], m);
      hide SumHits;
      assert Representative(g) == Representative(g[..n]);
    }
  }

  /** Counts 3, 2, 4: the third member has the most hits, but the first one's samples stay. */
  lemma RepresentativeNotMax(g: seq<APISignature>)
    requires |g| == 3 && g[0].hitCount == 3 && g[1].hitCount == 2 && g[2].hitCount == 4
    ensures FirstMax(g, 2) && Representative(g) == 0
  {
    assert g[..2][..1] == g[..1];
    assert SumHits(g[..1]) == SumHits(g[..1][..0]) + 3 == 3;
    assert SumHits(g[..2]) == 5;
  }

  // ---------- Descending input ----------

  lemma {:induction false} GroupDescends(sigs: seq<APISignature>, key: DedupKey)
    requires DescendingHits(sigs) && NonNegative(sigs)
    ensures DescendingHits(GroupOf(sigs, key)) && NonNegative(GroupOf(sigs, key))
    ensures forall s :: s in GroupOf(sigs, key) <==> s in sigs && KeyOf(s) == key
    decreases |sigs|
  {
    if sigs != [] {
      var n := |sigs| - 1;
      GroupDescends(sigs[..n], key);
      assert sigs == sigs[..n] + [sigs[n]];
      GroupSnoc(sigs[..n], sigs[n], key);
      hide GroupOf, KeyOf;
      assert forall s :: s in sigs[..n] ==> s.hitCount >= sigs[n].hitCount;
    }
  }

  /** On input in descending order of hits each record is its group's first member, which has the highest
      count, with the group's total. */
  lemma DescendingRecords(sigs: seq<APISignature>, i: nat)
    requires DescendingHits(sigs) && NonNegative(sigs) && i < |DedupOf(sigs)|
    ensures var r := DedupOf(sigs)[i];
      var g := GroupOf(sigs, KeyOf(r));
      && g != []
      && r == g[0].(hitCount := SumHits(g))
      && (forall s :: s in sigs && KeyOf(s) == KeyOf(r) ==> s.hitCount <= g[0].hitCount)
  {
    RecordsAreGroups(sigs);
    var r := DedupOf(sigs)[i];
    assert MergedRecord(sigs, r);
    hide DedupOf;
    var g := GroupOf(sigs, KeyOf(r));
    GroupDescends(sigs, KeyOf(r));
    hide GroupOf;
    MergedFields(g);
    FirstRepresents(g);
  }

  lemma {:induction false} FirstRepresents(g: seq<APISignature>)
    requires g != [] && DescendingHits(g) && NonNegative(g)
    ensures Representative(g) == 0
    decreases |g|
  {
    var n := |g| - 1;
    if n > 0 {
      FirstRepresents(g[..n]);
      SumAtLeast(g[..n], 0);
    }
  }

  /** Records come in the order in which their keys were first seen: a record's group starts before the
      group of every later record. */
  lemma {:induction false} FirstSeenOrder(sigs: seq<APISignature>) returns (at: seq<nat>)
    ensures FirstSeen(sigs, DedupOf(sigs), at)
    decreases |sigs|
  {
    if sigs == [] {
      at := [];
    } else {
      var n := |sigs| - 1;
      at := FirstSeenOrder(sigs[..n]);
      RecordsAreGroups(sigs[..n]);
      assert sigs == sigs[..n] + [sigs[n]];
      DedupSnoc(sigs[..n], sigs[n]);
      at := FirstSeenStep(sigs[..n], sigs[n], DedupOf(sigs[..n]), DedupOf(sigs), at);
    }
  }

  predicate FirstSeen(sigs: seq<APISignature>, records: seq<APISignature>, at: seq<nat>) {
    && |at| == |records|
    && (forall i, j :: 0 <= i < j < |at| ==> at[i] < at[j])
    && (forall i :: 0 <= i < |at| ==> at[i] < |sigs| && KeyOf(sigs[at[i]]) == KeyOf(records[i]))
    && (forall i, k :: 0 <= i < |at| && 0 <= k < at[i] ==> KeyOf(sigs[k]) != KeyOf(records[i]))
  }

  lemma FirstSeenStep(sigs: seq<APISignature>, sig: APISignature, before: seq<APISignature>, after: seq<APISignature>,
                      at: seq<nat>) returns (next: seq<nat>)
    requires FirstSeen(sigs, before, at)
    requires forall key :: GroupOf(sigs, key) != [] ==> exists i :: 0 <= i < |before| && KeyOf(before[i]) == key
    requires var i := IndexOf(before, KeyOf(sig));
      after == if i < |before| then before[i := MergeInto(before[i], sig)] else before + [sig]
    ensures FirstSeen(sigs + [sig], after, next)
  {
    if IndexOf(before, KeyOf(sig)) < |before| {
      SameKeysSeen(sigs, sig, before, after, at);
      next := at;
    } else {
      NotYetSeen(sigs, KeyOf(sig));
      NewKeySeen(sigs, sig, before, at);
      next := at + [|sigs|];
    }
  }

  lemma SameKeysSeen(sigs: seq<APISignature>, sig: APISignature, before: seq<APISignature>, after: seq<APISignature>, at: seq<nat>)
    requires FirstSeen(sigs, before, at)
    requires |after| == |before| && forall i :: 0 <= i < |after| ==> KeyOf(after[i]) == KeyOf(before[i])
    ensures FirstSeen(sigs + [sig], after, at)
  {
    hide KeyOf;
  }

  lemma NewKeySeen(sigs: seq<APISignature>, sig: APISignature, before: seq<APISignature>, at: seq<nat>)
    requires FirstSeen(sigs, before, at)
    requires forall k :: 0 <= k < |sigs| ==> KeyOf(sigs[k]) != KeyOf(sig)
    ensures FirstSeen(sigs + [sig], before + [sig], at + [|sigs|])
  {
    hide KeyOf;
  }

  lemma {:induction false} NotYetSeen(sigs: seq<APISignature>, key: DedupKey)
    ensures GroupOf(sigs, key) == [] <==> forall k :: 0 <= k < |sigs| ==> KeyOf(sigs[k]) != key
    decreases |sigs|
  {
    if sigs != [] {
      NotYetSeen(sigs[..|sigs| - 1], key);
    }
  }
}
