/** internal/store/discovered_repo.go: the additive upsert of discovered operations. */
module DiscoveredRepository {
  import opened Enrichment

  datatype RowKey = RowKey(serviceKey: string, httpMethod: string, resourcePath: string)

  /** The columns of a row are those of the record that wrote it, with its own hits and times. */
  datatype DiscoveredRow = DiscoveredRow(record: FusedRecord, hitCount: int, firstSeenAt: int, lastSeenAt: int, updatedAt: int)

  type DiscoveredTable = map<RowKey, DiscoveredRow>

  function KeyOfRecord(rec: FusedRecord): RowKey {
    RowKey(rec.derived.serviceKey, rec.sig.httpMethod, rec.sig.resourcePath)
  }

  /** The columns that the conflict branch sets: some are replaced, and those of the network and the
      caller only by values that are not empty. */
  function Refreshed(known: FusedRecord, rec: FusedRecord): FusedRecord {
    known.(server := known.server.(k8sPod := rec.server.k8sPod, k8sNode := rec.server.k8sNode, serviceIP := rec.server.serviceIP),
          network := Network(Filled(rec.network.sourceIP, known.network.sourceIP), Filled(rec.network.hostIP, known.network.hostIP),
                             if rec.network.isExternal.Some? then rec.network.isExternal else known.network.isExternal),
          caller := known.caller.(serviceIP := Filled(rec.caller.serviceIP, known.caller.serviceIP),
                                 k8sPod := Filled(rec.caller.k8sPod, known.caller.k8sPod),
                                 k8sService := Filled(rec.caller.k8sService, known.caller.k8sService)),
          derived := known.derived.(trafficOrigin := rec.derived.trafficOrigin),
          sig := known.sig.(sampleURL := rec.sig.sampleURL, responseCode := rec.sig.responseCode, latencyUs := rec.sig.latencyUs))
  }

  /** INSERT ... ON CONFLICT DO UPDATE: hits add up and the first sight stays. */
  function Store(rows: DiscoveredTable, rec: FusedRecord, now: int): DiscoveredTable {
    var key := KeyOfRecord(rec);
    if key in rows
    then rows[key := DiscoveredRow(Refreshed(rows[key].record, rec), rows[key].hitCount + rec.sig.hitCount,
                                   rows[key].firstSeenAt, now, now)]
    else rows[key := DiscoveredRow(rec, rec.sig.hitCount, now, now, now)]
  }

  /** Every row stands under the key of its own columns. */
  ghost predicate Keyed(rows: DiscoveredTable) {
    forall key :: key in rows ==> KeyOfRecord(rows[key].record) == key
  }

  /** Rows stay under their keys, no row goes, and no known network address is lost. */
  lemma StoreKeeps(rows: DiscoveredTable, rec: FusedRecord, now: int)
    requires Keyed(rows)
    ensures Keyed(Store(rows, rec, now))
    ensures forall key :: key in rows ==>
      && key in Store(rows, rec, now)
      && (rows[key].record.network.hostIP != "" ==> Store(rows, rec, now)[key].record.network.hostIP != "")
  {}

  /** A record under a new service, method and path is inserted as it is, first and last seen now. Under known
      ones the hits are added, the last sight is now, the first one stays; pod, node and address of the server,
      the origin and the sample's URL, code and latency are replaced, addresses and caller only by known values,
      and everything else stays. */
  lemma StoreExact(rows: DiscoveredTable, rec: FusedRecord, now: int)
    ensures var key := RowKey(rec.derived.serviceKey, rec.sig.httpMethod, rec.sig.resourcePath);
      var after := Store(rows, rec, now);
      && after.Keys == rows.Keys + {key} && (forall k :: k in rows && k != key ==> after[k] == rows[k])
      && after[key].lastSeenAt == after[key].updatedAt == now
      && (key !in rows ==> after[key].firstSeenAt == now && after[key].hitCount == rec.sig.hitCount && after[key].record == rec)
      && (key in rows ==>
            && after[key].firstSeenAt == rows[key].firstSeenAt && after[key].hitCount == rows[key].hitCount + rec.sig.hitCount
            && Updated(rows[key].record, rec, after[key].record))
  {}

  /** How the columns of a known row change. */
  predicate Updated(known: FusedRecord, rec: FusedRecord, after: FusedRecord) {
    && after.server.k8sPod == rec.server.k8sPod && after.server.k8sNode == rec.server.k8sNode
    && after.server.serviceIP == rec.server.serviceIP && after.server.k8sService == known.server.k8sService
    && after.server.k8sNamespace == known.server.k8sNamespace && after.server.k8sWorkload == known.server.k8sWorkload
    && after.server.k8sCluster == known.server.k8sCluster && after.server.vmHostname == known.server.vmHostname
    && after.server.processName == known.server.processName && after.requestDomain == known.requestDomain
    && Newest(known.network.sourceIP, rec.network.sourceIP, after.network.sourceIP)
    && Newest(known.network.hostIP, rec.network.hostIP, after.network.hostIP)
    && (after.network.isExternal == if rec.network.isExternal.None? then known.network.isExternal else rec.network.isExternal)
    && Newest(known.caller.serviceIP, rec.caller.serviceIP, after.caller.serviceIP)
    && Newest(known.caller.k8sPod, rec.caller.k8sPod, after.caller.k8sPod)
    && Newest(known.caller.k8sService, rec.caller.k8sService, after.caller.k8sService)
    && after.caller.processName == known.caller.processName && after.caller.k8sNamespace == known.caller.k8sNamespace
    && after.caller.k8sCluster == known.caller.k8sCluster && after.caller.vmHostname == known.caller.vmHostname
    && after.derived == known.derived.(trafficOrigin := rec.derived.trafficOrigin)
    && after.sig == known.sig.(sampleURL := rec.sig.sampleURL, responseCode := rec.sig.responseCode, latencyUs := rec.sig.latencyUs)
  }

  /** The later value wins unless it is empty. */
  predicate Newest(known: string, later: string, value: string) {
    (later != "" ==> value == later) && (later == "" ==> value == known)
  }

  /** The first sight of a row is the time of the batch's first record for it, or older; the last sight is
      the time of the last one. */
  lemma {:induction false} LastSeenAfterBatch(rows: DiscoveredTable, records: seq<FusedRecord>, stored: seq<bool>,
                                              clock: nat -> int, i: nat)
    requires |stored| == |records| && i < |records| && stored[i]
    requires forall j :: i < j < |records| && stored[j] ==> KeyOfRecord(records[j]) != KeyOfRecord(records[i])
    ensures var key := KeyOfRecord(records[i]);
      var after := StoreAll(rows, records, stored, clock);
      && key in after && after[key].lastSeenAt == clock(i)
      && (key in rows ==> after[key].firstSeenAt == rows[key].firstSeenAt)
    decreases |records|
  {
    var n := |records| - 1;
    KeepsFirstSight(rows, records[..n], stored[..n], clock, KeyOfRecord(records[i]));
    if i < n {
      LastSeenAfterBatch(rows, records[..n], stored[..n], clock, i);
    }
    hide Refreshed, KeyOfRecord;
  }

  lemma {:induction false} KeepsFirstSight(rows: DiscoveredTable, records: seq<FusedRecord>, stored: seq<bool>,
                                           clock: nat -> int, key: RowKey)
    requires |stored| == |records|
    ensures key in rows ==>
      key in StoreAll(rows, records, stored, clock) && StoreAll(rows, records, stored, clock)[key].firstSeenAt == rows[key].firstSeenAt
    decreases |records|
  {
    if records != [] {
      KeepsFirstSight(rows, records[..|records| - 1], stored[..|records| - 1], clock, key);
      hide Refreshed, KeyOfRecord;
    }
  }

  /** The table after a batch of which the database took the records flagged in stored. */
  function StoreAll(rows: DiscoveredTable, records: seq<FusedRecord>, stored: seq<bool>, clock: nat -> int): DiscoveredTable
    requires |stored| == |records|
  {
    if records == [] then rows
    else
      var n := |records| - 1;
      var before := StoreAll(rows, records[..n], stored[..n], clock);
      if stored[n] then Store(before, records[n], clock(n)) else before
  }

  /** The hits of the records whose flag is not set. */
  function LostHits(records: seq<FusedRecord>, stored: seq<bool>): int
    requires |stored| == |records|
  {
    if records == [] then 0
    else
      var n := |records| - 1;
      LostHits(records[..n], stored[..n]) + (if stored[n] then 0 else records[n].sig.hitCount)
  }

  function CountStored(stored: seq<bool>): nat {
    if stored == [] then 0 else CountStored(stored[..|stored| - 1]) + (if stored[|stored| - 1] then 1 else 0)
  }

  /** failures counts the statements that the database failed. */
  class DiscoveredRepo {
    var rows: DiscoveredTable
    ghost var failures: nat

    constructor ()
      ensures rows == map[] && failures == 0
    {
      rows, failures := map[], 0;
    }

    method UpsertOne(rec: FusedRecord, now: int) returns (ok: bool)
      modifies this
      ensures failures == old(failures) + if ok then 0 else 1
      ensures rows == if ok then Store(old(rows), rec, now) else old(rows)
    {
      ok := *;
      failures := failures + if ok then 0 else 1;
      if ok {
        var key := KeyOfRecord(rec);
        if key in rows {
          var row := rows[key];
          row := row.(lastSeenAt := now, updatedAt := now);
          row := row.(hitCount := row.hitCount + rec.sig.hitCount);
          row := row.(record := Refreshed(row.record, rec));
          rows := rows[key := row];
        } else {
          rows := rows[key := DiscoveredRow(rec, rec.sig.hitCount, now, now, now)];
        }
      }
    }

    /** A record that fails is skipped; the others are stored in order. */
    method BatchUpsert(records: seq<FusedRecord>, clock: nat -> int) returns (count: nat, failed: nat, ghost stored: seq<bool>)
      modifies this
      ensures |stored| == |records|
      ensures rows == StoreAll(old(rows), records, stored, clock)
      ensures count == CountStored(stored) && count + failed == |records|
      ensures failures == old(failures) + failed
    {
      count, failed, stored := 0, 0, [];
      for i := 0 to |records|
        invariant |stored| == i
        invariant rows == StoreAll(old(rows), records[..i], stored, clock)
        invariant count == CountStored(stored) && count + failed == i
        invariant failures == old(failures) + failed
      {
        assert records[..i + 1][..i] == records[..i];
        hide Store;
        var ok := UpsertOne(records[i], clock(i));
        assert (stored + [ok])[..i] == stored;
        stored := stored + [ok];
        if !ok {
          failed := failed + 1;
          continue;
        }
        count := count + 1;
      }
      assert records[..|records|] == records;
    }
  }

  // ---------- Conservation ----------

  /** The sum of the hits of all rows. */
  ghost function TotalHits(rows: DiscoveredTable): int {
    if rows == map[] then 0
    else
      HasKey(rows);
      var k :| k in rows;
      rows[k].hitCount + TotalHits(rows - {k})
  }

  lemma HasKey(rows: DiscoveredTable)
    requires rows != map[]
    ensures exists k :: k in rows
  {
    if forall k :: k !in rows {
      assert false;
    }
  }

  lemma {:induction false} TotalRemove(rows: DiscoveredTable, k: RowKey)
    requires k in rows
    ensures TotalHits(rows) == rows[k].hitCount + TotalHits(rows - {k})
    decreases |rows|
  {
    var p :| p in rows && TotalHits(rows) == rows[p].hitCount + TotalHits(rows - {p});
    if p != k {
      TotalRemove(rows - {p}, k);
      TotalRemove(rows - {k}, p);
      assert rows - {p} - {k} == rows - {k} - {p};
    }
  }

  /** Storing a record adds its hits to the total, whether it makes a row or merges into one. */
  lemma StoreTotal(rows: DiscoveredTable, rec: FusedRecord, now: int)
    ensures TotalHits(Store(rows, rec, now)) == TotalHits(rows) + rec.sig.hitCount
  {
    var key := KeyOfRecord(rec);
    var after := Store(rows, rec, now);
    TotalRemove(after, key);
    if key in rows {
      TotalRemove(rows, key);
      assert after - {key} == rows - {key};
    } else {
      assert after - {key} == rows;
    }
  }

  /** A batch adds the hits of all its records but the lost ones, also when records share a row. */
  lemma {:induction false} BatchTotal(rows: DiscoveredTable, records: seq<FusedRecord>, stored: seq<bool>, clock: nat -> int)
    requires |stored| == |records|
    ensures TotalHits(StoreAll(rows, records, stored, clock)) == TotalHits(rows) + SumRecords(records) - LostHits(records, stored)
    decreases |records|
  {
    if records != [] {
      var n := |records| - 1;
      BatchTotal(rows, records[..n], stored[..n], clock);
      StoreTotal(StoreAll(rows, records[..n], stored[..n], clock), records[n], clock(n));
    }
  }

  /** When every statement of a batch succeeds, no hit is lost. */
  lemma {:induction false} NothingLost(records: seq<FusedRecord>, stored: seq<bool>)
    requires |stored| == |records| && CountStored(stored) == |records|
    ensures LostHits(records, stored) == 0
    decreases |records|
  {
    if records != [] {
      var n := |records| - 1;
      CountBound(stored[..n]);
      NothingLost(records[..n], stored[..n]);
    }
  }

  lemma {:induction false} CountBound(stored: seq<bool>)
    ensures CountStored(stored) <= |stored|
    decreases |stored|
  {
    if stored != [] {
      CountBound(stored[..|stored| - 1]);
    }
  }
}
