/** internal/discovery/enrichment.go: one record per signature, completed from server-side rows. */
module Enrichment {
  import opened Durations
  import opened Model

  /** The zero time of the language marks a missing time. */
  const ZERO_TIME: int := -62_135_596_800 * SECOND
  const HALF_SECOND: int := SECOND / 2

  /** What the three observation points add to a signature: the server's place, the network's addresses,
      the calling process. */
  datatype Server = Server(k8sService: string, k8sNamespace: string, k8sWorkload: string, k8sPod: string, k8sCluster: string,
                           k8sNode: string, vmHostname: string, processName: string, serviceIP: string)
  datatype Network = Network(sourceIP: string, hostIP: string, isExternal: Option<bool>)
  datatype Caller = Caller(serviceIP: string, processName: string, k8sPod: string, k8sNamespace: string, k8sService: string,
                           k8sCluster: string, vmHostname: string)

  const NO_SERVER := Server("", "", "", "", "", "", "", "", "")
  const NO_NETWORK := Network("", "", None)
  const NO_CALLER := Caller("", "", "", "", "", "", "")

  datatype Observation =
    | ServerSide(server: Server, requestDomain: string)
    | NetworkSide(sourceIP: string, hostIP: string, isExternal: bool)
    | ClientSide(caller: Caller)

  datatype ObservationRow = ObservationRow(requestResource: string, requestType: string, rowTime: int, content: Observation)

  /** The fields that are computed from the others at the end. */
  datatype Derived = Derived(serviceKey: string, serviceType: string, trafficOrigin: string)

  datatype FusedRecord = FusedRecord(sig: APISignature, requestDomain: string, server: Server, network: Network, caller: Caller,
                                     derived: Derived)

  type Deriver = FusedRecord -> Derived

  /** The distance of two times as the source computes it: the least duration has no negation. */
  function Distance(a: int, b: int): int {
    var diff := Since(a, b);
    if diff < 0 && diff != MIN_DURATION then -diff else diff
  }

  predicate RowMatches(sig: APISignature, row: ObservationRow) {
    && sig.sampleURL == row.requestResource
    && sig.httpMethod == row.requestType
    && (sig.startTime == ZERO_TIME || row.rowTime == ZERO_TIME || Distance(sig.startTime, row.rowTime) <= HALF_SECOND)
  }

  /** A row belongs to a signature with its URL and method whose time, when both are known, is at most half a
      second away; a difference below the least duration passes too, because negating that one overflows. */
  lemma RowMatchesIff(sig: APISignature, row: ObservationRow)
    ensures RowMatches(sig, row) <==>
      && sig.sampleURL == row.requestResource && sig.httpMethod == row.requestType
      && (sig.startTime == ZERO_TIME || row.rowTime == ZERO_TIME
          || -500_000_000 <= sig.startTime - row.rowTime <= 500_000_000
          || sig.startTime - row.rowTime <= -0x8000_0000_0000_0000)
  {}

  /** The first signature that a row belongs to, or the number of signatures. */
  function FirstMatch(sigs: seq<APISignature>, row: ObservationRow): (i: nat)
    ensures i <= |sigs|
    ensures i < |sigs| ==> RowMatches(sigs[i], row)
    ensures forall j :: 0 <= j < i ==> !RowMatches(sigs[j], row)
  {
    if sigs == [] then 0
    else if RowMatches(sigs[0], row) then 0
    else 1 + FirstMatch(sigs[1..], row)
  }

  method MatchRow(sigs: seq<APISignature>, row: ObservationRow) returns (idx: int)
    ensures idx == if FirstMatch(sigs, row) < |sigs| then FirstMatch(sigs, row) else -1
  {
    for i := 0 to |sigs|
      invariant forall j :: 0 <= j < i ==> !RowMatches(sigs[j], row)
    {
      var sig := sigs[i];
      if sig.sampleURL != row.requestResource {
        continue;
      }
      if sig.httpMethod != row.requestType {
        continue;
      }
      if sig.startTime != ZERO_TIME && row.rowTime != ZERO_TIME {
        if Distance(sig.startTime, row.rowTime) > HALF_SECOND {
          continue;
        }
      }
      return i;
    }
    return -1;
  }

  function Filled(known: string, found: string): string {
    if known == "" then found else known
  }

  /** A server-side row replaces the place and fills an unknown domain; the other rows fill what is unknown. */
  function Completed(rec: FusedRecord, content: Observation): FusedRecord {
    match content
    case ServerSide(server, requestDomain) => rec.(server := server, requestDomain := Filled(rec.requestDomain, requestDomain))
    case NetworkSide(sourceIP, hostIP, isExternal) =>
      rec.(network := Network(Filled(rec.network.sourceIP, sourceIP), Filled(rec.network.hostIP, hostIP),
                              if rec.network.isExternal.None? then Some(isExternal) else rec.network.isExternal))
    case ClientSide(c) =>
      rec.(caller := Caller(Filled(rec.caller.serviceIP, c.serviceIP), Filled(rec.caller.processName, c.processName),
                            Filled(rec.caller.k8sPod, c.k8sPod), Filled(rec.caller.k8sNamespace, c.k8sNamespace),
                            Filled(rec.caller.k8sService, c.k8sService), Filled(rec.caller.k8sCluster, c.k8sCluster),
                            Filled(rec.caller.vmHostname, c.vmHostname)))
  }

  function AttachOne(recs: seq<FusedRecord>, sigs: seq<APISignature>, row: ObservationRow): (r: seq<FusedRecord>)
    requires |recs| == |sigs|
    ensures |r| == |recs|
  {
    var i := FirstMatch(sigs, row);
    if i < |sigs| then recs[i := Completed(recs[i], row.content)] else recs
  }

  function AttachAll(recs: seq<FusedRecord>, sigs: seq<APISignature>, rows: seq<ObservationRow>): (r: seq<FusedRecord>)
    requires |recs| == |sigs|
    ensures |r| == |recs|
  {
    if rows == [] then recs
    else AttachOne(AttachAll(recs, sigs, rows[..|rows| - 1]), sigs, rows[|rows| - 1])
  }

  /** The map holds these records under their positions. */
  predicate Holds(fusionMap: map<int, FusedRecord>, recs: seq<FusedRecord>) {
    && (forall i :: i in fusionMap ==> 0 <= i < |recs|)
    && forall i :: 0 <= i < |recs| ==> i in fusionMap && fusionMap[i] == recs[i]
  }

  /** The update of one record by one row, field by field. */
  method Complete(record: FusedRecord, content: Observation) returns (rec: FusedRecord)
    ensures rec == Completed(record, content)
  {
    rec := record;
    match content
    case ServerSide(server, requestDomain) =>
      rec := rec.(server := server);
      if rec.requestDomain == "" {
        rec := rec.(requestDomain := requestDomain);
      }
    case NetworkSide(sourceIP, hostIP, isExternal) =>
      var n := rec.network;
      if n.sourceIP == "" {
        n := n.(sourceIP := sourceIP);
      }
      if n.hostIP == "" {
        n := n.(hostIP := hostIP);
      }
      if n.isExternal.None? {
        n := n.(isExternal := Some(isExternal));
      }
      rec := rec.(network := n);
    case ClientSide(found) =>
      var c := CompleteCaller(rec.caller, found);
      rec := rec.(caller := c);
  }

  method CompleteCaller(known: Caller, found: Caller) returns (c: Caller)
    ensures c == Caller(Filled(known.serviceIP, found.serviceIP), Filled(known.processName, found.processName),
                        Filled(known.k8sPod, found.k8sPod), Filled(known.k8sNamespace, found.k8sNamespace),
                        Filled(known.k8sService, found.k8sService), Filled(known.k8sCluster, found.k8sCluster),
                        Filled(known.vmHostname, found.vmHostname))
  {
    c := known;
    if c.serviceIP == "" {
      c := c.(serviceIP := found.serviceIP);
    }
    if c.processName == "" {
      c := c.(processName := found.processName);
    }
    if c.k8sPod == "" {
      c := c.(k8sPod := found.k8sPod);
    }
    if c.k8sNamespace == "" {
      c := c.(k8sNamespace := found.k8sNamespace);
    }
    if c.k8sService == "" {
      c := c.(k8sService := found.k8sService);
    }
    if c.k8sCluster == "" {
      c := c.(k8sCluster := found.k8sCluster);
    }
    if c.vmHostname == "" {
      c := c.(vmHostname := found.vmHostname);
    }
  }

  /** The three attaching loops, which differ only in the rows they are given. */
  method Attach(fusionMap: map<int, FusedRecord>, sigs: seq<APISignature>, rows: seq<ObservationRow>,
                ghost recs: seq<FusedRecord>) returns (fused: map<int, FusedRecord>)
    requires |recs| == |sigs| && Holds(fusionMap, recs)
    ensures Holds(fused, AttachAll(recs, sigs, rows))
  {
    hide FirstMatch, RowMatches, Completed;
    fused := fusionMap;
    for k := 0 to |rows|
      invariant Holds(fused, AttachAll(recs, sigs, rows[..k]))
    {
      assert rows[..k + 1][..k] == rows[..k];
      var idx := MatchRow(sigs, rows[k]);
      if idx < 0 {
        continue;
      }
      var rec := Complete(fused[idx], rows[k].content);
      fused := fused[idx := rec];
    }
    assert rows[..|rows|] == rows;
  }

  /** Row k is the last server-side row that belongs to signature i. */
  predicate LastServerRow(sigs: seq<APISignature>, rows: seq<ObservationRow>, i: nat, k: nat) {
    && k < |rows| && FirstMatch(sigs, rows[k]) == i && rows[k].content.ServerSide?
    && forall m :: k < m < |rows| ==> FirstMatch(sigs, rows[m]) != i || !rows[m].content.ServerSide?
  }

  predicate Stays(known: string, later: string) {
    known != "" ==> later == known
  }

  /** Signature and derived fields are untouched, and what was known of the domain, the network and the
      caller stays. */
  predicate KnownStays(a: FusedRecord, b: FusedRecord) {
    && a.sig == b.sig && a.derived == b.derived && Stays(a.requestDomain, b.requestDomain)
    && Stays(a.network.sourceIP, b.network.sourceIP) && Stays(a.network.hostIP, b.network.hostIP)
    && (a.network.isExternal.Some? ==> b.network.isExternal == a.network.isExternal)
    && Stays(a.caller.serviceIP, b.caller.serviceIP) && Stays(a.caller.processName, b.caller.processName)
    && Stays(a.caller.k8sPod, b.caller.k8sPod) && Stays(a.caller.k8sNamespace, b.caller.k8sNamespace)
    && Stays(a.caller.k8sService, b.caller.k8sService) && Stays(a.caller.k8sCluster, b.caller.k8sCluster)
    && Stays(a.caller.vmHostname, b.caller.vmHostname)
  }

  lemma KnownStaysTrans(a: FusedRecord, b: FusedRecord, c: FusedRecord)
    requires KnownStays(a, b) && KnownStays(b, c)
    ensures KnownStays(a, c)
  {}

  lemma AttachSnoc(recs: seq<FusedRecord>, sigs: seq<APISignature>, rows: seq<ObservationRow>, i: nat)
    requires |recs| == |sigs| && i < |recs| && rows != []
    ensures var n := |rows| - 1;
      var before := AttachAll(recs, sigs, rows[..n])[i];
      AttachAll(recs, sigs, rows)[i] == if FirstMatch(sigs, rows[n]) == i then Completed(before, rows[n].content) else before
  {
    hide Completed, FirstMatch;
  }

  lemma CompletedKnows(rec: FusedRecord, content: Observation)
    ensures KnownStays(rec, Completed(rec, content))
    ensures !content.ServerSide? ==> Completed(rec, content).server == rec.server
    ensures content.ServerSide? ==> Completed(rec, content).server == content.server
  {}

  /** Attaching rows changes neither hits nor identity of a record, and nothing that was known. */
  lemma {:induction false} AttachKeeps(recs: seq<FusedRecord>, sigs: seq<APISignature>, rows: seq<ObservationRow>, i: nat)
    requires |recs| == |sigs| && i < |recs|
    ensures KnownStays(recs[i], AttachAll(recs, sigs, rows)[i])
    decreases |rows|
  {
    if rows != [] {
      var n := |rows| - 1;
      var before := AttachAll(recs, sigs, rows[..n])[i];
      AttachKeeps(recs, sigs, rows[..n], i);
      AttachSnoc(recs, sigs, rows, i);
      CompletedKnows(before, rows[n].content);
      hide FirstMatch, AttachAll, Completed, KnownStays;
      if FirstMatch(sigs, rows[n]) == i {
        KnownStaysTrans(recs[i], before, Completed(before, rows[n].content));
      }
    }
  }

  lemma LastServerPrefix(sigs: seq<APISignature>, rows: seq<ObservationRow>, i: nat, k: nat)
    requires rows != [] && LastServerRow(sigs, rows, i, k) && k < |rows| - 1
    ensures LastServerRow(sigs, rows[..|rows| - 1], i, k)
    ensures FirstMatch(sigs, rows[|rows| - 1]) == i ==> !rows[|rows| - 1].content.ServerSide?
  {
    hide FirstMatch;
  }

  /** The last server-side row of a record places it. */
  lemma {:induction false} AttachPlaces(recs: seq<FusedRecord>, sigs: seq<APISignature>, rows: seq<ObservationRow>,
                                        i: nat, k: nat)
    requires |recs| == |sigs| && i < |recs| && LastServerRow(sigs, rows, i, k)
    ensures AttachAll(recs, sigs, rows)[i].server == rows[k].content.server
    decreases |rows|
  {
    var n := |rows| - 1;
    AttachSnoc(recs, sigs, rows, i);
    CompletedKnows(AttachAll(recs, sigs, rows[..n])[i], rows[n].content);
    if k < n {
      LastServerPrefix(sigs, rows, i, k);
      hide FirstMatch, AttachAll, Completed, KnownStays, LastServerRow;
      AttachPlaces(recs, sigs, rows[..n], i, k);
    }
  }

  /** A record without rows is left as it was. */
  lemma {:induction false} AttachNothing(recs: seq<FusedRecord>, sigs: seq<APISignature>, rows: seq<ObservationRow>, i: nat)
    requires |recs| == |sigs| && i < |recs| && forall m :: 0 <= m < |rows| ==> FirstMatch(sigs, rows[m]) != i
    ensures AttachAll(recs, sigs, rows)[i] == recs[i]
    decreases |rows|
  {
    if rows != [] {
      AttachSnoc(recs, sigs, rows, i);
      hide FirstMatch, AttachAll, Completed;
      AttachNothing(recs, sigs, rows[..|rows| - 1], i);
    }
  }

  /** The text fields that rows fill: the domain, two of the network, seven of the caller. */
  datatype Field = Domain | SourceIP | HostIP | CallerIP | CallerProcess | CallerPod | CallerNamespace | CallerService
                 | CallerCluster | CallerVM

  function ValueOf(rec: FusedRecord, f: Field): string {
    match f
    case Domain => rec.requestDomain
    case SourceIP => rec.network.sourceIP
    case HostIP => rec.network.hostIP
    case CallerIP => rec.caller.serviceIP
    case CallerProcess => rec.caller.processName
    case CallerPod => rec.caller.k8sPod
    case CallerNamespace => rec.caller.k8sNamespace
    case CallerService => rec.caller.k8sService
    case CallerCluster => rec.caller.k8sCluster
    case CallerVM => rec.caller.vmHostname
  }

  /** What a row offers for a field; "" when its observation point does not know it. */
  function Offered(content: Observation, f: Field): string {
    match content
    case ServerSide(_, requestDomain) => if f.Domain? then requestDomain else ""
    case NetworkSide(sourceIP, hostIP, _) => if f.SourceIP? then sourceIP else if f.HostIP? then hostIP else ""
    case ClientSide(caller) =>
      match f
      case CallerIP => caller.serviceIP
      case CallerProcess => caller.processName
      case CallerPod => caller.k8sPod
      case CallerNamespace => caller.k8sNamespace
      case CallerService => caller.k8sService
      case CallerCluster => caller.k8sCluster
      case CallerVM => caller.vmHostname
      case _ => ""
  }

  lemma CompletedFills(rec: FusedRecord, content: Observation, f: Field)
    ensures ValueOf(Completed(rec, content), f) == if ValueOf(rec, f) != "" then ValueOf(rec, f) else Offered(content, f)
    ensures Completed(rec, content).network.isExternal ==
      if rec.network.isExternal.None? && content.NetworkSide? then Some(content.isExternal) else rec.network.isExternal
  {}

  /** Row k is the first of record i to offer something for the field. */
  predicate FirstOffer(sigs: seq<APISignature>, rows: seq<ObservationRow>, i: nat, f: Field, k: nat) {
    && k < |rows| && FirstMatch(sigs, rows[k]) == i && Offered(rows[k].content, f) != ""
    && forall m :: 0 <= m < k && FirstMatch(sigs, rows[m]) == i ==> Offered(rows[m].content, f) == ""
  }

  lemma {:induction false} NoOffer(recs: seq<FusedRecord>, sigs: seq<APISignature>, rows: seq<ObservationRow>, i: nat, f: Field)
    requires |recs| == |sigs| && i < |recs|
    requires forall m :: 0 <= m < |rows| && FirstMatch(sigs, rows[m]) == i ==> Offered(rows[m].content, f) == ""
    ensures ValueOf(AttachAll(recs, sigs, rows)[i], f) == ValueOf(recs[i], f)
    decreases |rows|
  {
    if rows != [] {
      var n := |rows| - 1;
      AttachSnoc(recs, sigs, rows, i);
      CompletedFills(AttachAll(recs, sigs, rows[..n])[i], rows[n].content, f);
      hide FirstMatch, AttachAll, Completed, Offered, ValueOf;
      NoOffer(recs, sigs, rows[..n], i, f);
    }
  }

  lemma EarlierOffer(sigs: seq<APISignature>, rows: seq<ObservationRow>, i: nat, f: Field, k: nat)
    requires FirstOffer(sigs, rows, i, f, k) && k < |rows| - 1
    ensures FirstOffer(sigs, rows[..|rows| - 1], i, f, k) && Offered(rows[k].content, f) != ""
  {
    hide FirstMatch, Offered;
  }

  lemma OfferedLast(sigs: seq<APISignature>, rows: seq<ObservationRow>, i: nat, f: Field)
    requires rows != [] && FirstOffer(sigs, rows, i, f, |rows| - 1)
    ensures var n := |rows| - 1;
      FirstMatch(sigs, rows[n]) == i
      && forall m :: 0 <= m < n && FirstMatch(sigs, rows[..n][m]) == i ==> Offered(rows[..n][m].content, f) == ""
  {
    hide FirstMatch, Offered;
  }

  /** A field that is not known takes the first value that a row of the record offers, and keeps it. */
  lemma {:induction false} AttachFills(recs: seq<FusedRecord>, sigs: seq<APISignature>, rows: seq<ObservationRow>,
                                       i: nat, f: Field, k: nat)
    requires |recs| == |sigs| && i < |recs| && ValueOf(recs[i], f) == "" && FirstOffer(sigs, rows, i, f, k)
    ensures ValueOf(AttachAll(recs, sigs, rows)[i], f) == Offered(rows[k].content, f)
    decreases |rows|
  {
    var n := |rows| - 1;
    AttachSnoc(recs, sigs, rows, i);
    CompletedFills(AttachAll(recs, sigs, rows[..n])[i], rows[n].content, f);
    hide FirstMatch, AttachAll, Completed, Offered, ValueOf;
    if k < n {
      EarlierOffer(sigs, rows, i, f, k);
      AttachFills(recs, sigs, rows[..n], i, f, k);
    } else {
      OfferedLast(sigs, rows, i, f);
      hide FirstOffer;
      NoOffer(recs, sigs, rows[..n], i, f);
    }
  }

  // ---------- Hits and order ----------

  function SumRecords(recs: seq<FusedRecord>): int {
    if recs == [] then 0 else SumRecords(recs[..|recs| - 1]) + recs[|recs| - 1].sig.hitCount
  }

  function SumAt(recs: seq<FusedRecord>, at: seq<int>): int
    requires forall k :: 0 <= k < |at| ==> 0 <= at[k] < |recs|
  {
    if at == [] then 0 else SumAt(recs, at[..|at| - 1]) + recs[at[|at| - 1]].sig.hitCount
  }

  function Indices(n: nat): seq<int> {
    seq(n, i => i)
  }

  lemma IndicesHold(n: nat)
    ensures forall i :: 0 <= i < n ==> i in Indices(n)
    ensures forall k :: 0 <= k < |Indices(n)| ==> 0 <= Indices(n)[k] < n
  {
    forall i | 0 <= i < n
      ensures i in Indices(n)
    {
      assert Indices(n)[i] == i;
    }
  }

  lemma {:induction false} SumAtAll(recs: seq<FusedRecord>, n: nat)
    requires n <= |recs|
    ensures SumAt(recs, Indices(n)) == SumRecords(recs[..n])
    decreases n
  {
    if n > 0 {
      SumAtAll(recs, n - 1);
      assert Indices(n)[..n - 1] == Indices(n - 1);
      assert recs[..n][..n - 1] == recs[..n - 1];
    }
  }

  lemma {:induction false} SumAtRemove(recs: seq<FusedRecord>, at: seq<int>, k: nat)
    requires k < |at| && forall j :: 0 <= j < |at| ==> 0 <= at[j] < |recs|
    ensures SumAt(recs, at) == SumAt(recs, at[..k] + at[k + 1..]) + recs[at[k]].sig.hitCount
    decreases |at|
  {
    var n := |at| - 1;
    if k == n {
      assert at[..k] + at[k + 1..] == at[..n];
    } else {
      SumAtRemove(recs, at[..n], k);
      assert (at[..k] + at[k + 1..])[..n - 1] == at[..n][..k] + at[..n][k + 1..];
    }
  }

  /** records is recs in some order, each with its derived fields: from lists the positions, and as many
      positions as records that cover all of them is a permutation. */
  ghost predicate Reordered(records: seq<FusedRecord>, recs: seq<FusedRecord>, from: seq<int>, deriver: Deriver) {
    && |from| == |recs| == |records|
    && (forall i :: 0 <= i < |recs| ==> i in from)
    && forall j :: 0 <= j < |from| ==> 0 <= from[j] < |recs| && records[j] == recs[from[j]].(derived := deriver(recs[from[j]]))
  }

  ghost predicate Listed(records: seq<FusedRecord>, recs: seq<FusedRecord>, from: seq<int>, pending: seq<int>,
                         deriver: Deriver) {
    && |records| == |from| && |from| + |pending| == |recs|
    && (forall i :: 0 <= i < |recs| ==> i in from || i in pending)
    && forall j :: 0 <= j < |from| ==> 0 <= from[j] < |recs| && records[j] == recs[from[j]].(derived := deriver(recs[from[j]]))
  }

  lemma ListedStep(records: seq<FusedRecord>, recs: seq<FusedRecord>, from: seq<int>, pending: seq<int>,
                   deriver: Deriver, k: nat)
    requires Listed(records, recs, from, pending, deriver) && k < |pending| && 0 <= pending[k] < |recs|
    ensures Listed(records + [recs[pending[k]].(derived := deriver(recs[pending[k]]))], recs, from + [pending[k]],
                   pending[..k] + pending[k + 1..], deriver)
  {
    assert pending == pending[..k] + [pending[k]] + pending[k + 1..];
  }

  lemma SumSnoc(recs: seq<FusedRecord>, rec: FusedRecord)
    ensures SumRecords(recs + [rec]) == SumRecords(recs) + rec.sig.hitCount
  {
    assert (recs + [rec])[..|recs|] == recs;
  }

  predicate Within(at: seq<int>, n: nat) {
    forall k :: 0 <= k < |at| ==> 0 <= at[k] < n
  }

  /** The state of the loop: the records so far are listed, and the sum of the hits is that of all records. */
  ghost predicate Deriving(records: seq<FusedRecord>, recs: seq<FusedRecord>, from: seq<int>, pending: seq<int>, deriver: Deriver) {
    && Within(pending, |recs|)
    && Listed(records, recs, from, pending, deriver)
    && SumRecords(records) + SumAt(recs, pending) == SumRecords(recs)
  }

  lemma DerivingStart(recs: seq<FusedRecord>, deriver: Deriver)
    ensures Deriving([], recs, [], Indices(|recs|), deriver)
  {
    SumAtAll(recs, |recs|);
    assert recs[..|recs|] == recs;
    IndicesHold(|recs|);
    hide SumAt;
  }

  lemma DerivingStep(records: seq<FusedRecord>, recs: seq<FusedRecord>, from: seq<int>, pending: seq<int>, deriver: Deriver, k: nat)
    requires Deriving(records, recs, from, pending, deriver) && k < |pending|
    ensures 0 <= pending[k] < |recs|
    ensures Deriving(records + [recs[pending[k]].(derived := deriver(recs[pending[k]]))], recs, from + [pending[k]],
                     pending[..k] + pending[k + 1..], deriver)
  {
    ListedStep(records, recs, from, pending, deriver, k);
    SumAtRemove(recs, pending, k);
    SumSnoc(records, recs[pending[k]].(derived := deriver(recs[pending[k]])));
    hide SumRecords, SumAt, Listed;
  }

  lemma DerivingEnd(records: seq<FusedRecord>, recs: seq<FusedRecord>, from: seq<int>, deriver: Deriver)
    requires Deriving(records, recs, from, [], deriver)
    ensures Reordered(records, recs, from, deriver) && SumRecords(records) == SumRecords(recs)
  {}

  lemma HeldAt(fusionMap: map<int, FusedRecord>, recs: seq<FusedRecord>, i: int)
    requires Holds(fusionMap, recs) && 0 <= i < |recs|
    ensures i in fusionMap && fusionMap[i] == recs[i]
  {}

  /** The loop over the fusion map, which holds the positions below n and is ranged over in any order. */
  method Derive(fusionMap: map<int, FusedRecord>, n: nat, deriver: Deriver, ghost recs: seq<FusedRecord>)
    returns (records: seq<FusedRecord>, ghost from: seq<int>)
    requires |recs| == n && Holds(fusionMap, recs)
    ensures Reordered(records, recs, from, deriver)
    ensures SumRecords(records) == SumRecords(recs)
  {
    hide *;
    var pending := Indices(n);
    records, from := [], [];
    DerivingStart(recs, deriver);
    while pending != []
      invariant Deriving(records, recs, from, pending, deriver)
      decreases |pending|
    {
      var k :| 0 <= k < |pending|;
      var i := pending[k];
      DerivingStep(records, recs, from, pending, deriver, k);
      HeldAt(fusionMap, recs, i);
      records := records + [fusionMap[i].(derived := deriver(fusionMap[i]))];
      from := from + [i];
      pending := pending[..k] + pending[k + 1..];
    }
    DerivingEnd(records, recs, from, deriver);
  }

  function FreshRecord(sig: APISignature): FusedRecord {
    FusedRecord(sig, sig.requestDomain, NO_SERVER, NO_NETWORK, NO_CALLER, Derived("", "", ""))
  }

  function Fresh(sigs: seq<APISignature>): (r: seq<FusedRecord>)
    ensures |r| == |sigs|
  {
    seq(|sigs|, i requires 0 <= i < |sigs| => FreshRecord(sigs[i]))
  }

  /** The replies to the three enrichment queries; a failed one is none. */
  datatype Observations = Observations(sp: Option<seq<ObservationRow>>, s: Option<seq<ObservationRow>>,
                                       cp: Option<seq<ObservationRow>>)

  function AttachReply(recs: seq<FusedRecord>, sigs: seq<APISignature>, reply: Option<seq<ObservationRow>>): (r: seq<FusedRecord>)
    requires |recs| == |sigs|
    ensures |r| == |recs|
  {
    match reply
    case None => recs
    case Some(rows) => AttachAll(recs, sigs, rows)
  }

  /** What the records are before the last loop: the rows of each query that succeeded are attached in turn. */
  function Fused(sigs: seq<APISignature>, replies: Observations): (r: seq<FusedRecord>)
    ensures |r| == |sigs|
  {
    AttachReply(AttachReply(AttachReply(Fresh(sigs), sigs, replies.sp), sigs, replies.s), sigs, replies.cp)
  }

  lemma ReplyKeeps(recs: seq<FusedRecord>, sigs: seq<APISignature>, reply: Option<seq<ObservationRow>>, i: nat)
    requires |recs| == |sigs| && i < |recs|
    ensures KnownStays(recs[i], AttachReply(recs, sigs, reply)[i])
  {
    match reply
    case None =>
    case Some(rows) => AttachKeeps(recs, sigs, rows, i);
  }

  /** The signature of every record is the one it was made from, and its known domain stays. */
  lemma FusedKnows(sigs: seq<APISignature>, replies: Observations, i: nat)
    requires i < |sigs|
    ensures KnownStays(FreshRecord(sigs[i]), Fused(sigs, replies)[i])
  {
    var one := AttachReply(Fresh(sigs), sigs, replies.sp);
    var two := AttachReply(one, sigs, replies.s);
    ReplyKeeps(Fresh(sigs), sigs, replies.sp, i);
    ReplyKeeps(one, sigs, replies.s, i);
    ReplyKeeps(two, sigs, replies.cp, i);
    hide KnownStays, AttachReply;
    KnownStaysTrans(Fresh(sigs)[i], one[i], two[i]);
    KnownStaysTrans(Fresh(sigs)[i], two[i], Fused(sigs, replies)[i]);
  }

  function RowsOf(reply: Option<seq<ObservationRow>>): seq<ObservationRow> {
    if reply.Some? then reply.value else []
  }

  /** The rows of the three replies in the order in which they are attached: server, network, client side. */
  function AllRows(replies: Observations): seq<ObservationRow> {
    RowsOf(replies.sp) + RowsOf(replies.s) + RowsOf(replies.cp)
  }

  lemma AttachNext(recs: seq<FusedRecord>, sigs: seq<APISignature>, rows: seq<ObservationRow>, row: ObservationRow)
    requires |recs| == |sigs|
    ensures AttachAll(recs, sigs, rows + [row]) == AttachOne(AttachAll(recs, sigs, rows), sigs, row)
  {
    hide AttachOne;
    assert (rows + [row])[..|rows|] == rows;
  }

  lemma {:induction false} AttachConcat(recs: seq<FusedRecord>, sigs: seq<APISignature>, a: seq<ObservationRow>, b: seq<ObservationRow>)
    requires |recs| == |sigs|
    ensures AttachAll(AttachAll(recs, sigs, a), sigs, b) == AttachAll(recs, sigs, a + b)
    decreases |b|
  {
    if b == [] {
      assert a + b == a;
    } else {
      var n := |b| - 1;
      AttachConcat(recs, sigs, a, b[..n]);
      AttachNext(AttachAll(recs, sigs, a), sigs, b[..n], b[n]);
      AttachNext(recs, sigs, a + b[..n], b[n]);
      hide AttachOne, AttachAll;
      assert b == b[..n] + [b[n]];
      assert a + b == (a + b[..n]) + [b[n]];
    }
  }

  /** The three replies work as one list of rows. */
  lemma FusedIsAttach(sigs: seq<APISignature>, replies: Observations)
    ensures Fused(sigs, replies) == AttachAll(Fresh(sigs), sigs, AllRows(replies))
  {
    AttachConcat(Fresh(sigs), sigs, RowsOf(replies.sp), RowsOf(replies.s));
    AttachConcat(Fresh(sigs), sigs, RowsOf(replies.sp) + RowsOf(replies.s), RowsOf(replies.cp));
    hide Fresh;
  }

  /** In the enriched record of a signature a field unknown to the signature has the first value offered by a
      row of the three replies, and the place is that of the last server-side row. */
  lemma FusedFields(sigs: seq<APISignature>, replies: Observations, i: nat)
    requires i < |sigs|
    ensures forall f: Field, k: nat :: FirstOffer(sigs, AllRows(replies), i, f, k) && (f.Domain? ==> sigs[i].requestDomain == "") ==>
      ValueOf(Fused(sigs, replies)[i], f) == Offered(AllRows(replies)[k].content, f)
    ensures forall k: nat :: LastServerRow(sigs, AllRows(replies), i, k) ==>
      Fused(sigs, replies)[i].server == AllRows(replies)[k].content.server
    ensures Fused(sigs, replies)[i].sig == sigs[i]
  {
    FusedIsAttach(sigs, replies);
    FusedKnows(sigs, replies, i);
    assert Fresh(sigs)[i] == FreshRecord(sigs[i]);
    hide Fused, AllRows, AttachAll, FirstOffer, LastServerRow, Offered;
    forall f: Field, k: nat | FirstOffer(sigs, AllRows(replies), i, f, k) && (f.Domain? ==> sigs[i].requestDomain == "")
      ensures k < |AllRows(replies)| && ValueOf(Fused(sigs, replies)[i], f) == Offered(AllRows(replies)[k].content, f)
    {
      AttachFills(Fresh(sigs), sigs, AllRows(replies), i, f, k);
      OfferPlace(sigs, AllRows(replies), i, f, k);
    }
    forall k: nat | LastServerRow(sigs, AllRows(replies), i, k)
      ensures k < |AllRows(replies)| && AllRows(replies)[k].content.ServerSide?
      ensures Fused(sigs, replies)[i].server == AllRows(replies)[k].content.server
    {
      ServerPlace(sigs, AllRows(replies), i, k);
      AttachPlaces(Fresh(sigs), sigs, AllRows(replies), i, k);
    }
  }

  lemma OfferPlace(sigs: seq<APISignature>, rows: seq<ObservationRow>, i: nat, f: Field, k: nat)
    requires FirstOffer(sigs, rows, i, f, k)
    ensures k < |rows|
  {}

  lemma ServerPlace(sigs: seq<APISignature>, rows: seq<ObservationRow>, i: nat, k: nat)
    requires LastServerRow(sigs, rows, i, k)
    ensures k < |rows| && rows[k].content.ServerSide?
  {}

  lemma {:induction false} FusedHits(recs: seq<FusedRecord>, fused: seq<FusedRecord>)
    requires |fused| == |recs| && forall i :: 0 <= i < |recs| ==> fused[i].sig == recs[i].sig
    ensures SumRecords(fused) == SumRecords(recs)
    decreases |recs|
  {
    if recs != [] {
      FusedHits(recs[..|recs| - 1], fused[..|recs| - 1]);
    }
  }

  method AttachIfAny(fusionMap: map<int, FusedRecord>, sigs: seq<APISignature>, reply: Option<seq<ObservationRow>>,
                     ghost recs: seq<FusedRecord>) returns (fused: map<int, FusedRecord>)
    requires |recs| == |sigs| && Holds(fusionMap, recs)
    ensures Holds(fused, AttachReply(recs, sigs, reply))
  {
    fused := fusionMap;
    if reply.Some? {
      fused := Attach(fusionMap, sigs, reply.value, recs);
    }
  }

  method FuseMap(sigs: seq<APISignature>) returns (fusionMap: map<int, FusedRecord>)
    ensures Holds(fusionMap, Fresh(sigs))
  {
    hide FreshRecord;
    fusionMap := map[];
    for i := 0 to |sigs|
      invariant Holds(fusionMap, Fresh(sigs)[..i])
    {
      fusionMap := fusionMap[i := FreshRecord(sigs[i])];
    }
    assert Fresh(sigs)[..|sigs|] == Fresh(sigs);
  }

  /** Enrichment gives one record per signature, in some order, and keeps the sum of the hits. */
  method Enrich(sigs: seq<APISignature>, replies: Observations, deriver: Deriver)
    returns (records: seq<FusedRecord>, ghost from: seq<int>)
    ensures Reordered(records, Fused(sigs, replies), from, deriver)
    ensures SumRecords(records) == SumRecords(Fresh(sigs))
  {
    if |sigs| == 0 {
      return [], [];
    }
    var fusionMap := FuseMap(sigs);
    ghost var one := AttachReply(Fresh(sigs), sigs, replies.sp);
    ghost var two := AttachReply(one, sigs, replies.s);
    fusionMap := AttachIfAny(fusionMap, sigs, replies.sp, Fresh(sigs));
    fusionMap := AttachIfAny(fusionMap, sigs, replies.s, one);
    fusionMap := AttachIfAny(fusionMap, sigs, replies.cp, two);
    ghost var fused := Fused(sigs, replies);
    forall i | 0 <= i < |sigs|
      ensures fused[i].sig == Fresh(sigs)[i].sig
    {
      FusedKnows(sigs, replies, i);
    }
    hide Fused, AttachReply, Fresh, Holds, Reordered;
    FusedHits(Fresh(sigs), fused);
    records, from := Derive(fusionMap, |sigs|, deriver, fused);
  }
}
