/** internal/catalog/reconcile.go: finding and deleting catalog entries that belong to nobody. */
module Reconcile {
  import opened Model
  import opened ServiceCatalog
  import opened CatalogPush
  import opened UnmanagedRepository

  // ---------- The ownership marker ----------

  /** The scan behind (.+?)\] : from position i on, the next closing bracket, unless a newline comes first. */
  function ClosingFrom(s: string, i: nat): (r: Option<nat>)
    requires i <= |s|
    ensures r.Some? ==> i <= r.value < |s| && s[r.value] == ']'
    ensures r.Some? ==> forall k :: i <= k < r.value ==> s[k] != '\n' && s[k] != ']'
    ensures r.None? ==> forall j :: i <= j < |s| && s[j] == ']' ==> exists k :: i <= k < j && s[k] == '\n'
    decreases |s| - i
  {
    if i == |s| || s[i] == '\n' then None
    else if s[i] == ']' then Some(i)
    else ClosingFrom(s, i + 1)
  }

  const PREFIX := "[ADC:"

  /** The owner at the start of the text behind the prefix. */
  function OwnerIn(rest: string): string {
    if rest == "" || rest[0] == '\n' then ""
    else
      match ClosingFrom(rest, 1)
      case None => ""
      case Some(j) => rest[..j]
  }

  /** parseOwner: the shortest non-empty stretch without a newline between "[ADC:" and a closing bracket. */
  function ParseOwner(description: string): string {
    if PREFIX <= description then OwnerIn(description[|PREFIX|..]) else ""
  }

  /** What the group of the marker expression may match: a non-empty text without newlines and without
      a closing bracket after its first character. These are the hostnames that a marker can carry. */
  predicate Markable(owner: string) {
    owner != "" && '\n' !in owner && forall k :: 1 <= k < |owner| ==> owner[k] != ']'
  }

  predicate MarkerMatches(description: string, owner: string) {
    Markable(owner) && PREFIX + (owner + "]") <= description
  }

  lemma OwnerInMatches(rest: string, owner: string)
    requires Markable(owner) && owner + "]" <= rest
    ensures OwnerIn(rest) == owner
  {
    var n := |owner|;
    var closed := owner + "]";
    assert forall k :: 0 <= k < n ==> rest[k] == closed[k] == owner[k] && owner[k] in owner;
    assert rest[n] == closed[n] == ']';
    var r := ClosingFrom(rest, 1);
    hide ClosingFrom;
    assert r == Some(n);
    assert rest[..n] == owner;
  }

  lemma OwnerInIsMatch(rest: string)
    requires OwnerIn(rest) != ""
    ensures Markable(OwnerIn(rest)) && OwnerIn(rest) + "]" <= rest
  {
    var r := ClosingFrom(rest, 1);
    hide ClosingFrom;
    var owner := rest[..r.value];
    assert forall k :: 0 <= k < |owner| ==> owner[k] == rest[k];
    assert owner + "]" == rest[..r.value + 1];
  }

  /** ParseOwner returns the matched text, and "" exactly when nothing matches. */
  lemma ParseOwnerIff(description: string, owner: string)
    ensures MarkerMatches(description, owner) <==> owner != "" && ParseOwner(description) == owner
  {
    hide OwnerIn, Markable;
    if MarkerMatches(description, owner) {
      var rest := description[|PREFIX|..];
      assert PREFIX + (owner + "]") == description[..|PREFIX| + |owner| + 1];
      assert PREFIX == description[..|PREFIX|];
      assert rest[..|owner| + 1] == owner + "]";
      OwnerInMatches(rest, owner);
      assert owner != "" by { MarkableNonEmpty(owner); }
    }
    if owner != "" && ParseOwner(description) == owner {
      var rest := description[|PREFIX|..];
      OwnerInIsMatch(rest);
      assert description == PREFIX + rest;
      assert rest == owner + "]" + rest[|owner| + 1..];
      assert description == PREFIX + (owner + "]") + rest[|owner| + 1..];
    }
  }

  lemma MarkableNonEmpty(owner: string)
    requires Markable(owner)
    ensures owner != ""
  {}

  /** The marker gives back the hostname, whatever text follows it, exactly for markable hostnames. */
  lemma MarkerRoundTripIff(hostname: string)
    ensures (forall suffix :: ParseOwner(OwnershipMarker(hostname) + suffix) == hostname) <==> Markable(hostname)
  {
    if Markable(hostname) {
      forall suffix
        ensures ParseOwner(OwnershipMarker(hostname) + suffix) == hostname
      {
        MarkerRoundTrip(hostname, suffix);
      }
    } else if hostname == "" {
      EmptyHostname();
      assert ParseOwner(OwnershipMarker(hostname) + "x]") != hostname;
    } else {
      var d := OwnershipMarker(hostname) + "";
      ParseOwnerIff(d, hostname);
    }
  }

  lemma MarkerRoundTrip(hostname: string, suffix: string)
    requires Markable(hostname)
    ensures ParseOwner(OwnershipMarker(hostname) + suffix) == hostname
  {
    var d := OwnershipMarker(hostname) + suffix;
    assert OwnershipMarker(hostname) == PREFIX + (hostname + "]");
    ParseOwnerIff(d, hostname);
  }

  /** With an empty hostname the text after the marker is read as an owner. */
  lemma EmptyHostname()
    ensures ParseOwner(OwnershipMarker("") + "x]") == "]x"
  {
    var d := OwnershipMarker("") + "x]";
    assert d == PREFIX + ("]x" + "]");
    ParseOwnerIff(d, "]x");
  }

  // ---------- The run ----------

  datatype ReconcileConfig = ReconcileConfig(enabled: bool, cleanupUnowned: bool)

  predicate Unowned(e: ListEntry, tracked: set<string>, hostname: string) {
    e.id !in tracked && ParseOwner(e.description) != hostname && ParseOwner(e.description) == ""
  }

  /** The listing shows each catalog entry once, as it is. */
  predicate Lists(listing: seq<ListEntry>, c: Entries) {
    && (forall i, j :: 0 <= i < j < |listing| ==> listing[i].id != listing[j].id)
    && (forall e :: e in listing ==> e.id in c && c[e.id].name == e.name && c[e.id].description == e.description)
    && (forall id :: id in c ==> exists i :: 0 <= i < |listing| && listing[i].id == id)
  }

  function UnownedIds(listing: seq<ListEntry>, tracked: set<string>, hostname: string): set<string> {
    set e | e in listing && Unowned(e, tracked, hostname) :: e.id
  }

  datatype Counts = Counts(ours: nat, otherADC: nat, unowned: nat, deleted: nat)

  /** Another controller's: untracked, with a marker that names a different host. */
  predicate OwnedElsewhere(e: ListEntry, tracked: set<string>, hostname: string) {
    e.id !in tracked && ParseOwner(e.description) != hostname && ParseOwner(e.description) != ""
  }

  /** How many entries are of each kind; those neither unowned nor owned elsewhere count as ours. */
  function Census(entries: seq<ListEntry>, tracked: set<string>, hostname: string): (nat, nat, nat) {
    if entries == [] then (0, 0, 0)
    else
      var e, before := entries[|entries| - 1], Census(entries[..|entries| - 1], tracked, hostname);
      if Unowned(e, tracked, hostname) then (before.0, before.1, before.2 + 1)
      else if OwnedElsewhere(e, tracked, hostname) then (before.0, before.1 + 1, before.2)
      else (before.0 + 1, before.1, before.2)
  }

  lemma CensusNext(entries: seq<ListEntry>, i: nat, tracked: set<string>, hostname: string)
    requires i < |entries|
    ensures var e, before := entries[i], Census(entries[..i], tracked, hostname);
      Census(entries[..i + 1], tracked, hostname) ==
        if Unowned(e, tracked, hostname) then (before.0, before.1, before.2 + 1)
        else if OwnedElsewhere(e, tracked, hostname) then (before.0, before.1 + 1, before.2)
        else (before.0 + 1, before.1, before.2)
  {
    hide ParseOwner;
    assert entries[..i + 1][..i] == entries[..i];
  }

  lemma NoCensus(tracked: set<string>, hostname: string)
    ensures Census([], tracked, hostname) == (0, 0, 0)
  {}

  /** The positions of the untracked entries without a marker; there are none to speak of for an empty hostname. */
  function UnownedAt(entries: seq<ListEntry>, tracked: set<string>, hostname: string): set<nat> {
    set i: nat | i < |entries| && entries[i].id !in tracked && ParseOwner(entries[i].description) == "" && hostname != ""
  }

  /** The positions of the untracked entries whose marker names another host. */
  function ElsewhereAt(entries: seq<ListEntry>, tracked: set<string>, hostname: string): set<nat> {
    set i: nat | i < |entries| && entries[i].id !in tracked && ParseOwner(entries[i].description) !in {"", hostname}
  }

  lemma UnownedSnoc(entries: seq<ListEntry>, tracked: set<string>, hostname: string)
    requires entries != []
    ensures var n := |entries| - 1;
      |UnownedAt(entries, tracked, hostname)| == |UnownedAt(entries[..n], tracked, hostname)|
        + (if Unowned(entries[n], tracked, hostname) then 1 else 0)
  {
    hide ParseOwner;
    var n := |entries| - 1;
    assert UnownedAt(entries, tracked, hostname) ==
      UnownedAt(entries[..n], tracked, hostname) + (if Unowned(entries[n], tracked, hostname) then {n} else {});
  }

  lemma ElsewhereSnoc(entries: seq<ListEntry>, tracked: set<string>, hostname: string)
    requires entries != []
    ensures var n := |entries| - 1;
      |ElsewhereAt(entries, tracked, hostname)| == |ElsewhereAt(entries[..n], tracked, hostname)|
        + (if OwnedElsewhere(entries[n], tracked, hostname) then 1 else 0)
  {
    hide ParseOwner;
    var n := |entries| - 1;
    assert ElsewhereAt(entries, tracked, hostname) ==
      ElsewhereAt(entries[..n], tracked, hostname) + (if OwnedElsewhere(entries[n], tracked, hostname) then {n} else {});
  }

  /** A run counts every entry once; the others are the controller's own. */
  lemma {:induction false} CensusCounts(entries: seq<ListEntry>, tracked: set<string>, hostname: string)
    ensures var (ours, other, unowned) := Census(entries, tracked, hostname);
      && ours + other + unowned == |entries|
      && unowned == |UnownedAt(entries, tracked, hostname)| && other == |ElsewhereAt(entries, tracked, hostname)|
    decreases |entries|
  {
    if entries == [] {
      assert UnownedAt(entries, tracked, hostname) == {} == ElsewhereAt(entries, tracked, hostname);
    } else {
      CensusCounts(entries[..|entries| - 1], tracked, hostname);
      UnownedSnoc(entries, tracked, hostname);
      ElsewhereSnoc(entries, tracked, hostname);
      hide UnownedAt, ElsewhereAt, ParseOwner;
    }
  }

  class Reconciler {
    const cfg: ReconcileConfig
    const hostname: string
    const client: Catalog
    const repo: UnmanagedRepo

    constructor (cfg: ReconcileConfig, hostname: string, client: Catalog, repo: UnmanagedRepo)
      ensures this.cfg == cfg && this.hostname == hostname && this.client == client && this.repo == repo
    {
      this.cfg, this.hostname, this.client, this.repo := cfg, hostname, client, repo;
    }

    /** The paging loop collects every entry of the listing once, whatever the page sizes are. */
    method FetchAll(listing: seq<ListEntry>) returns (ok: bool, allEntries: seq<ListEntry>)
      modifies client`failures
      ensures client.failures == old(client.failures) + if ok then 0 else 1
      ensures ok ==> allEntries == listing
    {
      allEntries := [];
      var offset := 0;
      while true
        invariant offset <= |listing| && allEntries == listing[..offset]
        invariant client.failures == old(client.failures)
        decreases |listing| - offset
      {
        var listed, entries, total := client.ListServices(listing, 100, offset);
        if !listed {
          return false, allEntries;
        }
        allEntries := allEntries + entries;
        offset := offset + |entries|;
        if offset >= total || |entries| == 0 {
          break;
        }
      }
      assert listing[..offset] == listing;
      return true, allEntries;
    }

    /** Deletes unowned entries when cleanup is on: never any other, and all of them if no delete fails. */
    method Sweep(allEntries: seq<ListEntry>, trackedIDs: set<string>) returns (counts: Counts)
      modifies client
      ensures UniqueNames(old(client.entries)) ==> UniqueNames(client.entries)
      ensures (counts.ours, counts.otherADC, counts.unowned) == Census(allEntries, trackedIDs, hostname)
      ensures !cfg.cleanupUnowned ==> client.entries == old(client.entries)
      ensures client.entries.Keys <= old(client.entries.Keys)
      ensures forall id :: id in client.entries ==> client.entries[id] == old(client.entries)[id]
      ensures old(client.entries.Keys) - client.entries.Keys <= UnownedIds(allEntries, trackedIDs, hostname)
      ensures cfg.cleanupUnowned && counts.deleted == counts.unowned ==>
                forall id :: id in UnownedIds(allEntries, trackedIDs, hostname) ==> id !in client.entries
      ensures counts.deleted <= counts.unowned
      ensures client.failures == old(client.failures) + if cfg.cleanupUnowned then counts.unowned - counts.deleted else 0
    {
      counts := Counts(0, 0, 0, 0);
      hide ParseOwner, Census;
      NoCensus(trackedIDs, hostname);
      assert allEntries[..0] == [];
      for i := 0 to |allEntries|
        invariant (counts.ours, counts.otherADC, counts.unowned) == Census(allEntries[..i], trackedIDs, hostname)
        invariant UniqueNames(old(client.entries)) ==> UniqueNames(client.entries)
        invariant !cfg.cleanupUnowned ==> client.entries == old(client.entries)
        invariant client.entries.Keys <= old(client.entries.Keys)
        invariant forall id :: id in client.entries ==> client.entries[id] == old(client.entries)[id]
        invariant old(client.entries.Keys) - client.entries.Keys <= UnownedIds(allEntries, trackedIDs, hostname)
        invariant cfg.cleanupUnowned && counts.deleted == counts.unowned ==>
                    forall j :: 0 <= j < i && Unowned(allEntries[j], trackedIDs, hostname) ==> allEntries[j].id !in client.entries
        invariant counts.deleted <= counts.unowned
        invariant client.failures == old(client.failures) + if cfg.cleanupUnowned then counts.unowned - counts.deleted else 0
      {
        var entry := allEntries[i];
        CensusNext(allEntries, i, trackedIDs, hostname);
        if entry.id in trackedIDs {
          counts := counts.(ours := counts.ours + 1);
          continue;
        }
        var owner := ParseOwner(entry.description);
        if owner == hostname {
          counts := counts.(ours := counts.ours + 1);
          continue;
        }
        if owner != "" {
          counts := counts.(otherADC := counts.otherADC + 1);
          continue;
        }
        counts := counts.(unowned := counts.unowned + 1);
        assert Unowned(entry, trackedIDs, hostname);
        if cfg.cleanupUnowned {
          assert entry.id in UnownedIds(allEntries, trackedIDs, hostname);
          var ok := client.DeleteService(entry.id);
          if !ok {
            continue;
          }
          counts := counts.(deleted := counts.deleted + 1);
        }
      }
      assert allEntries[..|allEntries|] == allEntries;
    }

    method Run(listing: seq<ListEntry>) returns (done: bool, counts: Counts)
      requires Lists(listing, client.entries)
      modifies client, repo`failures
      ensures repo.failures == old(repo.failures) && client.failures == old(client.failures) ==>
                (done <==> cfg.enabled) && (cfg.cleanupUnowned ==> counts.deleted == counts.unowned)
      ensures !done ==> counts == Counts(0, 0, 0, 0)
      ensures UniqueNames(old(client.entries)) ==> UniqueNames(client.entries)
      ensures !done || !cfg.cleanupUnowned ==> client.entries == old(client.entries)
      ensures forall id :: id in old(client.entries) && (IsTracked(repo.rows, id) || hostname == ""
                                                         || ParseOwner(old(client.entries)[id].description) != "") ==>
                id in client.entries
      ensures forall id :: id in client.entries ==> id in old(client.entries) && client.entries[id] == old(client.entries)[id]
      ensures done && cfg.cleanupUnowned && counts.deleted == counts.unowned ==>
                forall id :: id in old(client.entries) ==>
                  (id in client.entries <==> IsTracked(repo.rows, id) || hostname == ""
                                             || ParseOwner(old(client.entries)[id].description) != "")
    {
      done, counts := false, Counts(0, 0, 0, 0);
      if !cfg.enabled {
        return;
      }
      var loaded, trackedIDs := repo.TrackedCatalogServiceIDs();
      if !loaded {
        return;
      }
      var fetched, allEntries := FetchAll(listing);
      if !fetched {
        return;
      }
      ListedUnowned(listing, client.entries, repo.rows, trackedIDs, hostname);
      counts := Sweep(allEntries, trackedIDs);
      done := true;
    }
  }

  predicate IsTracked(rows: UnmanagedTable.Table, id: string) {
    exists k :: k in rows && rows[k].catalogServiceId == Some(id)
  }

  /** The ids that a sweep may delete: untracked, unmarked, and none at all for an empty hostname. */
  lemma ListedUnowned(listing: seq<ListEntry>, c: Entries, rows: UnmanagedTable.Table, tracked: set<string>, hostname: string)
    requires Lists(listing, c)
    requires tracked == set k | k in rows && rows[k].catalogServiceId.Some? :: rows[k].catalogServiceId.value
    ensures forall id :: id in UnownedIds(listing, tracked, hostname) <==>
      id in c && !IsTracked(rows, id) && hostname != "" && ParseOwner(c[id].description) == ""
  {
    hide ParseOwner;
    assert forall id :: id in tracked <==> IsTracked(rows, id);
    forall id | id in c && !IsTracked(rows, id) && hostname != "" && ParseOwner(c[id].description) == ""
      ensures id in UnownedIds(listing, tracked, hostname)
    {
      var i :| 0 <= i < |listing| && listing[i].id == id;
      assert listing[i] in listing;
      assert Unowned(listing[i], tracked, hostname);
    }
  }

  /** The text behind the prefix in a published description. */
  function PublishedRest(pg: PushGroup, cfg: Config): string {
    cfg.hostname + ("] " + ClassDescription(pg.group))
  }

  lemma PublishedText(pg: PushGroup, cfg: Config, version: string)
    ensures Published(pg, cfg, version).description == PREFIX + PublishedRest(pg, cfg)
    ensures ParseOwner(Published(pg, cfg, version).description) == OwnerIn(PublishedRest(pg, cfg))
  {
    hide ClassDescription, OwnerIn;
    var d := Published(pg, cfg, version).description;
    assert d == PREFIX + PublishedRest(pg, cfg);
    assert d[..|PREFIX|] == PREFIX && d[|PREFIX|..] == PublishedRest(pg, cfg);
  }

  lemma PublishedTail(pg: PushGroup, cfg: Config, tail: string)
    requires tail == "] " + ClassDescription(pg.group)
    ensures PublishedRest(pg, cfg) == cfg.hostname + tail
  {
    hide ClassDescription;
  }

  /** A newline comes before any closing bracket that could end the owner. */
  predicate NewlineFirst(s: string) {
    exists k :: 0 <= k < |s| && s[k] == '\n' && forall m :: 1 <= m < k ==> s[m] != ']'
  }

  lemma OwnerInEmptyIff(rest: string)
    requires exists j :: 1 <= j < |rest| && rest[j] == ']'
    ensures OwnerIn(rest) == "" <==> NewlineFirst(rest)
  {
    var r := ClosingFrom(rest, 1);
    hide ClosingFrom;
    if rest[0] == '\n' {
      assert NewlineFirst(rest);
    } else if r.Some? {
      assert forall k :: 1 <= k < r.value ==> rest[k] != '\n';
      forall k | 0 <= k < |rest| && rest[k] == '\n'
        ensures exists m :: 1 <= m < k && rest[m] == ']'
      {
        assert r.value < k && rest[r.value] == ']';
      }
    } else {
      FirstBracket(rest);
    }
  }

  lemma FirstBracket(rest: string)
    requires exists j :: 1 <= j < |rest| && rest[j] == ']'
    requires ClosingFrom(rest, 1).None?
    ensures NewlineFirst(rest)
  {
    var j := 1;
    while rest[j] != ']'
      invariant 1 <= j < |rest| && forall m :: 1 <= m < j ==> rest[m] != ']'
      invariant exists x :: j <= x < |rest| && rest[x] == ']'
      decreases |rest| - j
    {
      j := j + 1;
    }
    var k :| 1 <= k < j && rest[k] == '\n';
  }

  /** Behind the hostname comes a closing bracket, and behind that one another before any newline. */
  lemma Brackets(g: UnmanagedTable.Group) returns (tail: string, n: nat)
    ensures tail == "] " + ClassDescription(g)
    ensures 1 <= n < |tail| && tail[0] == tail[n] == ']'
    ensures forall k :: 0 <= k <= n ==> tail[k] != '\n'
  {
    var tag := if g.classification == SHADOW then "[SHADOW]" else "[DRIFT]";
    tail, n := "] " + ClassDescription(g), |tag| + 1;
    var rest := ClassDescription(g)[|tag|..];
    assert ClassDescription(g) == tag + rest;
    assert tag[|tag| - 1] == ']' && forall k :: 0 <= k < |tag| ==> tag[k] != '\n';
    hide ClassDescription;
    TagBrackets(tag, rest);
  }

  lemma TagBrackets(tag: string, rest: string)
    requires tag != "" && tag[|tag| - 1] == ']' && forall k :: 0 <= k < |tag| ==> tag[k] != '\n'
    ensures var tail := "] " + (tag + rest);
      tail[0] == tail[|tag| + 1] == ']' && forall k :: 0 <= k <= |tag| + 1 ==> tail[k] != '\n'
  {
    var tail := "] " + (tag + rest);
    assert forall k :: 0 <= k < |tag| ==> tail[k + 2] == tag[k];
    assert forall k :: 2 <= k <= |tag| + 1 ==> tail[k] == tag[k - 2];
  }

  lemma NewlineBehind(h: string, tail: string, n: nat)
    requires 1 <= n < |tail| && tail[0] == tail[n] == ']' && forall k :: 0 <= k <= n ==> tail[k] != '\n'
    ensures NewlineFirst(h + tail) <==> NewlineFirst(h)
  {
    var rest := h + tail;
    assert forall k :: 0 <= k < |h| ==> rest[k] == h[k];
    assert forall k :: 0 <= k < |tail| ==> rest[|h| + k] == tail[k];
    assert rest[|h|] == ']' && rest[|h| + n] == ']';
    forall k | |h| <= k < |rest| && rest[k] == '\n'
      ensures exists m :: 1 <= m < k && rest[m] == ']'
    {
      assert tail[k - |h|] == '\n';
      assert |h| + n < k;
    }
    if NewlineFirst(rest) {
      var k :| 0 <= k < |rest| && rest[k] == '\n' && forall m :: 1 <= m < k ==> rest[m] != ']';
      assert h[k] == '\n';
    }
    if NewlineFirst(h) {
      var k :| 0 <= k < |h| && h[k] == '\n' && forall m :: 1 <= m < k ==> h[m] != ']';
      assert rest[k] == '\n';
    }
  }

  /** A published entry reads as unowned exactly when the hostname has a newline before any closing
      bracket after its first character. */
  lemma PublishedUnownedIff(pg: PushGroup, cfg: Config, version: string)
    ensures ParseOwner(Published(pg, cfg, version).description) == "" <==> NewlineFirst(cfg.hostname)
  {
    hide *;
    PublishedText(pg, cfg, version);
    var tail, n := Brackets(pg.group);
    NewlineBehind(cfg.hostname, tail, n);
    PublishedTail(pg, cfg, tail);
    assert PublishedRest(pg, cfg)[|cfg.hostname| + n] == ']';
    OwnerInEmptyIff(PublishedRest(pg, cfg));
  }

  /** A published entry reads as this controller's own exactly when the hostname is markable. */
  lemma PublishedIsOwned(pg: PushGroup, cfg: Config, version: string)
    ensures ParseOwner(Published(pg, cfg, version).description) == cfg.hostname <==> Markable(cfg.hostname)
  {
    var d, h := Published(pg, cfg, version).description, cfg.hostname;
    if Markable(h) {
      assert d == OwnershipMarker(h) + (" " + ClassDescription(pg.group));
      hide ParseOwner, ClassDescription;
      MarkerRoundTrip(h, " " + ClassDescription(pg.group));
    } else if h == "" {
      hide *;
      PublishedUnownedIff(pg, cfg, version);
      assert !NewlineFirst("") by { NoNewlineFirst(); }
    } else {
      hide ParseOwner, ClassDescription;
      ParseOwnerIff(d, h);
    }
  }

  lemma NoNewlineFirst()
    ensures !NewlineFirst("")
  {}
}
