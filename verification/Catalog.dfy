/** internal/apim/catalog.go: the remote service catalog, as its client sees it. Replies are arbitrary
    within these contracts: names are unique, a failed call changes nothing, a created entry gets an
    unused id, an accepted update rewrites exactly that entry, a delete removes exactly that entry,
    search by name is exact. */
module ServiceCatalog {
  import opened UnmanagedTable

  datatype Entry = Entry(name: string, version: string, description: string, serviceUrl: string, definition: Spec)

  type Entries = map<string, Entry>

  datatype ListEntry = ListEntry(id: string, name: string, version: string, description: string)

  predicate UniqueNames(c: Entries) {
    forall i, j :: i in c && j in c && c[i].name == c[j].name ==> i == j
  }

  predicate NameTaken(c: Entries, name: string) {
    exists i :: i in c && c[i].name == name
  }

  /** How the push protocol reads an error: a conflict (409, or a 500 that may hide one), a rejected
      update (400, or a name that cannot change), or anything else. */
  datatype CreateReply = Created(id: string) | Conflict | CreateFailed
  datatype UpdateReply = Updated | Rejected | UpdateFailed
  datatype LookupReply = Found(id: string) | NotFound | LookupFailed

  /** failures counts the calls that went wrong: a lookup, update, create or delete that failed, and a conflict
      reported for a name that is free. */
  class Catalog {
    var entries: Entries
    ghost var failures: nat

    constructor (initial: Entries)
      requires UniqueNames(initial)
      ensures entries == initial && failures == 0
    {
      entries, failures := initial, 0;
    }

    method GetService(id: string) returns (r: LookupReply)
      modifies this`failures
      ensures failures == old(failures) + if r.LookupFailed? then 1 else 0
      ensures r.Found? ==> r.id == id && id in entries
      ensures r.NotFound? ==> id !in entries
    {
      var reachable: bool := *;
      if !reachable {
        failures := failures + 1;
        return LookupFailed;
      }
      r := if id in entries then Found(id) else NotFound;
    }

    method SearchByName(name: string) returns (r: LookupReply)
      modifies this`failures
      ensures failures == old(failures) + if r.LookupFailed? then 1 else 0
      ensures r.Found? ==> r.id in entries && entries[r.id].name == name
      ensures r.NotFound? ==> !NameTaken(entries, name)
    {
      var reachable: bool := *;
      if !reachable {
        failures := failures + 1;
        return LookupFailed;
      }
      var hits := set id | id in entries && entries[id].name == name;
      if hits == {} {
        assert forall id :: id in entries && entries[id].name == name ==> id in hits;
        return NotFound;
      }
      var id :| id in hits;
      return Found(id);
    }

    method CreateService(e: Entry, freshId: string) returns (r: CreateReply)
      requires UniqueNames(entries)
      modifies this
      ensures UniqueNames(entries)
      ensures r.Created? ==> r.id !in old(entries) && !NameTaken(old(entries), e.name) && entries == old(entries)[r.id := e]
      ensures !r.Created? ==> entries == old(entries)
      ensures failures == old(failures) + if r.CreateFailed? || (r.Conflict? && !NameTaken(old(entries), e.name)) then 1 else 0
    {
      var accepts: bool := *;
      if accepts && freshId !in entries && !NameTaken(entries, e.name) {
        assert forall i :: i in entries ==> entries[i].name != e.name;
        entries := entries[freshId := e];
        return Created(freshId);
      }
      var conflict: bool := *;
      if !conflict || !NameTaken(entries, e.name) {
        failures := failures + 1;
      }
      r := if conflict then Conflict else CreateFailed;
    }

    method UpdateService(id: string, e: Entry) returns (r: UpdateReply)
      requires UniqueNames(entries)
      modifies this
      ensures UniqueNames(entries)
      ensures r.Updated? ==> id in old(entries) && entries == old(entries)[id := e]
      ensures !r.Updated? ==> entries == old(entries)
      ensures failures == old(failures) + if r.UpdateFailed? then 1 else 0
    {
      var accepts: bool := *;
      if accepts && id in entries && forall j :: j in entries && j != id ==> entries[j].name != e.name {
        entries := entries[id := e];
        return Updated;
      }
      var rejected: bool := *;
      if !rejected {
        failures := failures + 1;
      }
      r := if rejected then Rejected else UpdateFailed;
    }

    method DeleteService(id: string) returns (ok: bool)
      modifies this
      ensures ok ==> id in old(entries) && entries == old(entries) - {id}
      ensures !ok ==> entries == old(entries)
      ensures failures == old(failures) + if ok then 0 else 1
      ensures UniqueNames(old(entries)) ==> UniqueNames(entries)
    {
      ok := *;
      ok := ok && id in entries;
      if ok {
        entries := entries - {id};
      } else {
        failures := failures + 1;
      }
    }

    /** A page of a catalog that nobody else changes: some non-empty stretch of the listing of at most
        the limit, or nothing past its end, and the total. */
    method ListServices(listing: seq<ListEntry>, limit: nat, offset: nat) returns (ok: bool, page: seq<ListEntry>, total: nat)
      requires limit > 0
      modifies this`failures
      ensures failures == old(failures) + if ok then 0 else 1
      ensures ok ==> total == |listing|
      ensures ok && offset < |listing| ==>
                0 < |page| <= limit && offset + |page| <= |listing| && page == listing[offset..offset + |page|]
      ensures ok && offset >= |listing| ==> page == []
    {
      page, total := [], |listing|;
      ok := *;
      failures := failures + if ok then 0 else 1;
      if ok && offset < |listing| {
        var size: nat :| 0 < size <= limit && offset + size <= |listing|;
        page := listing[offset..offset + size];
      }
    }
  }
}
