/** internal/discovery/filter.go: dropping signatures that are no API traffic. */
module NoiseFiltering {
  import opened Text
  import opened Model

  datatype NoiseFilter = NoiseFilter(excludedAgentIDs: set<int>, excludedPorts: set<int>, excludedDomains: set<string>,
                                     pathExact: set<string>, pathPatterns: seq<string>)

  method NewNoiseFilter(agentIDs: seq<int>, ports: seq<int>, domains: seq<string>, exact: seq<string>, patterns: seq<string>)
    returns (f: NoiseFilter)
    ensures f == NoiseFilter((set id | id in agentIDs), (set p | p in ports), (set d | d in domains :: Lower(d)),
                             (set p | p in exact), patterns)
  {
    hide Lower;
    var lowered: set<string> := {};
    for i := 0 to |domains|
      invariant lowered == (set d | d in domains[..i] :: Lower(d))
    {
      assert domains[..i + 1] == domains[..i] + [domains[i]];
      lowered := lowered + {Lower(domains[i])};
    }
    assert domains[..|domains|] == domains;
    f := NoiseFilter((set id | id in agentIDs), (set p | p in ports), lowered, (set p | p in exact), patterns);
  }

  /** The request domain in lower case, without a port; a leading colon is no port separator. */
  function FilterDomain(requestDomain: string): string {
    var domain := Lower(requestDomain);
    var idx := LastIndex(domain, ':');
    if idx > 0 then domain[..idx] else domain
  }

  /** The port of a domain does not matter; a domain that is only a port keeps it. */
  lemma FilterDomainExact(host: string, port: string)
    requires ':' !in port
    ensures FilterDomain(port) == Lower(port)
    ensures host != "" ==> FilterDomain(host + ":" + port) == Lower(host)
    ensures FilterDomain(":" + port) == ":" + Lower(port)
  {
    LowerColons(port);
    LastColon(Lower(host), Lower(port));
    LastColon("", Lower(port));
    LowerJoined(host, port);
    LowerJoined("", port);
    hide Lower, LastIndex;
    assert "" + ":" + port == ":" + port && "" + ":" + Lower(port) == ":" + Lower(port);
    assert (Lower(host) + ":" + Lower(port))[..|Lower(host)|] == Lower(host);
  }

  lemma LowerJoined(host: string, port: string)
    ensures Lower(host + ":" + port) == Lower(host) + ":" + Lower(port)
    ensures host == "" <==> Lower(host) == ""
    ensures Lower("") == ""
  {}

  lemma LowerColons(s: string)
    ensures ':' in Lower(s) <==> ':' in s
  {
    if i :| 0 <= i < |s| && s[i] == ':' {
      assert Lower(s)[i] == ':';
    }
  }

  lemma LastColon(host: string, port: string)
    requires ':' !in port
    ensures LastIndex(host + ":" + port, ':') == |host|
    ensures LastIndex(port, ':') == -1
  {
    var s := host + ":" + port;
    var i := LastIndex(s, ':');
    hide LastIndex;
    assert s[|host|] == ':' && s[|host| + 1..] == port;
    assert i >= |host| by {
      assert forall k :: i < k < |s| ==> s[k] in s[i + 1..];
    }
    assert i <= |host| by {
      assert forall k :: |host| < k < |s| ==> s[k] in port;
    }
  }

  predicate Noise(f: NoiseFilter, sig: APISignature) {
    || sig.agentId in f.excludedAgentIDs
    || sig.serverPort in f.excludedPorts
    || FilterDomain(sig.requestDomain) in f.excludedDomains
    || sig.endpoint in f.pathExact
    || exists i :: 0 <= i < |f.pathPatterns| && Contains(Lower(sig.endpoint), Lower(f.pathPatterns[i]))
  }

  method ShouldFilter(f: NoiseFilter, sig: APISignature) returns (noise: bool)
    ensures noise <==> Noise(f, sig)
    ensures noise <==>
      || sig.agentId in f.excludedAgentIDs || sig.serverPort in f.excludedPorts
      || FilterDomain(sig.requestDomain) in f.excludedDomains || sig.endpoint in f.pathExact
      || exists pattern :: pattern in f.pathPatterns && Contains(Lower(sig.endpoint), Lower(pattern))
  {
    hide Lower, Contains;
    if sig.agentId in f.excludedAgentIDs {
      return true;
    }
    if sig.serverPort in f.excludedPorts {
      return true;
    }
    if FilterDomain(sig.requestDomain) in f.excludedDomains {
      return true;
    }
    if sig.endpoint in f.pathExact {
      return true;
    }
    var lowerEndpoint := Lower(sig.endpoint);
    for i := 0 to |f.pathPatterns|
      invariant forall j :: 0 <= j < i ==> !Contains(lowerEndpoint, Lower(f.pathPatterns[j]))
    {
      if Contains(lowerEndpoint, Lower(f.pathPatterns[i])) {
        return true;
      }
    }
    return false;
  }

  /** The signatures that are no noise, in their order. */
  function Signal(f: NoiseFilter, sigs: seq<APISignature>): seq<APISignature> {
    if sigs == [] then []
    else
      var n := |sigs| - 1;
      Signal(f, sigs[..n]) + (if Noise(f, sigs[n]) then [] else [sigs[n]])
  }

  method Apply(f: NoiseFilter, signatures: seq<APISignature>) returns (result: seq<APISignature>)
    ensures result == Signal(f, signatures)
  {
    hide Noise;
    result := [];
    for i := 0 to |signatures|
      invariant result == Signal(f, signatures[..i])
    {
      assert signatures[..i + 1][..i] == signatures[..i];
      var noise := ShouldFilter(f, signatures[i]);
      if noise {
        continue;
      }
      result := result + [signatures[i]];
    }
    assert signatures[..|signatures|] == signatures;
  }

  lemma {:induction false} SignalExact(f: NoiseFilter, sigs: seq<APISignature>, sig: APISignature)
    ensures sig in Signal(f, sigs) <==> sig in sigs && !Noise(f, sig)
    decreases |sigs|
  {
    hide Noise;
    if sigs != [] {
      var n := |sigs| - 1;
      SignalExact(f, sigs[..n], sig);
      assert sigs == sigs[..n] + [sigs[n]];
    }
  }

  predicate DescendingHits(sigs: seq<APISignature>) {
    forall i, j :: 0 <= i < j < |sigs| ==> sigs[i].hitCount >= sigs[j].hitCount
  }

  /** Filtering keeps the order: what is left of a descending list is descending, and comes from it. */
  lemma {:induction false} SignalDescends(f: NoiseFilter, sigs: seq<APISignature>)
    requires DescendingHits(sigs)
    ensures DescendingHits(Signal(f, sigs))
    ensures forall s :: s in Signal(f, sigs) <==> s in sigs && !Noise(f, s)
    decreases |sigs|
  {
    hide Noise;
    if sigs != [] {
      var n := |sigs| - 1;
      SignalDescends(f, sigs[..n]);
      assert sigs == sigs[..n] + [sigs[n]];
      assert forall s :: s in sigs[..n] ==> s.hitCount >= sigs[n].hitCount;
    }
  }
}
