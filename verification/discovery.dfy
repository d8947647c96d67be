/** `discoverAgentsByOwner` (frontend/src/utils/battlechain.ts): the agents
    registered in arena logs whose on-chain owner is the given account. */
module Discovery {
  import opened Wrappers
  import opened AgentStore
  import Text

  /** One `AgentRegistered` log, reduced to its `args.agent`. */
  datatype Log = Log(agent: Option<string>)

  /** What the scan returns, and the agents whose `owner()` it read, in
      the order it read them. */
  datatype Scan = Scan(matches: seq<string>, lookups: seq<string>)

  /** `log.args?.agent` is present and non-empty. */
  predicate HasAgent(log: Log)
  {
    log.agent.Some? && log.agent.value != []
  }

  /** The owner read for `agent` succeeded and names `owner`, compared
      case-insensitively; `ownerOf` returns `None` when the read throws. */
  predicate OwnedBy(ownerOf: string -> Option<string>, agent: string, owner: string)
  {
    ownerOf(agent).Some? && Normalize(ownerOf(agent).value) == Normalize(owner)
  }

  /** The loop over the logs with `matches` and `lookups` so far. */
  function ScanLogs(logs: seq<Log>, ownerOf: string -> Option<string>, owner: string,
                    matches: seq<string>, lookups: seq<string>): (r: Scan)
    ensures |r.lookups| <= |lookups| + |logs|
    ensures |r.matches| <= |matches| + |logs|
    ensures |lookups| <= |r.lookups| && r.lookups[..|lookups|] == lookups
    decreases |logs|
  {
    if logs == [] then Scan(matches, lookups)
    else if !HasAgent(logs[0]) then ScanLogs(logs[1..], ownerOf, owner, matches, lookups)
    else
      var agent := logs[0].agent.value;
      var normalized := Normalize(agent);
      if normalized in matches then ScanLogs(logs[1..], ownerOf, owner, matches, lookups)
      else
        var lookups' := lookups + [agent];
        var r := ScanLogs(logs[1..], ownerOf, owner,
                          if OwnedBy(ownerOf, agent, owner) then matches + [normalized] else matches, lookups');
        assert r.lookups[..|lookups|] == r.lookups[..|lookups'|][..|lookups|];
        r
  }

  /** The `k`-th owner read of a scan succeeded and names `owner`, compared
      case-insensitively; `read(k)` is `None` when that read throws. */
  predicate ReadNames(read: nat -> Option<string>, k: nat, owner: string)
  {
    read(k).Some? && Normalize(read(k).value) == Normalize(owner)
  }

  /** The loop with every owner read a scripted outcome of its own:
      `read(k)` answers the `k`-th `owner()` call, so a read that fails and
      a later read of the same agent that succeeds are both expressible. */
  function ScanScripted(logs: seq<Log>, read: nat -> Option<string>, owner: string,
                        matches: seq<string>, lookups: seq<string>): (r: Scan)
    ensures |lookups| <= |r.lookups| <= |lookups| + |logs|
    ensures r.lookups[..|lookups|] == lookups
    ensures |r.matches| <= |matches| + |logs|
    decreases |logs|
  {
    if logs == [] then Scan(matches, lookups)
    else if !HasAgent(logs[0]) then ScanScripted(logs[1..], read, owner, matches, lookups)
    else
      var agent := logs[0].agent.value;
      var normalized := Normalize(agent);
      if normalized in matches then ScanScripted(logs[1..], read, owner, matches, lookups)
      else
        var lookups' := lookups + [agent];
        var r := ScanScripted(logs[1..], read, owner,
                              if ReadNames(read, |lookups|, owner) then matches + [normalized] else matches, lookups');
        assert r.lookups[..|lookups|] == r.lookups[..|lookups'|][..|lookups|];
        r
  }

  /** The scripted scan adds exactly the agents of the reads that named
      `owner`, lower-cased. */
  lemma {:induction false} ScriptedMatches(logs: seq<Log>, read: nat -> Option<string>, owner: string,
                                           matches: seq<string>, lookups: seq<string>, x: string)
    ensures var r := ScanScripted(logs, read, owner, matches, lookups);
            x in r.matches <==>
              x in matches
              || exists k :: |lookups| <= k < |r.lookups| && ReadNames(read, k, owner) && Normalize(r.lookups[k]) == x
    decreases |logs|
  {
    var r := ScanScripted(logs, read, owner, matches, lookups);
    if logs == [] {
    } else if !HasAgent(logs[0]) || Normalize(logs[0].agent.value) in matches {
      ScriptedMatches(logs[1..], read, owner, matches, lookups, x);
    } else {
      var agent := logs[0].agent.value;
      var n := |lookups|;
      var lookups' := lookups + [agent];
      var matches' := if ReadNames(read, n, owner) then matches + [Normalize(agent)] else matches;
      assert r == ScanScripted(logs[1..], read, owner, matches', lookups');
      ScriptedMatches(logs[1..], read, owner, matches', lookups', x);
      assert r.lookups[n] == agent by {
        assert r.lookups[..n + 1] == lookups';
      }
      if x in r.matches && x !in matches {
        if x in matches' {
          assert ReadNames(read, n, owner) && Normalize(r.lookups[n]) == x;
        } else {
          var k :| n + 1 <= k < |r.lookups| && ReadNames(read, k, owner) && Normalize(r.lookups[k]) == x;
        }
      }
      if exists k :: n <= k < |r.lookups| && ReadNames(read, k, owner) && Normalize(r.lookups[k]) == x {
        var k :| n <= k < |r.lookups| && ReadNames(read, k, owner) && Normalize(r.lookups[k]) == x;
        if k == n {
          assert x in matches';
        }
      }
    }
  }

  /** When every read of an address gives the same answer, the scripted
      scan is the scan with `ownerOf`: the per-address model is the special
      case of steady reads. */
  lemma {:induction false} ScriptedIsScan(logs: seq<Log>, read: nat -> Option<string>,
                                          ownerOf: string -> Option<string>, owner: string,
                                          matches: seq<string>, lookups: seq<string>)
    requires var r := ScanScripted(logs, read, owner, matches, lookups);
             forall k :: |lookups| <= k < |r.lookups| ==> read(k) == ownerOf(r.lookups[k])
    ensures ScanScripted(logs, read, owner, matches, lookups) == ScanLogs(logs, ownerOf, owner, matches, lookups)
    decreases |logs|
  {
    var r := ScanScripted(logs, read, owner, matches, lookups);
    if logs == [] {
    } else if !HasAgent(logs[0]) || Normalize(logs[0].agent.value) in matches {
      ScriptedIsScan(logs[1..], read, ownerOf, owner, matches, lookups);
    } else {
      var agent := logs[0].agent.value;
      var n := |lookups|;
      var lookups' := lookups + [agent];
      var matches' := if ReadNames(read, n, owner) then matches + [Normalize(agent)] else matches;
      assert r == ScanScripted(logs[1..], read, owner, matches', lookups');
      assert r.lookups[n] == agent by {
        assert r.lookups[..n + 1] == lookups';
      }
      assert ReadNames(read, n, owner) == OwnedBy(ownerOf, agent, owner);
      ScriptedIsScan(logs[1..], read, ownerOf, owner, matches', lookups');
    }
  }

  /** A failed owner read does not hide an agent for good: a later log of
      the same agent reads its owner again, and a success then finds it. */
  lemma RetriedReadFinds(agent: string, read: nat -> Option<string>, owner: string)
    requires agent != [] && read(0).None? && read(1) == Some(owner)
    ensures ScanScripted([Log(Some(agent)), Log(Some(agent))], read, owner, [], []) == Scan([Normalize(agent)], [agent, agent])
  {
    var logs := [Log(Some(agent)), Log(Some(agent))];
    var last := [Log(Some(agent))];
    assert logs[1..] == last && last[1..] == [];
    assert !ReadNames(read, 0, owner) && ReadNames(read, 1, owner);
    var none: seq<string> := [];
    assert HasAgent(logs[0]) && Normalize(agent) !in none && none + [agent] == [agent];
    assert ScanScripted(last, read, owner, [], [agent]) == Scan([Normalize(agent)], [agent, agent]);
    assert ScanScripted(logs, read, owner, none, none) == ScanScripted(last, read, owner, none, [agent]);
  }

  /** `discoverAgentsByOwner(client, owner)`: a missing arena address or a
      failing `getLogs` (`logs == None`) gives no agents and no lookups. */
  function Discover(arenaAddress: string, logs: Option<seq<Log>>,
                    ownerOf: string -> Option<string>, owner: string): (r: Scan)
    ensures arenaAddress == [] || logs.None? ==> r == Scan([], [])
    ensures logs.Some? ==> |r.lookups| <= |logs.value|
  {
    if arenaAddress == [] then Scan([], [])
    else
      match logs
      case None => Scan([], [])
      case Some(ls) => ScanLogs(ls, ownerOf, owner, [], [])
  }

  /** The normalised agents of the logs that qualify, repeats included. */
  function Qualifying(logs: seq<Log>, ownerOf: string -> Option<string>, owner: string): (q: seq<string>)
    ensures forall x :: x in q <==>
              exists i :: 0 <= i < |logs| && HasAgent(logs[i]) && Normalize(logs[i].agent.value) == x
                          && OwnedBy(ownerOf, logs[i].agent.value, owner)
  {
    if logs == [] then []
    else
      var rest := Qualifying(logs[1..], ownerOf, owner);
      assert forall x :: x in rest <==>
               exists i :: 1 <= i < |logs| && HasAgent(logs[i]) && Normalize(logs[i].agent.value) == x
                           && OwnedBy(ownerOf, logs[i].agent.value, owner) by {
        forall x | x in rest
          ensures exists i :: 1 <= i < |logs| && HasAgent(logs[i]) && Normalize(logs[i].agent.value) == x
                              && OwnedBy(ownerOf, logs[i].agent.value, owner)
        {
          var j :| 0 <= j < |logs[1..]| && HasAgent(logs[1..][j]) && Normalize(logs[1..][j].agent.value) == x
                   && OwnedBy(ownerOf, logs[1..][j].agent.value, owner);
          assert logs[1..][j] == logs[j + 1];
        }
        forall x, i | 1 <= i < |logs| && HasAgent(logs[i]) && Normalize(logs[i].agent.value) == x
                      && OwnedBy(ownerOf, logs[i].agent.value, owner)
          ensures x in rest
        {
          assert logs[1..][i - 1] == logs[i];
        }
      }
      if HasAgent(logs[0]) && OwnedBy(ownerOf, logs[0].agent.value, owner)
      then [Normalize(logs[0].agent.value)] + rest
      else rest
  }

  lemma {:induction false} ScanLogsIsDedup(logs: seq<Log>, ownerOf: string -> Option<string>, owner: string,
                                           matches: seq<string>, lookups: seq<string>)
    requires NoDup(matches)
    ensures ScanLogs(logs, ownerOf, owner, matches, lookups).matches
         == Dedup(matches + Qualifying(logs, ownerOf, owner))
    decreases |logs|
  {
    var q := Qualifying(logs, ownerOf, owner);
    if logs == [] {
      assert matches + q == matches;
      DedupOfNoDup(matches);
    } else {
      var rest := Qualifying(logs[1..], ownerOf, owner);
      if !HasAgent(logs[0]) {
        ScanLogsIsDedup(logs[1..], ownerOf, owner, matches, lookups);
      } else {
        var agent := logs[0].agent.value;
        var normalized := Normalize(agent);
        if normalized in matches {
          ScanLogsIsDedup(logs[1..], ownerOf, owner, matches, lookups);
          if OwnedBy(ownerOf, agent, owner) {
            assert matches + q == matches + [normalized] + rest;
            DedupDropPresent(matches, normalized, rest);
          }
        } else if OwnedBy(ownerOf, agent, owner) {
          var m' := matches + [normalized];
          ScanLogsIsDedup(logs[1..], ownerOf, owner, m', lookups + [agent]);
          assert matches + q == m' + rest;
        } else {
          ScanLogsIsDedup(logs[1..], ownerOf, owner, matches, lookups + [agent]);
        }
      }
    }
  }

  /** The discovered agents are the qualifying agents, each once, at its
      first log: lower-case, without repeats, and in first-log order. */
  lemma DiscoverIsDedup(arenaAddress: string, logs: seq<Log>, ownerOf: string -> Option<string>, owner: string)
    requires arenaAddress != []
    ensures var r := Discover(arenaAddress, Some(logs), ownerOf, owner).matches;
            var q := Qualifying(logs, ownerOf, owner);
            r == Dedup(q) && NoDup(r)
            && (forall i, j :: 0 <= i < j < |r| ==> IndexOf(q, r[i]) < IndexOf(q, r[j]))
  {
    var q := Qualifying(logs, ownerOf, owner);
    ScanLogsIsDedup(logs, ownerOf, owner, [], []);
    assert [] + q == q;
    DedupOrdered(q);
  }

  /** An agent is discovered exactly when some log names it (in any case)
      and the owner read for that log's spelling names `owner`. */
  lemma DiscoveredIff(arenaAddress: string, logs: seq<Log>, ownerOf: string -> Option<string>,
                      owner: string, x: string)
    requires arenaAddress != []
    ensures x in Discover(arenaAddress, Some(logs), ownerOf, owner).matches
            <==> exists i :: 0 <= i < |logs| && HasAgent(logs[i]) && Normalize(logs[i].agent.value) == x
                             && OwnedBy(ownerOf, logs[i].agent.value, owner)
  {
    DiscoverIsDedup(arenaAddress, logs, ownerOf, owner);
  }

  /** Every discovered agent is lower-case. */
  lemma DiscoveredLowerCase(arenaAddress: string, logs: seq<Log>, ownerOf: string -> Option<string>,
                            owner: string)
    requires arenaAddress != []
    ensures AllLowerCase(Discover(arenaAddress, Some(logs), ownerOf, owner).matches)
  {
    var r := Discover(arenaAddress, Some(logs), ownerOf, owner).matches;
    forall k | 0 <= k < |r| ensures Text.IsLowerCase(r[k])
    {
      DiscoveredIff(arenaAddress, logs, ownerOf, owner, r[k]);
      var i :| 0 <= i < |logs| && HasAgent(logs[i]) && Normalize(logs[i].agent.value) == r[k]
               && OwnedBy(ownerOf, logs[i].agent.value, owner);
      Text.LowerIsLowerCase(logs[i].agent.value);
    }
  }

  /** A log without an agent, or one whose owner read fails, can be dropped
      without changing the result: the scan skips it and carries on. */
  lemma SkippedLogIsIgnored(arenaAddress: string, logs: seq<Log>, k: nat,
                            ownerOf: string -> Option<string>, owner: string)
    requires arenaAddress != [] && k < |logs|
    requires !HasAgent(logs[k]) || ownerOf(logs[k].agent.value).None?
    ensures Discover(arenaAddress, Some(logs[..k] + logs[k + 1..]), ownerOf, owner).matches
         == Discover(arenaAddress, Some(logs), ownerOf, owner).matches
  {
    QualifyingAppend(logs[..k], logs[k..], ownerOf, owner);
    QualifyingAppend(logs[..k], logs[k + 1..], ownerOf, owner);
    assert logs[..k] + logs[k..] == logs;
    assert logs[k..][1..] == logs[k + 1..];
    ScanLogsIsDedup(logs, ownerOf, owner, [], []);
    ScanLogsIsDedup(logs[..k] + logs[k + 1..], ownerOf, owner, [], []);
  }

  lemma {:induction false} QualifyingAppend(a: seq<Log>, b: seq<Log>, ownerOf: string -> Option<string>, owner: string)
    ensures Qualifying(a + b, ownerOf, owner) == Qualifying(a, ownerOf, owner) + Qualifying(b, ownerOf, owner)
  {
    if a == [] {
      assert a + b == b;
    } else {
      assert (a + b)[0] == a[0];
      assert (a + b)[1..] == a[1..] + b;
      QualifyingAppend(a[1..], b, ownerOf, owner);
    }
  }

  /** An address whose owner read matched is never read again. */
  predicate NoRedundantLookup(lookups: seq<string>, ownerOf: string -> Option<string>, owner: string)
  {
    forall i, j :: 0 <= i < j < |lookups| && Normalize(lookups[j]) == Normalize(lookups[i])
      ==> !OwnedBy(ownerOf, lookups[i], owner)
  }

  lemma {:induction false} ScanLogsLookups(logs: seq<Log>, ownerOf: string -> Option<string>, owner: string,
                                           matches: seq<string>, lookups: seq<string>)
    requires NoRedundantLookup(lookups, ownerOf, owner)
    requires forall a :: a in lookups && OwnedBy(ownerOf, a, owner) ==> Normalize(a) in matches
    ensures NoRedundantLookup(ScanLogs(logs, ownerOf, owner, matches, lookups).lookups, ownerOf, owner)
    decreases |logs|
  {
    if logs != [] && HasAgent(logs[0]) {
      var agent := logs[0].agent.value;
      if Normalize(agent) !in matches {
        var lookups' := lookups + [agent];
        var matches' := if OwnedBy(ownerOf, agent, owner) then matches + [Normalize(agent)] else matches;
        assert forall i :: 0 <= i < |lookups| ==> lookups'[i] == lookups[i];
        ScanLogsLookups(logs[1..], ownerOf, owner, matches', lookups');
      } else {
        ScanLogsLookups(logs[1..], ownerOf, owner, matches, lookups);
      }
    } else if logs != [] {
      ScanLogsLookups(logs[1..], ownerOf, owner, matches, lookups);
    }
  }

  /** The scan never reads the owner of an agent it has already matched:
      a later read of the same address (in any case) only follows a read
      that failed or named someone else. */
  lemma DiscoverNoRedundantLookup(arenaAddress: string, logs: Option<seq<Log>>,
                                  ownerOf: string -> Option<string>, owner: string)
    ensures NoRedundantLookup(Discover(arenaAddress, logs, ownerOf, owner).lookups, ownerOf, owner)
  {
    if arenaAddress != [] && logs.Some? {
      ScanLogsLookups(logs.value, ownerOf, owner, [], []);
    }
  }
}
