/**
 Pushing a zone's records to PowerDNS (internal/dns/powerdns_client.go, SyncZone): the records are grouped
 by type in a Go map, and each group replaces the remote records of its type, in the map's arbitrary order.
 */
module ZoneSync {

  datatype Rec = Rec(name: string, rtype: string, content: string, ttl: int, disabled: bool)

  /** The remote side of one zone: the records of each type. */
  type Remote = map<string, seq<Rec>>

  // ---------------------------------------------------------------------------
  // Grouping
  // ---------------------------------------------------------------------------

  /** The records of one type, in their order. */
  function OfType(records: seq<Rec>, t: string): seq<Rec> {
    if records == [] then []
    else
      var last := records[|records| - 1];
      OfType(records[..|records| - 1], t) + if last.rtype == t then [last] else []
  }

  function Types(records: seq<Rec>): set<string> {
    set r | r in records :: r.rtype
  }

  /** Every type present, with that type's records. */
  ghost predicate IsGrouping(groups: Remote, records: seq<Rec>) {
    groups.Keys == Types(records) && forall t :: t in groups ==> groups[t] == OfType(records, t)
  }

  method Group(records: seq<Rec>) returns (groups: Remote)
    ensures IsGrouping(groups, records)
  {
    groups := map[];
    var i := 0;
    while i < |records|
      invariant 0 <= i <= |records|
      invariant IsGrouping(groups, records[..i])
    {
      var r := records[i];
      TypesStep(records, i);
      groups := groups[r.rtype := (if r.rtype in groups then groups[r.rtype] else []) + [r]];
      i := i + 1;
    }
    assert records[..|records|] == records;
  }

  lemma TypesStep(records: seq<Rec>, i: nat)
    requires i < |records|
    ensures Types(records[..i + 1]) == Types(records[..i]) + {records[i].rtype}
    ensures forall t :: OfType(records[..i + 1], t)
                        == OfType(records[..i], t) + if records[i].rtype == t then [records[i]] else []
    ensures records[i].rtype !in Types(records[..i]) ==> OfType(records[..i], records[i].rtype) == []
  {
    assert records[..i + 1][..i] == records[..i];
    assert records[..i + 1] == records[..i] + [records[i]];
    AbsentType(records[..i], records[i].rtype);
  }

  lemma {:induction false} AbsentType(records: seq<Rec>, t: string)
    ensures t !in Types(records) <==> OfType(records, t) == []
  {
    if records != [] {
      var n := |records| - 1;
      AbsentType(records[..n], t);
      assert records == records[..n] + [records[n]];
      assert records[n].rtype in Types(records);
      assert forall r :: r in records[..n] ==> r.rtype in Types(records);
      assert t in Types(records) ==> t in Types(records[..n]) || t == records[n].rtype;
    }
  }

  /** How often a record occurs. */
  function Occurrences(records: seq<Rec>, r: Rec): nat {
    if records == [] then 0
    else Occurrences(records[..|records| - 1], r) + if records[|records| - 1] == r then 1 else 0
  }

  lemma OccurrencesAppend(records: seq<Rec>, x: Rec, r: Rec)
    ensures Occurrences(records + [x], r) == Occurrences(records, r) + if x == r then 1 else 0
  {
    assert (records + [x])[..|records|] == records;
  }

  /** Grouping partitions: a record keeps its multiplicity, in the group of its type and in no other. */
  lemma {:induction false} GroupingKeepsMultiplicity(records: seq<Rec>, r: Rec, t: string)
    ensures Occurrences(OfType(records, t), r) == if r.rtype == t then Occurrences(records, r) else 0
  {
    if records != [] {
      var init, last := records[..|records| - 1], records[|records| - 1];
      GroupingKeepsMultiplicity(init, r, t);
      if last.rtype == t {
        OccurrencesAppend(OfType(init, t), last, r);
      } else {
        assert OfType(records, t) == OfType(init, t);
      }
    }
  }

  /** `positions` picks elements of a list in increasing order. */
  ghost predicate Increasing(positions: seq<int>, bound: int) {
    && (forall i :: 0 <= i < |positions| ==> 0 <= positions[i] < bound)
    && forall i, j :: 0 <= i < j < |positions| ==> positions[i] < positions[j]
  }

  /** Among the first `n` records, the positions are those of a type's, and the records there are `group`, in order. */
  ghost predicate Picks(records: seq<Rec>, n: nat, t: string, positions: seq<int>, group: seq<Rec>)
    requires n <= |records|
  {
    && Increasing(positions, n) && |positions| == |group|
    && (forall i :: 0 <= i < |positions| ==> records[positions[i]] == group[i])
    && forall k :: 0 <= k < n ==> (k in positions <==> records[k].rtype == t)
  }

  lemma PickNext(records: seq<Rec>, n: nat, t: string, positions: seq<int>, group: seq<Rec>)
    requires n < |records| && Picks(records, n, t, positions, group)
    ensures records[n].rtype == t ==> Picks(records, n + 1, t, positions + [n], group + [records[n]])
    ensures records[n].rtype != t ==> Picks(records, n + 1, t, positions, group)
  {
    if records[n].rtype == t {
      var longer := positions + [n];
      assert longer[|positions|] == n;
      assert forall k :: k in longer <==> k in positions || k == n;
    }
  }

  /** Grouping keeps relative order: a group is its members picked out of the list from left to right. */
  lemma {:induction false} GroupingKeepsOrder(records: seq<Rec>, n: nat, t: string) returns (positions: seq<int>)
    requires n <= |records|
    ensures Picks(records, n, t, positions, OfType(records[..n], t))
  {
    if n == 0 {
      positions := [];
    } else {
      hide Picks;
      positions := GroupingKeepsOrder(records, n - 1, t);
      assert records[..n][..n - 1] == records[..n - 1];
      PickNext(records, n - 1, t, positions, OfType(records[..n - 1], t));
      if records[n - 1].rtype == t {
        positions := positions + [n - 1];
      }
    }
  }

  // ---------------------------------------------------------------------------
  // Replacing
  // ---------------------------------------------------------------------------

  /** The remote zone with the groups of the types in `done` replaced. */
  function Replaced(remote: Remote, groups: Remote, done: set<string>): Remote
    requires done <= groups.Keys
  {
    remote + (map t | t in done :: groups[t])
  }

  function Groups(records: seq<Rec>): Remote {
    map t | t in Types(records) :: OfType(records, t)
  }

  lemma ReplaceNone(remote: Remote, groups: Remote)
    ensures Replaced(remote, groups, {}) == remote
  {}

  lemma ReplaceOne(remote: Remote, groups: Remote, done: set<string>, t: string)
    requires done <= groups.Keys && t in groups
    ensures Replaced(remote, groups, done + {t}) == Replaced(remote, groups, done)[t := groups[t]]
  {}

  lemma ReplaceAll(remote: Remote, groups: Remote)
    ensures Replaced(remote, groups, groups.Keys) == remote + groups
  {}

  /** What a sync without failures leaves remotely, without mention of any order. */
  function Synced(remote: Remote, records: seq<Rec>): Remote {
    remote + Groups(records)
  }

  /**
   What a sync may leave that stops at a refused type: the groups of some other types are replaced, and nothing else.
   */
  ghost predicate PartlySynced(remote: Remote, records: seq<Rec>, refused: set<string>, after: Remote) {
    exists done: set<string> ::
      done <= Types(records) && done !! refused && after == Replaced(remote, Groups(records), done)
  }

  /**
   SyncZone; `refused` are the types whose replacement fails. The groups are taken in an arbitrary order.
   Without a failure the result is the same for every order. With one, the types replaced before it
   stay replaced, and nothing else changed.
   */
  method SyncZone(remote: Remote, records: seq<Rec>, refused: set<string>) returns (after: Remote, ok: bool)
    ensures ok <==> Types(records) !! refused
    ensures ok ==> after == Synced(remote, records)
    ensures PartlySynced(remote, records, refused, after)
  {
    var groups := Group(records);
    assert groups == Groups(records);
    after, ok := remote, true;
    ghost var done: set<string> := {};
    ReplaceNone(remote, groups);
    var left := groups.Keys;
    while left != {}
      invariant done + left == groups.Keys && done !! left && done !! refused
      invariant after == Replaced(remote, groups, done)
      decreases left
    {
      var t :| t in left;
      if t in refused {
        return after, false;
      }
      ReplaceOne(remote, groups, done, t);
      after := after[t := groups[t]];
      done := done + {t};
      left := left - {t};
    }
    ReplaceAll(remote, groups);
    assert done == groups.Keys;
  }

  /** One sync makes the remote zone mirror the local records exactly when it had no type that they have not. */
  lemma MirrorsIffNoStaleType(remote: Remote, records: seq<Rec>)
    ensures IsGrouping(Synced(remote, records), records) <==> remote.Keys <= Types(records)
  {
    assert Synced(remote, records).Keys == remote.Keys + Types(records);
  }

  /** A later sync with all the types of an earlier one covers it. */
  lemma LaterSyncCovers(remote: Remote, earlier: seq<Rec>, later: seq<Rec>)
    requires Types(earlier) <= Types(later)
    ensures Synced(Synced(remote, earlier), later) == Synced(remote, later)
  {
    hide Types, OfType;
  }

  lemma SyncIsPartial(remote: Remote, records: seq<Rec>)
    ensures PartlySynced(remote, records, {}, Synced(remote, records))
  {
    hide Types, OfType;
    assert Synced(remote, records) == Replaced(remote, Groups(records), Types(records));
  }
}
