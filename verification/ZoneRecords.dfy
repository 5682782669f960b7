/**
 Records of a zone (internal/dns/service.go, CreateRecord, syncRecordToPowerDNS and ApplyTemplate): a record is
 validated, stored, and the zone is pushed to PowerDNS, whose failures are only logged.
 */
module ZoneRecords {
  import opened Common
  import opened AsciiStrings
  import Hostname
  import ZoneSync
  import opened ZoneStore

  datatype RecordDefinition = RecordDefinition(name: string, rtype: string, content: string, ttl: int, priority: int)

  /** The content checks other than the host name check; they see trimmed text that is not empty. */
  datatype Checks = Checks(content: (string, string) -> bool)

  const TYPES := ["A", "AAAA", "CNAME", "MX", "TXT", "NS", "SRV", "CAA"]

  predicate ValidContent(chk: Checks, rtype: string, content: string) {
    var t, c := ToUpper(rtype), TrimSpace(content);
    c != "" && if t == "CNAME" || t == "NS" then Hostname.ValidateHostname(c) == Hostname.Valid else chk.content(t, c)
  }

  /** ValidateRecord */
  predicate ValidRecord(chk: Checks, d: RecordDefinition) {
    && ToUpper(d.rtype) in TYPES
    && Hostname.ValidateRecordName(d.name) == Hostname.Valid
    && ValidContent(chk, d.rtype, d.content)
    && 60 <= d.ttl <= 86400
    && 0 <= d.priority <= 65535
  }

  /** The row of a new record says what was asked for; its type is in capitals. */
  ghost predicate IsRecordFor(r: Record, zoneId: string, d: RecordDefinition, disabled: bool, id: string) {
    && r.id == id && r.zoneId == zoneId && r.name == d.name && r.content == d.content && r.priority == d.priority
    && r.disabled == disabled && !r.deleted && (d.ttl != 0 ==> r.ttl == d.ttl) && (d.ttl == 0 ==> r.ttl == 3600)
    && |r.rtype| == |d.rtype| && forall i :: 0 <= i < |r.rtype| ==> r.rtype[i] == ToUpperChar(d.rtype[i])
  }

  function NewRecord(zoneId: string, d: RecordDefinition, disabled: bool, id: string): (r: Record)
    ensures IsRecordFor(r, zoneId, d, disabled, id)
  {
    Record(id, zoneId, d.name, ToUpper(d.rtype), d.content, if d.ttl == 0 then 3600 else d.ttl,
           d.priority, disabled, false)
  }

  /** The zone's live records, as PowerDNS gets them. */
  function Served(records: seq<Record>, zoneId: string): seq<Rec> {
    if records == [] then []
    else
      var init, r := records[..|records| - 1], records[|records| - 1];
      Served(init, zoneId)
      + if r.zoneId == zoneId && !r.deleted then [ZoneSync.Rec(r.name, r.rtype, r.content, r.ttl, r.disabled)] else []
  }

  /** SELECT ... WHERE id = ?, marked records hidden. */
  function LiveRecord(records: seq<Record>, id: string, from: nat := 0): (k: Option<nat>)
    requires from <= |records|
    ensures k.Some? ==> k.value < |records| && records[k.value].id == id && !records[k.value].deleted
    decreases |records| - from
  {
    if from == |records| then None
    else if records[from].id == id && !records[from].deleted then Some(from)
    else LiveRecord(records, id, from + 1)
  }

  function Marked(records: seq<Record>, k: nat): seq<Record>
    requires k < |records|
  {
    records[k := records[k].(deleted := true)]
  }

  /**
   What a push of a zone does: no zone comes or goes remotely and only this zone's records change. Without a refusal
   each type present is left with exactly the live local records; with one, the groups of some other types are
   replaced and nothing else.
   */
  ghost predicate Pushed(cfg: Config, zones: seq<Zone>, records: seq<Record>, zoneId: string, refused: set<string>,
                         before: map<string, ZoneSync.Remote>, after: map<string, ZoneSync.Remote>)
  {
    var z := LiveById(zones, zoneId);
    if !cfg.powerdns || z.None? || zones[z.value].domain !in before then after == before
    else
      var domain, served := zones[z.value].domain, Served(records, zoneId);
      && domain in after && after == before[domain := after[domain]]
      && (ZoneSync.Types(served) !! refused ==> after[domain] == ZoneSync.Synced(before[domain], served))
      && ZoneSync.PartlySynced(before[domain], served, refused, after[domain])
  }

  class RecordService {
    const cfg: Config
    const chk: Checks
    var zones: seq<Zone>
    var records: seq<Record>
    var remote: map<string, ZoneSync.Remote>

    constructor (cfg: Config, chk: Checks, s: Stores)
      ensures this.cfg == cfg && this.chk == chk && zones == s.zones && records == s.records && remote == s.remote
    {
      this.cfg, this.chk := cfg, chk;
      zones, records, remote := s.zones, s.records, s.remote;
    }

    method LoadServed(zoneId: string) returns (served: seq<Rec>)
      ensures served == Served(records, zoneId)
    {
      served := [];
      var i := 0;
      while i < |records|
        invariant 0 <= i <= |records| && served == Served(records[..i], zoneId)
      {
        var r := records[i];
        assert records[..i + 1][..i] == records[..i];
        if r.zoneId == zoneId && !r.deleted {
          served := served + [ZoneSync.Rec(r.name, r.rtype, r.content, r.ttl, r.disabled)];
        }
        i := i + 1;
      }
      assert records[..|records|] == records;
    }

    /** syncRecordToPowerDNS; its failures are only logged. */
    method SyncRecords(zoneId: string, refused: set<string>)
      modifies this`remote
      ensures Pushed(cfg, zones, records, zoneId, refused, old(remote), remote)
    {
      if !cfg.powerdns {
        return;
      }
      var zone := LiveById(zones, zoneId);
      if zone.None? || zones[zone.value].domain !in remote {
        return;  // nothing to sync to
      }
      var domain := zones[zone.value].domain;
      var served := LoadServed(zoneId);
      var after, ok := ZoneSync.SyncZone(remote[domain], served, refused);
      remote := remote[domain := after];
    }

    /** CreateRecord: refused and nothing changed, or stored. */
    method CreateRecord(zoneId: string, d: RecordDefinition, disabled: bool, id: string, dbFault: bool,
                        refused: set<string>)
      returns (ok: bool)
      modifies this`records, this`remote
      ensures ok <==> ValidRecord(chk, d) && !dbFault
      ensures records == if ok then old(records) + [NewRecord(zoneId, d, disabled, id)] else old(records)
      ensures !ok ==> remote == old(remote)
      ensures ok ==> Pushed(cfg, zones, records, zoneId, refused, old(remote), remote)
    {
      if !ValidRecord(chk, d) || dbFault {
        return false;
      }
      records := records + [NewRecord(zoneId, d, disabled, id)];
      SyncRecords(zoneId, refused);
      return true;
    }

    /** DeleteRecord: marks the record and pushes its zone. */
    method DeleteRecord(id: string, lookupFault: bool, deleteFault: bool, refused: set<string>) returns (ok: bool)
      modifies this`records, this`remote
      ensures ok <==> !lookupFault && LiveRecord(old(records), id).Some? && !deleteFault
      ensures !ok ==> records == old(records) && remote == old(remote)
      ensures ok ==> var k := LiveRecord(old(records), id).value;
                     && records == Marked(old(records), k)
                     && Pushed(cfg, zones, records, old(records)[k].zoneId, refused, old(remote), remote)
    {
      if lookupFault {
        return false;
      }
      var found := LiveRecord(records, id);
      if found.None? {
        return false;
      }
      var record := records[found.value];
      if deleteFault {
        return false;
      }
      records := records[found.value := record.(deleted := true)];
      SyncRecords(record.zoneId, refused);
      return true;
    }

    /**
     ApplyTemplate is no transaction: it stores the records before the first that fails, and keeps them.
     `faults[k]` says that the database refuses the k-th record. When no push is refused, the pushes come to one push
     of what is stored in the end.
     */
    method ApplyTemplate(zoneId: string, defs: seq<RecordDefinition>, ids: seq<string>, faults: seq<bool>,
                         refused: set<string>)
      returns (ok: bool)
      requires |ids| == |defs| == |faults|
      modifies this`records, this`remote
      ensures records == old(records) + Applied(zoneId, defs, ids, FirstFailure(chk, defs, faults))
      ensures ok <==> FirstFailure(chk, defs, faults) == |defs|
      ensures remote.Keys == old(remote).Keys
      ensures refused == {} && FirstFailure(chk, defs, faults) > 0
              ==> Pushed(cfg, zones, records, zoneId, {}, old(remote), remote)
      ensures FirstFailure(chk, defs, faults) == 0 ==> remote == old(remote)
    {
      hide Pushed, ValidRecord, FirstFailure, NewRecord, Applied;
      AppliedNone(zoneId, defs, ids);
      var i := 0;
      while i < |defs|
        invariant 0 <= i <= |defs|
        invariant forall k :: 0 <= k < i ==> ValidRecord(chk, defs[k]) && !faults[k]
        invariant records == old(records) + Applied(zoneId, defs, ids, i)
        invariant remote.Keys == old(remote).Keys
        invariant i == 0 ==> remote == old(remote)
        invariant i > 0 && refused == {} ==> Pushed(cfg, zones, records, zoneId, {}, old(remote), remote)
      {
        ghost var before, kept := remote, records;
        var created := CreateRecord(zoneId, defs[i], false, ids[i], faults[i], refused);
        if !created {
          FirstFailureIs(chk, defs, faults, i);
          return false;
        }
        PushedKeys(cfg, zones, records, zoneId, refused, before, remote);
        if i > 0 && refused == {} {
          PushedTwice(cfg, zones, kept, records[|kept|], zoneId, old(remote), before, remote);
          assert records == kept + [records[|kept|]];
        }
        AppliedNext(zoneId, defs, ids, i);
        i := i + 1;
      }
      FirstFailureIs(chk, defs, faults, |defs|);
      return true;
    }
  }

  lemma PushedKeys(cfg: Config, zones: seq<Zone>, records: seq<Record>, zoneId: string, refused: set<string>,
                   before: map<string, ZoneSync.Remote>, after: map<string, ZoneSync.Remote>)
    requires Pushed(cfg, zones, records, zoneId, refused, before, after)
    ensures after.Keys == before.Keys
  {
  }

  lemma ServedNext(records: seq<Record>, r: Record, zoneId: string)
    ensures Served(records, zoneId) <= Served(records + [r], zoneId)
  {
    assert (records + [r])[..|records|] == records;
  }

  lemma TypesGrow(a: seq<Rec>, b: seq<Rec>)
    requires a <= b
    ensures ZoneSync.Types(a) <= ZoneSync.Types(b)
  {
    forall r | r in a ensures r in b {
      var k :| 0 <= k < |a| && a[k] == r;
      assert b[k] == r;
    }
  }

  /** A push before and a push after a record is added come to the push after. */
  lemma PushedTwice(cfg: Config, zones: seq<Zone>, records: seq<Record>, r: Record, zoneId: string,
                    first: map<string, ZoneSync.Remote>, second: map<string, ZoneSync.Remote>,
                    third: map<string, ZoneSync.Remote>)
    requires Pushed(cfg, zones, records, zoneId, {}, first, second)
    requires Pushed(cfg, zones, records + [r], zoneId, {}, second, third)
    ensures Pushed(cfg, zones, records + [r], zoneId, {}, first, third)
  {
    hide Served, LiveById, ZoneSync.Types, ZoneSync.Groups, ZoneSync.Synced, ZoneSync.PartlySynced;
    var z := LiveById(zones, zoneId);
    if cfg.powerdns && z.Some? && zones[z.value].domain in first {
      var domain, was, now := zones[z.value].domain, Served(records, zoneId), Served(records + [r], zoneId);
      ServedNext(records, r, zoneId);
      TypesGrow(was, now);
      ZoneSync.LaterSyncCovers(first[domain], was, now);
      ZoneSync.SyncIsPartial(first[domain], now);
      assert third == first[domain := third[domain]];
    }
  }

  function Applied(zoneId: string, defs: seq<RecordDefinition>, ids: seq<string>, n: nat): seq<Record>
    requires n <= |defs| == |ids|
  {
    seq(n, k requires 0 <= k < n => NewRecord(zoneId, defs[k], false, ids[k]))
  }

  lemma AppliedNone(zoneId: string, defs: seq<RecordDefinition>, ids: seq<string>)
    requires |defs| == |ids|
    ensures Applied(zoneId, defs, ids, 0) == []
  {
  }

  lemma AppliedNext(zoneId: string, defs: seq<RecordDefinition>, ids: seq<string>, n: nat)
    requires n < |defs| == |ids|
    ensures Applied(zoneId, defs, ids, n + 1)
            == Applied(zoneId, defs, ids, n) + [NewRecord(zoneId, defs[n], false, ids[n])]
  {
    hide NewRecord;
  }

  /** The index of the first template record that cannot be stored, or their number. */
  function FirstFailure(chk: Checks, defs: seq<RecordDefinition>, faults: seq<bool>): (n: nat)
    requires |defs| == |faults|
    ensures n <= |defs|
  {
    if defs == [] || !ValidRecord(chk, defs[0]) || faults[0] then 0 else 1 + FirstFailure(chk, defs[1..], faults[1..])
  }

  lemma {:induction false} FirstFailureIs(chk: Checks, defs: seq<RecordDefinition>, faults: seq<bool>, n: nat)
    requires |defs| == |faults| && n <= |defs|
    requires forall k :: 0 <= k < n ==> ValidRecord(chk, defs[k]) && !faults[k]
    requires n < |defs| ==> !ValidRecord(chk, defs[n]) || faults[n]
    ensures FirstFailure(chk, defs, faults) == n
  {
    if n > 0 {
      FirstFailureIs(chk, defs[1..], faults[1..], n - 1);
    }
  }

  /**
   The default of 3600 seconds for an absent TTL is out of reach: validation comes first and refuses a TTL of
   zero, so a stored record's TTL is always the one that was given.
   */
  lemma DefaultTtlUnreachable(chk: Checks, d: RecordDefinition, zoneId: string, disabled: bool, id: string)
    requires ValidRecord(chk, d)
    ensures d.ttl != 0 && NewRecord(zoneId, d, disabled, id).ttl == d.ttl
  {}

  /** A template with one record that leaves its TTL out stores only the records before it. */
  lemma TemplateStopsAtMissingTtl(chk: Checks, defs: seq<RecordDefinition>, faults: seq<bool>, k: nat)
    requires |defs| == |faults| && k < |defs| && defs[k].ttl == 0
    ensures FirstFailure(chk, defs, faults) <= k
  {
    if FirstFailure(chk, defs, faults) > k {
      BeforeFirstFailure(chk, defs, faults, k);
    }
  }

  lemma {:induction false} BeforeFirstFailure(chk: Checks, defs: seq<RecordDefinition>, faults: seq<bool>, k: nat)
    requires |defs| == |faults| && k < FirstFailure(chk, defs, faults)
    ensures ValidRecord(chk, defs[k]) && !faults[k]
  {
    if k > 0 {
      BeforeFirstFailure(chk, defs[1..], faults[1..], k - 1);
    }
  }
}
