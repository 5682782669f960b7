/**
 DNS zones and records in two stores (internal/dns/service.go): the panel's database, in which deleting is
 marking, and a remote PowerDNS server. A fault may strike at any statement or remote call; a failed statement,
 a rolled-back or failed transaction and a failed remote call have no effect.
 */
module ZoneStore {
  import opened Common
  import opened AsciiStrings
  import Hostname
  import ZoneSync

  type Rec = ZoneSync.Rec

  datatype Zone = Zone(id: string, accountId: string, tenantId: string, domain: string,
                         kind: string, status: string, deleted: bool)

  datatype Record = Record(id: string, zoneId: string, name: string, rtype: string, content: string, ttl: int,
                           priority: int, disabled: bool, deleted: bool)

  /** Both tables, and the remote zones by domain. */
  datatype Stores = Stores(zones: seq<Zone>, records: seq<Record>, remote: map<string, ZoneSync.Remote>)

  datatype ZoneInput = ZoneInput(accountId: string, tenantId: string, domain: string, kind: string)

  /** Which statement or call of CreateZone fails. */
  datatype CreateFaults = CreateFaults(lookup: bool, begin: bool, insert: bool, remote: bool,
                               commit: bool, compensate: bool)

  datatype DeleteFaults = DeleteFaults(lookup: bool, remote: bool, begin: bool, records: bool, zone: bool, commit: bool)

  datatype Outcome = Ok | Invalid | Exists | NotFound | DbFailed | RemoteFailed

  /** What a deployment fixes: whether PowerDNS is configured, and whether it calls deleting a missing zone an error. */
  datatype Config = Config(powerdns: bool, missingIsError: bool)

  // ---------------------------------------------------------------------------
  // The database
  // ---------------------------------------------------------------------------

  predicate LiveDomain(zones: seq<Zone>, domain: string) {
    exists k :: 0 <= k < |zones| && !zones[k].deleted && zones[k].domain == domain
  }

  /** The unique indexes on domain and id cover deleted rows too. */
  predicate Insertable(zones: seq<Zone>, z: Zone) {
    forall k :: 0 <= k < |zones| ==> zones[k].domain != z.domain && zones[k].id != z.id
  }

  /** SELECT ... WHERE id = ?, deleted rows hidden. */
  function LiveById(zones: seq<Zone>, id: string, from: nat := 0): (i: Option<nat>)
    requires from <= |zones|
    ensures i.Some? ==> from <= i.value < |zones| && zones[i.value].id == id && !zones[i.value].deleted
    decreases |zones| - from
  {
    if from == |zones| then None
    else if zones[from].id == id && !zones[from].deleted then Some(from)
    else LiveById(zones, id, from + 1)
  }

  /** DELETE ... WHERE zone_id = ? */
  function WithoutRecords(records: seq<Record>, zoneId: string): (r: seq<Record>)
    ensures |r| == |records|
    ensures forall k :: 0 <= k < |r| ==>
              r[k] == if records[k].zoneId == zoneId then records[k].(deleted := true) else records[k]
  {
    if records == [] then []
    else
      var r := records[0];
      [if r.zoneId == zoneId then r.(deleted := true) else r] + WithoutRecords(records[1..], zoneId)
  }

  function NewZone(input: ZoneInput, id: string): Zone {
    Zone(id, input.accountId, input.tenantId, ToLower(input.domain),
         if input.kind == "" then "native" else input.kind, "active", false)
  }

  // ---------------------------------------------------------------------------
  // The calls
  // ---------------------------------------------------------------------------

  class Service {
    const cfg: Config
    var zones: seq<Zone>
    var records: seq<Record>
    var remote: map<string, ZoneSync.Remote>

    function State(): Stores
      reads this
    {
      Stores(zones, records, remote)
    }

    constructor (cfg: Config, s: Stores)
      ensures this.cfg == cfg && State() == s
    {
      this.cfg := cfg;
      zones, records, remote := s.zones, s.records, s.remote;
    }

    /** POST /zones; the server refuses a zone that it has. */
    method RemoteCreate(domain: string, fault: bool) returns (ok: bool)
      modifies this`remote
      ensures ok <==> !fault && domain !in old(remote)
      ensures remote == if ok then old(remote)[domain := map[]] else old(remote)
    {
      ok := !fault && domain !in remote;
      if ok {
        remote := remote[domain := map[]];
      }
    }

    /** DELETE /zones/{domain} */
    method RemoteDelete(domain: string, fault: bool) returns (ok: bool)
      modifies this`remote
      ensures ok <==> !fault && (domain in old(remote) || !cfg.missingIsError)
      ensures remote == if ok then old(remote) - {domain} else old(remote)
    {
      ok := !fault && (domain in remote || !cfg.missingIsError);
      if ok {
        remote := remote - {domain};
      }
    }

    method CreateZone(input: ZoneInput, id: string, f: CreateFaults) returns (r: Outcome)
      modifies this
      ensures (r, State()) == CreateStep(cfg, old(State()), input, id, f)
    {
      if Hostname.ValidateZoneDomain(input.domain) != Hostname.Valid {
        return Invalid;
      }
      if !f.lookup && LiveDomain(zones, input.domain) {
        return Exists;
      }
      var zone := NewZone(input, id);
      if cfg.powerdns {
        if f.begin {
          return DbFailed;
        }
        var tx := zones;
        if f.insert || !Insertable(tx, zone) {
          return DbFailed;  // rolled back
        }
        tx := tx + [zone];
        var created := RemoteCreate(zone.domain, f.remote);
        if !created {
          return RemoteFailed;  // rolled back
        }
        if f.commit {
          var _ := RemoteDelete(zone.domain, f.compensate);
          return DbFailed;
        }
        zones := tx;
        return Ok;
      }
      if f.insert || !Insertable(zones, zone) {
        return DbFailed;
      }
      zones := zones + [zone];
      return Ok;
    }

    method DeleteZone(zoneId: string, f: DeleteFaults) returns (r: Outcome)
      modifies this
      ensures (r, State()) == DeleteStep(cfg, old(State()), zoneId, f)
    {
      if f.lookup {
        return NotFound;
      }
      var found := LiveById(zones, zoneId);
      if found.None? {
        return NotFound;
      }
      var zone := zones[found.value];
      if cfg.powerdns {
        var gone := RemoteDelete(zone.domain, f.remote);
        if !gone {
          return RemoteFailed;
        }
        if f.begin {
          return DbFailed;
        }
        var txRecords, txZones := records, zones;
        if f.records {
          return DbFailed;
        }
        txRecords := WithoutRecords(txRecords, zoneId);
        if f.zone {
          return DbFailed;
        }
        txZones := txZones[found.value := zone.(deleted := true)];
        if f.commit {
          return DbFailed;
        }
        records, zones := txRecords, txZones;
        return Ok;
      }
      if f.records {
        return DbFailed;
      }
      records := WithoutRecords(records, zoneId);
      if f.zone {
        return DbFailed;
      }
      zones := zones[found.value := zone.(deleted := true)];
      return Ok;
    }
  }

  // ---------------------------------------------------------------------------
  // The calls as steps
  // ---------------------------------------------------------------------------

  function CreateStep(cfg: Config, s: Stores, input: ZoneInput, id: string, f: CreateFaults): (Outcome, Stores) {
    var zone := NewZone(input, id);
    if Hostname.ValidateZoneDomain(input.domain) != Hostname.Valid then (Invalid, s)
    else if !f.lookup && LiveDomain(s.zones, input.domain) then (Exists, s)
    else if (cfg.powerdns && f.begin) || f.insert || !Insertable(s.zones, zone) then (DbFailed, s)
    else if !cfg.powerdns then (Ok, s.(zones := s.zones + [zone]))
    else if f.remote || zone.domain in s.remote then (RemoteFailed, s)
    else if !f.commit then (Ok, s.(zones := s.zones + [zone], remote := s.remote[zone.domain := map[]]))
    else if f.compensate then (DbFailed, s.(remote := s.remote[zone.domain := map[]]))
    else (DbFailed, s.(remote := s.remote[zone.domain := map[]] - {zone.domain}))
  }

  function DeleteStep(cfg: Config, s: Stores, zoneId: string, f: DeleteFaults): (Outcome, Stores) {
    var found := LiveById(s.zones, zoneId);
    if f.lookup || found.None? then (NotFound, s)
    else
      var zone := s.zones[found.value];
      var kept := WithoutRecords(s.records, zoneId);
      var marked := s.zones[found.value := zone.(deleted := true)];
      if !cfg.powerdns then
        if f.records then (DbFailed, s)
        else if f.zone then (DbFailed, s.(records := kept))
        else (Ok, s.(records := kept, zones := marked))
      else if f.remote || (zone.domain !in s.remote && cfg.missingIsError) then (RemoteFailed, s)
      else if f.begin || f.records || f.zone || f.commit then (DbFailed, s.(remote := s.remote - {zone.domain}))
      else (Ok, Stores(marked, kept, s.remote - {zone.domain}))
  }

  datatype Step =
    | Create(input: ZoneInput, id: string, cf: CreateFaults)
    | Delete(zoneId: string, df: DeleteFaults)

  function Do(cfg: Config, s: Stores, step: Step): (Outcome, Stores) {
    match step
    case Create(input, id, f) => CreateStep(cfg, s, input, id, f)
    case Delete(zoneId, f) => DeleteStep(cfg, s, zoneId, f)
  }

  function Run(cfg: Config, s: Stores, steps: seq<Step>): Stores
    decreases steps
  {
    if steps == [] then s else Run(cfg, Do(cfg, s, steps[0]).1, steps[1..])
  }

  // ---------------------------------------------------------------------------
  // Two-store consistency
  // ---------------------------------------------------------------------------

  /** The indexes hold: ids and domains are unique among all rows. */
  ghost predicate Indexed(zones: seq<Zone>) {
    forall i, j :: 0 <= i < j < |zones| ==> zones[i].domain != zones[j].domain && zones[i].id != zones[j].id
  }

  /** Every remote zone has a live local row. */
  ghost predicate Backed(s: Stores) {
    forall d :: d in s.remote ==> LiveDomain(s.zones, d)
  }

  /** The commit of a new zone fails after its remote creation, and so does the deletion that should undo that. */
  predicate Orphans(cfg: Config, s: Stores, step: Step) {
    && step.Create? && cfg.powerdns && step.cf.commit && step.cf.compensate
    && CreateStep(cfg, s, step.input, step.id, step.cf.(commit := false)).0 == Ok
  }

  lemma StepKeepsIndexed(cfg: Config, s: Stores, step: Step)
    requires Indexed(s.zones)
    ensures Indexed(Do(cfg, s, step).1.zones)
  {}

  lemma AppendedLive(zones: seq<Zone>, z: Zone, d: string)
    ensures LiveDomain(zones + [z], d) <==> LiveDomain(zones, d) || (!z.deleted && z.domain == d)
  {
    var longer := zones + [z];
    assert longer[|zones|] == z;
    assert forall k :: 0 <= k < |zones| ==> longer[k] == zones[k];
  }

  lemma MarkedLive(zones: seq<Zone>, k: nat, d: string)
    requires Indexed(zones) && k < |zones| && !zones[k].deleted
    ensures LiveDomain(zones[k := zones[k].(deleted := true)], d) <==> LiveDomain(zones, d) && d != zones[k].domain
  {
    var marked := zones[k := zones[k].(deleted := true)];
    if LiveDomain(zones, d) && d != zones[k].domain {
      var i :| 0 <= i < |zones| && !zones[i].deleted && zones[i].domain == d;
      assert marked[i] == zones[i];
    }
    if LiveDomain(marked, d) {
      var i :| 0 <= i < |marked| && !marked[i].deleted && marked[i].domain == d;
      assert marked[i] == zones[i];
    }
  }

  lemma StepBacked(cfg: Config, s: Stores, step: Step)
    requires cfg.powerdns && Indexed(s.zones)
    ensures Backed(Do(cfg, s, step).1) <==> Backed(s) && !Orphans(cfg, s, step)
  {
    var after := Do(cfg, s, step).1;
    match step {
      case Create(input, id, f) =>
        CreateBacked(cfg, s, input, id, f);
      case Delete(zoneId, f) =>
        if after != s {
          var k := LiveById(s.zones, zoneId).value;
          var domain := s.zones[k].domain;
          assert LiveDomain(s.zones, domain);
          forall d { MarkedLive(s.zones, k, d); }
          assert forall d :: d in s.remote ==> d in after.remote || d == domain;
        }
    }
  }

  lemma CreateBacked(cfg: Config, s: Stores, input: ZoneInput, id: string, f: CreateFaults)
    requires cfg.powerdns && Indexed(s.zones)
    ensures Backed(CreateStep(cfg, s, input, id, f).1) <==> Backed(s) && !Orphans(cfg, s, Create(input, id, f))
  {
    var after, zone := CreateStep(cfg, s, input, id, f).1, NewZone(input, id);
    forall d { AppendedLive(s.zones, zone, d); }
    if after.zones == s.zones && after.remote != s.remote && f.compensate {
      assert !LiveDomain(s.zones, zone.domain);
      assert zone.domain in after.remote;
    }
    assert forall d :: d in s.remote ==> d in after.remote || d == zone.domain;
  }

  /** Some step of the run leaves an orphan. */
  predicate EverOrphans(cfg: Config, s: Stores, steps: seq<Step>)
    decreases steps
  {
    steps != [] && (Orphans(cfg, s, steps[0]) || EverOrphans(cfg, Do(cfg, s, steps[0]).1, steps[1..]))
  }

  /**
   Two-store consistency, in PowerDNS mode and over every run with faults anywhere: every remote zone has a
   live local row exactly if it had one at the start and no failed commit was followed by a failed compensation.
   */
  lemma {:induction false} RunBacked(cfg: Config, s: Stores, steps: seq<Step>)
    requires cfg.powerdns && Indexed(s.zones)
    ensures Backed(Run(cfg, s, steps)) <==> Backed(s) && !EverOrphans(cfg, s, steps)
    decreases steps
  {
    if steps != [] {
      StepBacked(cfg, s, steps[0]);
      StepKeepsIndexed(cfg, s, steps[0]);
      RunBacked(cfg, Do(cfg, s, steps[0]).1, steps[1..]);
    }
  }

  /** A created zone is in both stores. */
  lemma CreatedInBoth(cfg: Config, s: Stores, input: ZoneInput, id: string, f: CreateFaults)
    requires cfg.powerdns && CreateStep(cfg, s, input, id, f).0 == Ok
    ensures var after := CreateStep(cfg, s, input, id, f).1;
            LiveDomain(after.zones, ToLower(input.domain)) && ToLower(input.domain) in after.remote
  {
    AppendedLive(s.zones, NewZone(input, id), ToLower(input.domain));
  }

  /** A deleted zone is in neither. */
  lemma DeletedFromBoth(cfg: Config, s: Stores, zoneId: string, f: DeleteFaults)
    requires cfg.powerdns && Indexed(s.zones) && DeleteStep(cfg, s, zoneId, f).0 == Ok
    ensures var domain, after := s.zones[LiveById(s.zones, zoneId).value].domain, DeleteStep(cfg, s, zoneId, f).1;
            !LiveDomain(after.zones, domain) && domain !in after.remote
  {
    var k := LiveById(s.zones, zoneId).value;
    MarkedLive(s.zones, k, s.zones[k].domain);
  }

  /**
   A failed call leaves the local tables as they were, always in PowerDNS mode. Without PowerDNS the two
   deletions of DeleteZone are no transaction: the records are gone when only the second statement fails.
   */
  lemma FailedCallKeepsTables(cfg: Config, s: Stores, step: Step)
    requires Do(cfg, s, step).0 != Ok
    ensures var after := Do(cfg, s, step).1;
            after.zones == s.zones
            && (after.records == s.records <==>
                  !(!cfg.powerdns && step.Delete? && !step.df.lookup && LiveById(s.zones, step.zoneId).Some?
                    && !step.df.records && step.df.zone
                    && exists k :: 0 <= k < |s.records| && s.records[k].zoneId == step.zoneId && !s.records[k].deleted))
  {
    if step.Delete? {
      var kept := WithoutRecords(s.records, step.zoneId);
      if forall k :: 0 <= k < |s.records| && s.records[k].zoneId == step.zoneId ==> s.records[k].deleted {
        assert kept == s.records;
      }
    }
  }

  // ---------------------------------------------------------------------------
  // The half-deleted zone
  // ---------------------------------------------------------------------------

  /** Locally live, remotely gone: what a DeleteZone leaves whose local half fails. */
  ghost predicate HalfDeleted(s: Stores, domain: string) {
    LiveDomain(s.zones, domain) && domain !in s.remote
  }

  lemma StepKeepsHalfDeleted(cfg: Config, s: Stores, step: Step, domain: string)
    requires cfg.powerdns && cfg.missingIsError && Indexed(s.zones) && HalfDeleted(s, domain)
    ensures HalfDeleted(Do(cfg, s, step).1, domain)
  {
    var k :| 0 <= k < |s.zones| && !s.zones[k].deleted && s.zones[k].domain == domain;
    match step {
      case Create(input, id, f) =>
        AppendedLive(s.zones, NewZone(input, id), domain);
      case Delete(zoneId, f) =>
        var found := LiveById(s.zones, zoneId);
        if found.Some? {
          MarkedLive(s.zones, found.value, domain);
        }
    }
  }

  /**
   Where the server calls deleting a missing zone an error, a half-deleted zone stays so for good: over
   every run it can neither be deleted nor created again.
   */
  lemma {:induction false} HalfDeletedForever(cfg: Config, s: Stores, steps: seq<Step>, domain: string)
    requires cfg.powerdns && cfg.missingIsError && Indexed(s.zones) && HalfDeleted(s, domain)
    ensures HalfDeleted(Run(cfg, s, steps), domain)
    decreases steps
  {
    if steps != [] {
      StepKeepsHalfDeleted(cfg, s, steps[0], domain);
      StepKeepsIndexed(cfg, s, steps[0]);
      HalfDeletedForever(cfg, Do(cfg, s, steps[0]).1, steps[1..], domain);
    }
  }

  /** It comes about exactly when the remote half of a deletion succeeds and the local half fails. */
  lemma HalfDeletedIff(cfg: Config, s: Stores, zoneId: string, f: DeleteFaults)
    requires cfg.powerdns && !f.lookup && LiveById(s.zones, zoneId).Some?
    requires s.zones[LiveById(s.zones, zoneId).value].domain in s.remote && Indexed(s.zones)
    ensures HalfDeleted(DeleteStep(cfg, s, zoneId, f).1, s.zones[LiveById(s.zones, zoneId).value].domain)
            <==> !f.remote && (f.begin || f.records || f.zone || f.commit)
  {
    var k := LiveById(s.zones, zoneId).value;
    MarkedLive(s.zones, k, s.zones[k].domain);
  }
}
