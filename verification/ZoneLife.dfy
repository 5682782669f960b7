/**
 What creating and deleting a zone come to (internal/dns/service.go): which rows there are afterwards, and that a
 deleted zone and its records stay gone.
 */
module ZoneLife {
  import opened Common
  import opened AsciiStrings
  import Hostname
  import opened ZoneStore

  // ---------------------------------------------------------------------------
  // What one call leaves
  // ---------------------------------------------------------------------------

  /** The row of a new zone says what was asked for. */
  ghost predicate IsZoneFor(z: Zone, input: ZoneInput, id: string) {
    && z.id == id && z.accountId == input.accountId && z.tenantId == input.tenantId
    && |z.domain| == |input.domain|
    && (forall i :: 0 <= i < |z.domain| ==> z.domain[i] == ToLowerChar(input.domain[i]))
    && (input.kind != "" ==> z.kind == input.kind) && (input.kind == "" ==> z.kind == "native")
    && z.status == "active" && !z.deleted
  }

  /** A creation that succeeds adds one row, for what was asked, and touches no other row or record. */
  lemma CreatedAsAsked(cfg: Config, s: Stores, input: ZoneInput, id: string, f: CreateFaults)
    requires CreateStep(cfg, s, input, id, f).0 == Ok
    ensures var after := CreateStep(cfg, s, input, id, f).1;
            && |after.zones| == |s.zones| + 1 && after.zones[..|s.zones|] == s.zones
            && IsZoneFor(after.zones[|s.zones|], input, id) && after.records == s.records
            && (forall d :: d in s.remote ==> d in after.remote && after.remote[d] == s.remote[d])
            && (cfg.powerdns ==> after.remote.Keys == s.remote.Keys + {after.zones[|s.zones|].domain}
                                 && after.remote[after.zones[|s.zones|].domain] == map[])
            && (!cfg.powerdns ==> after.remote == s.remote)
  {}

  /** All stored domains are in small letters. */
  ghost predicate InSmallLetters(zones: seq<Zone>) {
    forall z :: z in zones ==> ToLower(z.domain) == z.domain
  }

  /**
   When a creation succeeds: the domain is valid, no row has it or the id, deleted rows included, the server does not
   have it, and nothing fails. (A failing lookup is not noticed.)
   */
  lemma CreatedIff(cfg: Config, s: Stores, input: ZoneInput, id: string, f: CreateFaults)
    requires InSmallLetters(s.zones)
    ensures CreateStep(cfg, s, input, id, f).0 == Ok
        <==> Hostname.ValidateZoneDomain(input.domain) == Hostname.Valid
             && (forall z :: z in s.zones ==> z.domain != ToLower(input.domain) && z.id != id) && !f.insert
             && (cfg.powerdns ==> !f.begin && !f.remote && !f.commit && ToLower(input.domain) !in s.remote)
    ensures InSmallLetters(CreateStep(cfg, s, input, id, f).1.zones)
  {
    hide Hostname.ValidateZoneDomain;
    var zone := NewZone(input, id);
    assert ToLower(zone.domain) == zone.domain;
    assert Insertable(s.zones, zone) <==> forall z :: z in s.zones ==> z.domain != zone.domain && z.id != id;
    if LiveDomain(s.zones, input.domain) {
      var k :| 0 <= k < |s.zones| && !s.zones[k].deleted && s.zones[k].domain == input.domain;
      assert s.zones[k] in s.zones;
    }
  }

  /** `after` are the records with exactly those of the zone marked. */
  ghost predicate Cleared(before: seq<Record>, after: seq<Record>, zoneId: string) {
    && |after| == |before|
    && (forall k :: 0 <= k < |after| && before[k].zoneId != zoneId ==> after[k] == before[k])
    && (forall k :: 0 <= k < |after| && before[k].zoneId == zoneId
          ==> after[k].deleted && after[k].(deleted := before[k].deleted) == before[k])
  }

  /**
   A deletion that succeeds, with or without PowerDNS, leaves no live record of the zone and marks its row; every
   other row, record and remote zone is as it was.
   */
  lemma DeletedWithRecords(cfg: Config, s: Stores, zoneId: string, f: DeleteFaults)
    requires DeleteStep(cfg, s, zoneId, f).0 == Ok
    ensures var after, k := DeleteStep(cfg, s, zoneId, f).1, LiveById(s.zones, zoneId);
            && k.Some? && Cleared(s.records, after.records, zoneId)
            && |after.zones| == |s.zones| && after.zones[k.value].deleted
            && after.zones[k.value].(deleted := false) == s.zones[k.value]
            && (forall i :: 0 <= i < |s.zones| && i != k.value ==> after.zones[i] == s.zones[i])
            && (forall d :: d in s.remote && d != s.zones[k.value].domain
                  ==> d in after.remote && after.remote[d] == s.remote[d])
            && (forall d :: d in after.remote ==> d in s.remote)
  {}

  // ---------------------------------------------------------------------------
  // Over runs
  // ---------------------------------------------------------------------------

  /** The zone's row is marked, with all its records. */
  ghost predicate Gone(s: Stores, k: nat, zoneId: string) {
    && k < |s.zones| && s.zones[k].id == zoneId && s.zones[k].deleted
    && forall r :: r in s.records && r.zoneId == zoneId ==> r.deleted
  }

  lemma {:induction false} NotLive(zones: seq<Zone>, k: nat, from: nat)
    requires Indexed(zones) && k < |zones| && zones[k].deleted && from <= |zones|
    ensures LiveById(zones, zones[k].id, from).None?
    decreases |zones| - from
  {
    if from < |zones| {
      NotLive(zones, k, from + 1);
    }
  }

  lemma StepKeepsGone(cfg: Config, s: Stores, step: Step, k: nat, zoneId: string)
    requires Indexed(s.zones) && Gone(s, k, zoneId)
    ensures Gone(Do(cfg, s, step).1, k, zoneId) && Do(cfg, s, step).1.zones[k] == s.zones[k]
    ensures cfg.powerdns && s.zones[k].domain !in s.remote ==> s.zones[k].domain !in Do(cfg, s, step).1.remote
  {
    hide Hostname.ValidateZoneDomain;
    NotLive(s.zones, k, 0);
    if step.Delete? {
      var kept := WithoutRecords(s.records, step.zoneId);
      forall r | r in kept && r.zoneId == zoneId ensures r.deleted {
        var i :| 0 <= i < |kept| && kept[i] == r;
        assert s.records[i] in s.records;
      }
    }
  }

  lemma {:induction false} RunKeepsGone(cfg: Config, s: Stores, steps: seq<Step>, k: nat, zoneId: string)
    requires Indexed(s.zones) && Gone(s, k, zoneId)
    ensures Gone(Run(cfg, s, steps), k, zoneId) && Indexed(Run(cfg, s, steps).zones)
    ensures Run(cfg, s, steps).zones[k] == s.zones[k]
    ensures cfg.powerdns && s.zones[k].domain !in s.remote ==> s.zones[k].domain !in Run(cfg, s, steps).remote
    decreases steps
  {
    if steps != [] {
      StepKeepsGone(cfg, s, steps[0], k, zoneId);
      StepKeepsIndexed(cfg, s, steps[0]);
      hide Do, Indexed, Gone;
      RunKeepsGone(cfg, Do(cfg, s, steps[0]).1, steps[1..], k, zoneId);
    }
  }

  /**
   A deletion that succeeds is for good, over every run that follows: no record of the zone is live, its domain is
   served by no store, and it can never be a live zone again, since the unique index covers deleted rows.
   */
  lemma DeletedForGood(cfg: Config, s: Stores, zoneId: string, f: DeleteFaults, steps: seq<Step>)
    requires Indexed(s.zones) && DeleteStep(cfg, s, zoneId, f).0 == Ok
    ensures var later := Run(cfg, DeleteStep(cfg, s, zoneId, f).1, steps);
            var domain := s.zones[LiveById(s.zones, zoneId).value].domain;
            && LiveById(later.zones, zoneId).None? && !LiveDomain(later.zones, domain)
            && (forall r :: r in later.records && r.zoneId == zoneId ==> r.deleted)
            && (cfg.powerdns ==> domain !in later.remote)
  {
    var k := LiveById(s.zones, zoneId).value;
    var after := DeleteStep(cfg, s, zoneId, f).1;
    DeletedWithRecords(cfg, s, zoneId, f);
    StepKeepsIndexed(cfg, s, Delete(zoneId, f));
    forall r | r in after.records && r.zoneId == zoneId ensures r.deleted {
      var i :| 0 <= i < |after.records| && after.records[i] == r;
    }
    hide DeleteStep, Cleared;
    if cfg.powerdns {
      DeletedFromBoth(cfg, s, zoneId, f);
    }
    RunKeepsGone(cfg, after, steps, k, zoneId);
    NotLive(Run(cfg, after, steps).zones, k, 0);
  }

  /** Every live record belongs to a live zone. */
  ghost predicate RecordsHaveZones(s: Stores) {
    forall r :: r in s.records && !r.deleted ==> LiveById(s.zones, r.zoneId).Some?
  }

  lemma {:induction false} AppendKeepsLiveById(zones: seq<Zone>, z: Zone, id: string, from: nat)
    requires from <= |zones| && LiveById(zones, id, from).Some?
    ensures LiveById(zones + [z], id, from).Some?
    decreases |zones| - from
  {
    if zones[from].id != id || zones[from].deleted {
      AppendKeepsLiveById(zones, z, id, from + 1);
    }
  }

  lemma {:induction false} MarkKeepsOtherLiveById(zones: seq<Zone>, k: nat, id: string, from: nat)
    requires k < |zones| && zones[k].id != id && from <= |zones| && LiveById(zones, id, from).Some?
    ensures LiveById(zones[k := zones[k].(deleted := true)], id, from).Some?
    decreases |zones| - from
  {
    if zones[from].id != id || zones[from].deleted {
      MarkKeepsOtherLiveById(zones, k, id, from + 1);
    }
  }

  lemma StepKeepsRecordsHaveZones(cfg: Config, s: Stores, step: Step)
    requires RecordsHaveZones(s)
    ensures RecordsHaveZones(Do(cfg, s, step).1)
  {
    hide Hostname.ValidateZoneDomain, Insertable, LiveDomain;
    var after := Do(cfg, s, step).1;
    forall r | r in after.records && !r.deleted ensures LiveById(after.zones, r.zoneId).Some? {
      var i :| 0 <= i < |after.records| && after.records[i] == r;
      assert s.records[i] in s.records && s.records[i] == r;
      match step {
        case Create(input, id, f) =>
          AppendKeepsLiveById(s.zones, NewZone(input, id), r.zoneId, 0);
        case Delete(zoneId, f) =>
          if after.zones != s.zones {
            MarkKeepsOtherLiveById(s.zones, LiveById(s.zones, zoneId).value, r.zoneId, 0);
          }
      }
    }
  }

  /** No call leaves a live record behind without its zone, over every run and with faults anywhere. */
  lemma {:induction false} RunKeepsRecordsHaveZones(cfg: Config, s: Stores, steps: seq<Step>)
    requires RecordsHaveZones(s)
    ensures RecordsHaveZones(Run(cfg, s, steps))
    decreases steps
  {
    if steps != [] {
      StepKeepsRecordsHaveZones(cfg, s, steps[0]);
      hide Do, RecordsHaveZones;
      RunKeepsRecordsHaveZones(cfg, Do(cfg, s, steps[0]).1, steps[1..]);
    }
  }

  // ---------------------------------------------------------------------------
  // Only valid domains are stored
  // ---------------------------------------------------------------------------

  ghost predicate DomainsValid(zones: seq<Zone>) {
    forall z :: z in zones ==> Hostname.ValidateZoneDomain(z.domain) == Hostname.Valid
  }

  lemma {:induction false} TrimLower(s: string)
    ensures TrimSpace(ToLower(s)) == ToLower(TrimSpace(s))
    decreases |s|
  {
    if s != "" {
      assert ToLower(s)[1..] == ToLower(s[1..]) && ToLower(s)[..|s| - 1] == ToLower(s[..|s| - 1]);
      TrimLower(s[1..]);
      TrimLower(s[..|s| - 1]);
    }
  }

  lemma LowerStaysValid(s: string)
    requires Hostname.ValidateZoneDomain(s) == Hostname.Valid
    ensures Hostname.ValidateZoneDomain(ToLower(s)) == Hostname.Valid
  {
    hide Hostname.Matches;
    TrimLower(s);
    assert ToLower(ToLower(TrimSpace(s))) == ToLower(TrimSpace(s));
  }

  /** Over every run all stored domains are ones that ValidateZoneDomain accepts. */
  lemma {:induction false} RunKeepsDomainsValid(cfg: Config, s: Stores, steps: seq<Step>)
    requires DomainsValid(s.zones)
    ensures DomainsValid(Run(cfg, s, steps).zones)
    decreases steps
  {
    if steps != [] {
      StepKeepsDomainsValid(cfg, s, steps[0]);
      hide Do, DomainsValid;
      RunKeepsDomainsValid(cfg, Do(cfg, s, steps[0]).1, steps[1..]);
    }
  }

  lemma StepKeepsDomainsValid(cfg: Config, s: Stores, step: Step)
    requires DomainsValid(s.zones)
    ensures DomainsValid(Do(cfg, s, step).1.zones)
  {
    hide Hostname.ValidateZoneDomain;
    if step.Create? && Hostname.ValidateZoneDomain(step.input.domain) == Hostname.Valid {
      LowerStaysValid(step.input.domain);
    }
  }
}
