/**
 What PowerDNS serves of a zone over whole runs of creating and deleting records (internal/dns/service.go:261-298,
 359-407), in PowerDNS mode and with every push succeeding. Statements of the panel's database may fail at any time.
 */
module ZoneRecordRuns {
  import opened Common
  import opened AsciiStrings
  import Hostname
  import ZoneSync
  import opened ZoneStore
  import opened ZoneRecords

  /** The records table, and the remote side of one live zone. */
  datatype State = State(records: seq<Record>, remote: ZoneSync.Remote)

  datatype Step =
    | CreateRecord(zoneId: string, d: RecordDefinition, disabled: bool, id: string, dbFault: bool)
    | DeleteRecord(id: string, lookupFault: bool, deleteFault: bool)

  /** The push of zone `zone` after a change to a record of `changed`. */
  function PushedTo(remote: ZoneSync.Remote, records: seq<Record>, zone: string, changed: string): ZoneSync.Remote {
    if changed == zone then ZoneSync.Synced(remote, Served(records, zone)) else remote
  }

  function Next(chk: Checks, zone: string, s: State, step: Step): State {
    match step
    case CreateRecord(zoneId, d, disabled, id, dbFault) =>
      if !ValidRecord(chk, d) || dbFault then s
      else
        var records := s.records + [NewRecord(zoneId, d, disabled, id)];
        State(records, PushedTo(s.remote, records, zone, zoneId))
    case DeleteRecord(id, lookupFault, deleteFault) =>
      var found := LiveRecord(s.records, id);
      if lookupFault || found.None? || deleteFault then s
      else
        var records := Marked(s.records, found.value);
        State(records, PushedTo(s.remote, records, zone, s.records[found.value].zoneId))
  }

  function Run(chk: Checks, zone: string, s: State, steps: seq<Step>): State {
    if steps == [] then s else Next(chk, zone, Run(chk, zone, s, steps[..|steps| - 1]), steps[|steps| - 1])
  }

  /** The push that the service promises is the one of PushedTo when nothing is refused. */
  lemma PushIsPushedTo(cfg: Config, zones: seq<Zone>, records: seq<Record>, zone: string, changed: string,
                       before: map<string, ZoneSync.Remote>, after: map<string, ZoneSync.Remote>)
    requires Pushed(cfg, zones, records, changed, {}, before, after) && cfg.powerdns && Indexed(zones)
    requires LiveById(zones, zone).Some? && zones[LiveById(zones, zone).value].domain in before
    ensures var domain := zones[LiveById(zones, zone).value].domain;
            domain in after && after[domain] == PushedTo(before[domain], records, zone, changed)
  {
  }

  /** A step is a call of the service with nothing refused; `zone` is any live zone that PowerDNS knows. */
  method Perform(service: RecordService, zone: string, step: Step)
    requires service.cfg.powerdns && Indexed(service.zones) && LiveById(service.zones, zone).Some?
    requires service.zones[LiveById(service.zones, zone).value].domain in service.remote
    modifies service
    ensures service.zones == old(service.zones) && service.remote.Keys == old(service.remote).Keys
    ensures var domain := service.zones[LiveById(service.zones, zone).value].domain;
            State(service.records, service.remote[domain])
            == Next(service.chk, zone, State(old(service.records), old(service.remote)[domain]), step)
  {
    hide Pushed, PushedTo, ValidRecord, NewRecord, Served;
    ghost var records, remote := service.records, service.remote;
    var ok;
    ghost var changed;
    match step {
      case CreateRecord(zoneId, d, disabled, id, dbFault) =>
        ok := service.CreateRecord(zoneId, d, disabled, id, dbFault, {});
        changed := zoneId;
      case DeleteRecord(id, lookupFault, deleteFault) =>
        ok := service.DeleteRecord(id, lookupFault, deleteFault, {});
        changed := if ok then records[LiveRecord(records, id).value].zoneId else zone;
    }
    if ok {
      PushedKeys(service.cfg, service.zones, service.records, changed, {}, remote, service.remote);
      PushIsPushedTo(service.cfg, service.zones, service.records, zone, changed, remote, service.remote);
    }
  }

  // ---------------------------------------------------------------------------
  // The live records of the zone
  // ---------------------------------------------------------------------------

  lemma ServedAppended(records: seq<Record>, r: Record, zone: string)
    ensures r.zoneId != zone ==> Served(records + [r], zone) == Served(records, zone)
  {
    assert (records + [r])[..|records|] == records;
  }

  lemma {:induction false} ServedMarked(records: seq<Record>, k: nat, zone: string)
    requires k < |records| && records[k].zoneId != zone
    ensures Served(Marked(records, k), zone) == Served(records, zone)
  {
    var n := |records| - 1;
    if k < n {
      ServedMarked(records[..n], k, zone);
      assert Marked(records, k)[..n] == Marked(records[..n], k);
    } else {
      assert Marked(records, k)[..n] == records[..n];
    }
  }

  lemma CreatePushesOrSpares(chk: Checks, zone: string, s: State, step: Step)
    requires step.CreateRecord?
    ensures PushesOrSpares(zone, s, Next(chk, zone, s, step))
  {
    hide ValidRecord, Served, ZoneSync.Synced;
    ServedAppended(s.records, NewRecord(step.zoneId, step.d, step.disabled, step.id), zone);
  }

  lemma DeletePushesOrSpares(chk: Checks, zone: string, s: State, step: Step)
    requires step.DeleteRecord?
    ensures PushesOrSpares(zone, s, Next(chk, zone, s, step))
  {
    hide Served, Marked, LiveRecord, ZoneSync.Synced;
    var found := LiveRecord(s.records, step.id);
    if found.Some? && s.records[found.value].zoneId != zone {
      ServedMarked(s.records, found.value, zone);
    }
  }

  ghost predicate PushesOrSpares(zone: string, s: State, s': State) {
    || s'.remote == ZoneSync.Synced(s.remote, Served(s'.records, zone))
    || (s'.remote == s.remote && Served(s'.records, zone) == Served(s.records, zone))
  }

  /** A step either pushes the zone or leaves its live records and its remote side alone. */
  lemma StepPushesOrSpares(chk: Checks, zone: string, s: State, step: Step)
    ensures PushesOrSpares(zone, s, Next(chk, zone, s, step))
  {
    match step {
      case CreateRecord(zoneId, d, disabled, id, _) => CreatePushesOrSpares(chk, zone, s, step);
      case DeleteRecord(id, _, _) => DeletePushesOrSpares(chk, zone, s, step);
    }
  }

  // ---------------------------------------------------------------------------
  // Main results
  // ---------------------------------------------------------------------------

  /** The live records of a type in the zone after a run. */
  function Group(chk: Checks, zone: string, s: State, steps: seq<Step>, t: string): seq<Rec> {
    ZoneSync.OfType(Served(Run(chk, zone, s, steps).records, zone), t)
  }

  /** The same when the type last had any. */
  function LastGroup(chk: Checks, zone: string, s: State, steps: seq<Step>, t: string): seq<Rec> {
    if Group(chk, zone, s, steps, t) != [] || steps == [] then Group(chk, zone, s, steps, t)
    else LastGroup(chk, zone, s, steps[..|steps| - 1], t)
  }

  /** A zone as CreateZone leaves it. */
  predicate Empty(s: State, zone: string) {
    Served(s.records, zone) == [] && s.remote == map[]
  }

  /** The remote side has this group of the type, and the type at all exactly if the group is not empty. */
  predicate Serves(remote: ZoneSync.Remote, t: string, group: seq<Rec>) {
    (t in remote <==> group != []) && (t in remote ==> remote[t] == group)
  }

  /**
   Over every run of creating and deleting records, PowerDNS serves of each type the records it had locally when it
   last had any: exactly the live ones while there are some, and the last ones for good once they are deleted.
   */
  lemma {:induction false} RunServesLastGroup(chk: Checks, zone: string, s: State, steps: seq<Step>, t: string)
    requires Empty(s, zone)
    ensures Serves(Run(chk, zone, s, steps).remote, t, LastGroup(chk, zone, s, steps, t))
  {
    ZoneSync.AbsentType(Served(Run(chk, zone, s, steps).records, zone), t);
    if steps != [] {
      var init := steps[..|steps| - 1];
      RunServesLastGroup(chk, zone, s, init, t);
      ZoneSync.AbsentType(Served(Run(chk, zone, s, init).records, zone), t);
      StepPushesOrSpares(chk, zone, Run(chk, zone, s, init), steps[|steps| - 1]);
      hide Next, Served;
    }
  }

  /** The remote zone mirrors the local records exactly when every type that ever had a live record still has one. */
  lemma MirroredIff(chk: Checks, zone: string, s: State, steps: seq<Step>)
    requires Empty(s, zone)
    ensures ZoneSync.IsGrouping(Run(chk, zone, s, steps).remote, Served(Run(chk, zone, s, steps).records, zone))
            <==> forall t :: LastGroup(chk, zone, s, steps, t) != [] ==> Group(chk, zone, s, steps, t) != []
  {
    var remote, served := Run(chk, zone, s, steps).remote, Served(Run(chk, zone, s, steps).records, zone);
    hide Run, LastGroup, Served, ZoneSync.OfType, ZoneSync.Types;
    forall t
      ensures Serves(remote, t, LastGroup(chk, zone, s, steps, t))
      ensures t in ZoneSync.Types(served) <==> Group(chk, zone, s, steps, t) != []
      ensures Group(chk, zone, s, steps, t) != [] ==> LastGroup(chk, zone, s, steps, t) == Group(chk, zone, s, steps, t)
    {
      RunServesLastGroup(chk, zone, s, steps, t);
      ZoneSync.AbsentType(served, t);
      LastIsPresent(chk, zone, s, steps, t);
    }
    if forall t :: LastGroup(chk, zone, s, steps, t) != [] ==> Group(chk, zone, s, steps, t) != [] {
      forall t ensures t in remote <==> t in ZoneSync.Types(served) {
        assert Serves(remote, t, LastGroup(chk, zone, s, steps, t));
      }
      assert remote.Keys == ZoneSync.Types(served);
      forall t | t in remote ensures remote[t] == ZoneSync.OfType(served, t) {
        assert Serves(remote, t, LastGroup(chk, zone, s, steps, t));
      }
    }
    if ZoneSync.IsGrouping(remote, served) {
      forall t | LastGroup(chk, zone, s, steps, t) != [] ensures Group(chk, zone, s, steps, t) != [] {
        assert Serves(remote, t, LastGroup(chk, zone, s, steps, t));
        assert t in remote.Keys;
      }
    }
  }

  lemma LastIsPresent(chk: Checks, zone: string, s: State, steps: seq<Step>, t: string)
    ensures Group(chk, zone, s, steps, t) != [] ==> LastGroup(chk, zone, s, steps, t) == Group(chk, zone, s, steps, t)
  {
  }

  /** The smallest failing run: one record created and deleted again stays served. */
  lemma DeletedRecordStaysServed(chk: Checks, zone: string, d: RecordDefinition, id: string)
    requires ValidRecord(chk, d)
    ensures var r := NewRecord(zone, d, false, id);
            var s := Run(chk, zone, State([], map[]),
                         [CreateRecord(zone, d, false, id, false), DeleteRecord(id, false, false)]);
            && Served(s.records, zone) == []
            && s.remote == map[r.rtype := [ZoneSync.Rec(r.name, r.rtype, r.content, r.ttl, false)]]
  {
    var r := NewRecord(zone, d, false, id);
    var create, delete := CreateRecord(zone, d, false, id, false), DeleteRecord(id, false, false);
    var rec := ZoneSync.Rec(r.name, r.rtype, r.content, r.ttl, false);
    AfterCreate(chk, zone, d, id, r, rec);
    AfterDelete(chk, zone, r, map[r.rtype := [rec]]);
    hide Next, NewRecord, ValidRecord;
    assert [create, delete][..1] == [create] && [create][..0] == [];
    assert Run(chk, zone, State([], map[]), [create]) == Next(chk, zone, State([], map[]), create);
    ServedOne(r, zone);
  }

  lemma AfterCreate(chk: Checks, zone: string, d: RecordDefinition, id: string, r: Record, rec: Rec)
    requires ValidRecord(chk, d) && r == NewRecord(zone, d, false, id)
    requires rec == ZoneSync.Rec(r.name, r.rtype, r.content, r.ttl, false)
    ensures r.zoneId == zone && r.id == id && !r.deleted && !r.disabled
    ensures Next(chk, zone, State([], map[]), CreateRecord(zone, d, false, id, false))
        == State([r], map[r.rtype := [rec]])
  {
    hide ValidRecord;
    ServedOne(r, zone);
    OneRecord(rec);
    assert [] + [r] == [r];
  }

  lemma AfterDelete(chk: Checks, zone: string, r: Record, remote: ZoneSync.Remote)
    requires r.zoneId == zone && !r.deleted
    ensures Next(chk, zone, State([r], remote), DeleteRecord(r.id, false, false))
        == State([r.(deleted := true)], remote)
  {
    ServedOne(r, zone);
    assert LiveRecord([r], r.id) == Some(0);
    assert Marked([r], 0) == [r.(deleted := true)];
    assert ZoneSync.Types([]) == {};
    assert ZoneSync.Synced(remote, []) == remote;
  }

  lemma ServedOne(r: Record, zone: string)
    requires r.zoneId == zone && !r.deleted
    ensures Served([r], zone) == [ZoneSync.Rec(r.name, r.rtype, r.content, r.ttl, r.disabled)]
    ensures Served([r.(deleted := true)], zone) == []
  {
    assert [r][..0] == [] && [r.(deleted := true)][..0] == [];
  }

  lemma OneRecord(rec: Rec)
    ensures ZoneSync.Synced(map[], [rec]) == map[rec.rtype := [rec]]
  {
    assert ZoneSync.Types([rec]) == {rec.rtype};
    assert [rec][..0] == [];
    assert ZoneSync.OfType([rec], rec.rtype) == [rec];
  }

  // ---------------------------------------------------------------------------
  // What is stored and served
  // ---------------------------------------------------------------------------

  lemma {:induction false} ServedLast(records: seq<Record>, r: Record, zone: string)
    requires r.zoneId == zone && !r.deleted
    ensures Served(records + [r], zone)
         == Served(records, zone) + [ZoneSync.Rec(r.name, r.rtype, r.content, r.ttl, r.disabled)]
  {
    assert (records + [r])[..|records|] == records;
  }

  /** A record that is created is served: PowerDNS has it, with the name and content given, as the last of its type. */
  lemma CreatedIsServed(chk: Checks, zone: string, s: State, d: RecordDefinition, disabled: bool, id: string)
    requires ValidRecord(chk, d)
    ensures var s', t := Next(chk, zone, s, CreateRecord(zone, d, disabled, id, false)), ToUpper(d.rtype);
            && t in s'.remote && s'.remote[t] != []
            && s'.remote[t][|s'.remote[t]| - 1] == ZoneSync.Rec(d.name, t, d.content, d.ttl, disabled)
            && s'.remote[t][..|s'.remote[t]| - 1] == ZoneSync.OfType(Served(s.records, zone), t)
            && forall other :: other in s.remote && other !in ZoneSync.Types(Served(s'.records, zone))
                 ==> other in s'.remote && s'.remote[other] == s.remote[other]
  {
    hide ValidRecord, Served, ZoneSync.Types;
    var r := NewRecord(zone, d, disabled, id);
    DefaultTtlUnreachable(chk, d, zone, disabled, id);
    ServedLast(s.records, r, zone);
    var served, rec := Served(s.records, zone), ZoneSync.Rec(r.name, r.rtype, r.content, r.ttl, r.disabled);
    LastOfType(served, rec);
    assert r.rtype == ToUpper(d.rtype);
  }

  lemma LastOfType(served: seq<Rec>, rec: Rec)
    ensures rec.rtype in ZoneSync.Types(served + [rec])
    ensures ZoneSync.OfType(served + [rec], rec.rtype) == ZoneSync.OfType(served, rec.rtype) + [rec]
  {
    assert (served + [rec])[..|served|] == served;
    assert rec in served + [rec];
  }

  /** What the panel promises of a stored record. */
  ghost predicate WellFormed(r: Record) {
    && r.rtype in ["A", "AAAA", "CNAME", "MX", "TXT", "NS", "SRV", "CAA"]
    && 60 <= r.ttl <= 86400 && 0 <= r.priority <= 65535
    && (TrimSpace(r.name) in {"@", "*"} || Hostname.IsLabel(ToLower(TrimSpace(r.name))))
    && TrimSpace(r.content) != ""
    && (r.rtype in ["CNAME", "NS"] ==> Hostname.ValidateHostname(TrimSpace(r.content)) == Hostname.Valid)
  }

  lemma ValidIsWellFormed(chk: Checks, zoneId: string, d: RecordDefinition, disabled: bool, id: string)
    requires ValidRecord(chk, d)
    ensures WellFormed(NewRecord(zoneId, d, disabled, id))
  {
    hide Hostname.ValidateRecordName, Hostname.ValidateHostname, Hostname.IsLabel;
    Hostname.RecordNameIsOneLabel(d.name);
    var r := NewRecord(zoneId, d, disabled, id);
    assert r.rtype == ToUpper(d.rtype);
  }

  /** Over every run of creating and deleting records, every stored record is well formed. */
  lemma {:induction false} RunKeepsWellFormed(chk: Checks, zone: string, s: State, steps: seq<Step>)
    requires forall r :: r in s.records ==> WellFormed(r)
    ensures forall r :: r in Run(chk, zone, s, steps).records ==> WellFormed(r)
  {
    if steps != [] {
      var before, step := Run(chk, zone, s, steps[..|steps| - 1]), steps[|steps| - 1];
      RunKeepsWellFormed(chk, zone, s, steps[..|steps| - 1]);
      StepKeepsWellFormed(chk, zone, before, step);
      hide Next, WellFormed;
    }
  }

  lemma StepKeepsWellFormed(chk: Checks, zone: string, s: State, step: Step)
    requires forall r :: r in s.records ==> WellFormed(r)
    ensures forall r :: r in Next(chk, zone, s, step).records ==> WellFormed(r)
  {
    hide ValidRecord, NewRecord, Served;
    match step {
      case CreateRecord(zoneId, d, disabled, id, _) =>
        if ValidRecord(chk, d) {
          ValidIsWellFormed(chk, zoneId, d, disabled, id);
        }
      case DeleteRecord(id, _, _) =>
        var found := LiveRecord(s.records, id);
        if found.Some? {
          var r := s.records[found.value];
          assert r in s.records && WellFormed(r.(deleted := true));
        }
    }
  }
}
