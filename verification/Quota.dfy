/**
 Per-tenant limits (internal/quota/quota.go) and the gate they put on the growth of the vault
 (internal/vault/handlers.go). The counts of tables other than the vault's are parameters, and a failing database
 statement has no effect.
 */
module Quota {
  import opened Common
  import V = Vault

  datatype Limits = Limits(
    accounts: int, users: int, domains: int, storageMB: int,
    bandwidthGB: int, apiKeys: int, customRoles: int, secrets: int)

  /** The limits a license tier starts with; an unknown tier counts as "smb". */
  function TierDefault(tier: string): Limits {
    if tier == "isp" then Limits(500, 2000, 2000, 1048576, 10240, 50, 20, 200)
    else if tier == "enterprise" then Limits(5000, 20000, 20000, 10485760, 102400, 200, 100, 1000)
    else if tier == "whitelabel" then Limits(99999, 99999, 99999, 104857600, 1024000, 1000, 500, 5000)
    else Limits(50, 100, 100, 102400, 1024, 10, 5, 50)
  }

  datatype Resource = Account | User | Domain | ApiKey | CustomRole | Secret | Other

  datatype Error = TenantNotFound | LookupFailed | CreateFailed | SaveFailed

  datatype Result<+T> = Ok(value: T) | Failed(error: Error)

  /** Which statement fails: the lookup of the limits, the write of the limits, or the count. */
  datatype Faults = Faults(lookup: bool, write: bool, count: bool)

  datatype Verdict = Allowed | Exceeded(code: string) | CheckFailed(code: string)

  type Table = map<string, Limits>

  class Service {
    var limits: Table

    constructor (table: Table)
      ensures limits == table
    {
      limits := table;
    }

    /** Get: the tenant's limits, created from the tier's default when there is no row. */
    method Get(tenant: string, tier: string, f: Faults) returns (r: Result<Limits>)
      modifies this
      ensures (r, limits) == GetStep(old(limits), tenant, tier, f)
    {
      if tenant == "" {
        return Failed(TenantNotFound);
      }
      if f.lookup {
        return Failed(LookupFailed);
      }
      if tenant in limits {
        return Ok(limits[tenant]);
      }
      var q := TierDefault(tier);
      if f.write {
        return Failed(CreateFailed);
      }
      limits := limits[tenant := q];
      return Ok(q);
    }

    /** Put: replaces the tenant's limits. */
    method Put(tenant: string, q: Limits, f: Faults) returns (r: Result<()>)
      modifies this
      ensures (r, limits) == SetStep(old(limits), tenant, q, f)
    {
      if tenant == "" {
        return Failed(TenantNotFound);
      }
      if f.lookup {
        return Failed(LookupFailed);
      }
      if f.write {
        return Failed(SaveFailed);
      }
      limits := limits[tenant := q];
      return Ok(());
    }

    /** Check: may the tenant have one more of `res`, of which it has `current`? */
    method Check(tenant: string, res: Resource, current: nat, f: Faults) returns (v: Verdict)
      modifies this
      ensures (v, limits) == CheckStep(old(limits), tenant, res, current, f)
    {
      var got := Get(tenant, "smb", f);
      if got.Failed? {
        return CheckFailed("quota_lookup_failed");
      }
      var q := got.value;
      match res {
        case Account =>
          if f.count { return CheckFailed("quota_count_failed"); }
          if current >= q.accounts { return Exceeded("quota_accounts_exceeded"); }
        case User =>
          if f.count { return CheckFailed("quota_count_failed"); }
          if current >= q.users { return Exceeded("quota_users_exceeded"); }
        case ApiKey =>
          if f.count { return CheckFailed("quota_count_failed"); }
          if current >= q.apiKeys { return Exceeded("quota_apikeys_exceeded"); }
        case CustomRole =>
          if f.count { return CheckFailed("quota_count_failed"); }
          if current >= q.customRoles { return Exceeded("quota_custom_roles_exceeded"); }
        case Secret =>
          if f.count { return CheckFailed("quota_count_failed"); }
          if current >= q.secrets { return Exceeded("quota_secrets_exceeded"); }
        case Domain =>
        case Other =>
      }
      return Allowed;
    }
  }

  function GetStep(limits: Table, tenant: string, tier: string, f: Faults): (Result<Limits>, Table) {
    if tenant == "" then (Failed(TenantNotFound), limits)
    else if f.lookup then (Failed(LookupFailed), limits)
    else if tenant in limits then (Ok(limits[tenant]), limits)
    else if f.write then (Failed(CreateFailed), limits)
    else (Ok(TierDefault(tier)), limits[tenant := TierDefault(tier)])
  }

  function SetStep(limits: Table, tenant: string, q: Limits, f: Faults): (Result<()>, Table) {
    if tenant == "" then (Failed(TenantNotFound), limits)
    else if f.lookup then (Failed(LookupFailed), limits)
    else if f.write then (Failed(SaveFailed), limits)
    else (Ok(()), limits[tenant := q])
  }

  /** The limit that caps a resource and the code of its refusal; domains and unknown resources are not capped. */
  function Cap(q: Limits, res: Resource): Option<(int, string)> {
    match res
    case Account => Some((q.accounts, "quota_accounts_exceeded"))
    case User => Some((q.users, "quota_users_exceeded"))
    case ApiKey => Some((q.apiKeys, "quota_apikeys_exceeded"))
    case CustomRole => Some((q.customRoles, "quota_custom_roles_exceeded"))
    case Secret => Some((q.secrets, "quota_secrets_exceeded"))
    case _ => None
  }

  function CheckStep(limits: Table, tenant: string, res: Resource, current: nat, f: Faults): (Verdict, Table) {
    var (got, after) := GetStep(limits, tenant, "smb", f);
    match got
    case Failed(_) => (CheckFailed("quota_lookup_failed"), after)
    case Ok(q) =>
      match Cap(q, res)
      case None => (Allowed, after)
      case Some((limit, code)) =>
        if f.count then (CheckFailed("quota_count_failed"), after)
        else if current >= limit then (Exceeded(code), after)
        else (Allowed, after)
  }

  /** The limits in force for a tenant's next creation. */
  function InForce(limits: Table, tenant: string): Limits {
    if tenant in limits then limits[tenant] else TierDefault("smb")
  }

  /** Without faults, each resource is capped by its own limit, and domains by none. */
  lemma CheckAllowsIff(limits: Table, tenant: string, res: Resource, current: nat)
    requires tenant != ""
    ensures var q, v := InForce(limits, tenant), CheckStep(limits, tenant, res, current, Faults(false, false, false)).0;
            && (v == Allowed <==>
                  match res
                  case Account => current < q.accounts
                  case User => current < q.users
                  case ApiKey => current < q.apiKeys
                  case CustomRole => current < q.customRoles
                  case Secret => current < q.secrets
                  case _ => true)
            && (v.Exceeded? ==>
                  match res
                  case Account => v.code == "quota_accounts_exceeded"
                  case User => v.code == "quota_users_exceeded"
                  case ApiKey => v.code == "quota_apikeys_exceeded"
                  case CustomRole => v.code == "quota_custom_roles_exceeded"
                  case _ => v.code == "quota_secrets_exceeded")
            && !v.CheckFailed?
  {}

  /** Limits that are set are the ones read and enforced from then on, whatever the tier; no other tenant's change. */
  lemma SetIsInForce(limits: Table, tenant: string, q: Limits, f: Faults, tier: string, other: string)
    requires SetStep(limits, tenant, q, f).0.Ok?
    ensures var after := SetStep(limits, tenant, q, f).1;
            && GetStep(after, tenant, tier, Faults(false, false, false)) == (Ok(q), after)
            && InForce(after, tenant) == q
            && (other != tenant ==> InForce(after, other) == InForce(limits, other))
  {}

  ghost predicate AtMost(a: Limits, b: Limits) {
    && a.accounts <= b.accounts && a.users <= b.users && a.domains <= b.domains && a.storageMB <= b.storageMB
    && a.bandwidthGB <= b.bandwidthGB && a.apiKeys <= b.apiKeys && a.customRoles <= b.customRoles
    && a.secrets <= b.secrets
  }

  /** A higher tier never starts with less; an unknown one starts as the lowest. */
  lemma TiersGrow(tier: string)
    ensures AtMost(TierDefault("smb"), TierDefault("isp")) && AtMost(TierDefault("isp"), TierDefault("enterprise"))
    ensures AtMost(TierDefault("enterprise"), TierDefault("whitelabel"))
    ensures tier !in ["isp", "enterprise", "whitelabel"] ==> TierDefault(tier) == TierDefault("smb")
    ensures TierDefault("smb").secrets == 50
  {}

  // ---------------------------------------------------------------------------
  // The handlers
  // ---------------------------------------------------------------------------

  datatype State = State(rows: seq<V.Row>, limits: Table)

  datatype PutResponse =
    | MissingNameOrValue
    | QuotaCheckFailed
    | Forbidden(code: string)
    | SecretTooLarge
    | VaultPutFailed
    | Created(meta: V.Meta)

  datatype PutFaults = PutFaults(get: bool, quota: Faults, put: V.PutFaults)

  datatype DeleteResponse = NotFound | VaultDeleteFailed | NoContent

  class Handlers {
    const vault: V.Vault
    const quota: Service

    constructor (vault: V.Vault, quota: Service)
      ensures this.vault == vault && this.quota == quota
    {
      this.vault, this.quota := vault, quota;
    }

    function Now(): State
      reads vault, quota
    {
      State(vault.rows, quota.limits)
    }

    /** PutHandler: the quota is asked only when the lookup finds no secret, and a failed lookup finds none. */
    method PutHandler(tenant: string, name: string, plaintext: V.Bytes, actor: string, nonce: V.Bytes, f: PutFaults)
      returns (r: PutResponse)
      modifies vault, quota
      ensures (r, Now()) == PutHandled(vault.c, old(Now()), V.Key(tenant, name), plaintext, actor, nonce, f)
    {
      if name == "" || plaintext == [] {
        return MissingNameOrValue;
      }
      var existing := vault.Get(tenant, name, f.get);
      if existing.Failed? {
        var verdict := quota.Check(tenant, Secret, V.Count(vault.rows, tenant), f.quota);
        match verdict {
          case CheckFailed(_) => return QuotaCheckFailed;
          case Exceeded(reason) => return Forbidden(reason);
          case Allowed =>
        }
      }
      var put := vault.Put(tenant, name, plaintext, actor, nonce, f.put);
      match put {
        case Failed(TooLarge) => return SecretTooLarge;
        case Failed(_) => return VaultPutFailed;
        case Ok(meta) => return Created(meta);
      }
    }

    method DeleteHandler(tenant: string, name: string, dbFault: bool) returns (r: DeleteResponse)
      modifies vault
      ensures (r, Now()) == DeleteHandled(old(Now()), V.Key(tenant, name), dbFault)
    {
      var deleted := vault.Delete(tenant, name, dbFault);
      match deleted {
        case Failed(SecretNotFound) => return NotFound;
        case Failed(_) => return VaultDeleteFailed;
        case Ok(_) => return NoContent;
      }
    }
  }

  /** Does the handler's lookup find the secret? */
  predicate Known(rows: seq<V.Row>, key: V.Key, getFault: bool) {
    !getFault && V.Find(rows, key).Some?
  }

  /** The quota check of PutHandler: its verdict and the limits after it. */
  function Gate(s: State, key: V.Key, f: PutFaults): (Verdict, Table) {
    if Known(s.rows, key, f.get) then (Allowed, s.limits)
    else CheckStep(s.limits, key.tenant, Secret, V.Count(s.rows, key.tenant), f.quota)
  }

  function PutHandled(c: V.Crypto, s: State, key: V.Key, plaintext: V.Bytes, actor: string, nonce: V.Bytes,
                      f: PutFaults)
    : (PutResponse, State)
  {
    if key.name == "" || plaintext == [] then (MissingNameOrValue, s)
    else
      var (verdict, limits) := Gate(s, key, f);
      match verdict
      case CheckFailed(_) => (QuotaCheckFailed, State(s.rows, limits))
      case Exceeded(reason) => (Forbidden(reason), State(s.rows, limits))
      case Allowed =>
        var (put, rows) := V.PutStep(c, s.rows, key, plaintext, actor, nonce, f.put);
        match put
        case Failed(TooLarge) => (SecretTooLarge, State(rows, limits))
        case Failed(_) => (VaultPutFailed, State(rows, limits))
        case Ok(meta) => (Created(meta), State(rows, limits))
  }

  function DeleteHandled(s: State, key: V.Key, dbFault: bool): (DeleteResponse, State) {
    var (deleted, rows) := V.DeleteStep(s.rows, key, dbFault);
    match deleted
    case Failed(SecretNotFound) => (NotFound, State(rows, s.limits))
    case Failed(_) => (VaultDeleteFailed, State(rows, s.limits))
    case Ok(_) => (NoContent, State(rows, s.limits))
  }

  /** What the response to a DELETE tells: whether the secret was there, and it is then gone and no other is. */
  lemma DeleteTells(s: State, key: V.Key, dbFault: bool)
    ensures var r := DeleteHandled(s, key, dbFault);
            && (r.0 == VaultDeleteFailed <==> dbFault)
            && (r.0 == NoContent <==>
                  !dbFault && exists k :: 0 <= k < |s.rows| && s.rows[k].key == key && !s.rows[k].deleted)
            && (r.0 != NoContent ==> r.1 == s) && r.1.limits == s.limits
            && (r.0 == NoContent && V.UniqueKeys(s.rows) ==> V.Find(r.1.rows, key).None?)
  {
    var found := V.Find(s.rows, key);
    if !dbFault && found.Some? && V.UniqueKeys(s.rows) {
      NotFoundOnceMarked(s.rows, found.value, 0);
    }
  }

  lemma {:induction false} NotFoundOnceMarked(rows: seq<V.Row>, i: nat, from: nat)
    requires V.UniqueKeys(rows) && i < |rows| && from <= |rows|
    ensures V.Find(rows[i := rows[i].(deleted := true)], rows[i].key, from).None?
    decreases |rows| - from
  {
    if from < |rows| {
      NotFoundOnceMarked(rows, i, from + 1);
    }
  }

  /** What the response to a POST tells: the cause of a refusal, and that the secret is stored exactly on "created". */
  lemma PutTells(c: V.Crypto, s: State, key: V.Key, plaintext: V.Bytes, actor: string, nonce: V.Bytes, f: PutFaults)
    ensures var r := PutHandled(c, s, key, plaintext, actor, nonce, f);
            && (r.0 == MissingNameOrValue <==> key.name == "" || plaintext == [])
            && (r.0 == SecretTooLarge ==> |plaintext| > 65536)
            && (!r.0.Created? ==> r.1.rows == s.rows)
            && (r.0.Created? ==>
                  V.PutStep(c, s.rows, key, plaintext, actor, nonce, f.put) == (V.Ok(r.0.meta), r.1.rows))
  {
    hide CheckStep;
  }

  datatype Step =
    | Put(key: V.Key, plaintext: V.Bytes, actor: string, nonce: V.Bytes, pf: PutFaults)
    | Delete(key: V.Key, dbFault: bool)
    | SetLimits(tenant: string, q: Limits, sf: Faults)
    | GetLimits(tenant: string, tier: string, gf: Faults)

  function Next(c: V.Crypto, s: State, step: Step): State {
    match step
    case Put(key, plaintext, actor, nonce, f) => PutHandled(c, s, key, plaintext, actor, nonce, f).1
    case Delete(key, dbFault) => DeleteHandled(s, key, dbFault).1
    case SetLimits(tenant, q, f) => State(s.rows, SetStep(s.limits, tenant, q, f).1)
    case GetLimits(tenant, tier, f) => State(s.rows, GetStep(s.limits, tenant, tier, f).1)
  }

  function Run(c: V.Crypto, steps: seq<Step>): State {
    if steps == [] then State([], map[]) else Next(c, Run(c, steps[..|steps| - 1]), steps[|steps| - 1])
  }

  // ---------------------------------------------------------------------------
  // How a step changes the count of live secrets
  // ---------------------------------------------------------------------------

  /** The step answers "created" for a new secret, not a rotated one. */
  predicate Creates(c: V.Crypto, s: State, step: Step) {
    step.Put? && V.Find(s.rows, step.key).None?
    && PutHandled(c, s, step.key, step.plaintext, step.actor, step.nonce, step.pf).0.Created?
  }

  predicate Removes(s: State, step: Step) {
    step.Delete? && DeleteHandled(s, step.key, step.dbFault).0 == NoContent
  }

  lemma {:induction false} CountRewritten(rows: seq<V.Row>, i: nat, row: V.Row, tenant: string)
    requires i < |rows|
    ensures V.Count(rows[i := row], tenant) == V.Count(rows, tenant) - V.Weight(rows[i], tenant) + V.Weight(row, tenant)
  {
    var n := |rows| - 1;
    if i < n {
      CountRewritten(rows[..n], i, row, tenant);
      assert rows[i := row][..n] == rows[..n][i := row];
    } else {
      assert rows[i := row][..n] == rows[..n];
    }
  }

  lemma CountAppended(rows: seq<V.Row>, row: V.Row, tenant: string)
    ensures V.Count(rows + [row], tenant) == V.Count(rows, tenant) + V.Weight(row, tenant)
  {
    assert (rows + [row])[..|rows|] == rows;
  }

  lemma PutMovesCount(c: V.Crypto, rows: seq<V.Row>, step: V.Step, tenant: string)
    requires step.Put?
    ensures V.Count(V.Next(c, rows, step), tenant)
            == V.Count(rows, tenant)
               + if V.Accepted(c, rows, step) && V.Find(rows, step.key).None? && step.key.tenant == tenant then 1 else 0
  {
    var rows' := V.Next(c, rows, step);
    if V.Accepted(c, rows, step) {
      match V.Find(rows, step.key) {
        case Some(i) => CountRewritten(rows, i, rows'[i], tenant);
        case None => CountAppended(rows, rows'[|rows|], tenant);
      }
    }
  }

  lemma DeleteMovesCount(c: V.Crypto, rows: seq<V.Row>, step: V.Step, tenant: string)
    requires step.Delete?
    ensures V.Count(V.Next(c, rows, step), tenant)
            == V.Count(rows, tenant) - if V.Accepted(c, rows, step) && step.key.tenant == tenant then 1 else 0
  {
    var rows' := V.Next(c, rows, step);
    if V.Accepted(c, rows, step) {
      var i := V.Find(rows, step.key).value;
      CountRewritten(rows, i, rows'[i], tenant);
    }
  }

  /**
   Only a creation adds to a tenant's count and only a removal takes from it, one at a time; a rotation does neither.
   */
  lemma StepMovesCountByOne(c: V.Crypto, s: State, step: Step, tenant: string)
    ensures V.Count(Next(c, s, step).rows, tenant)
            == V.Count(s.rows, tenant)
               + (if Creates(c, s, step) && step.key.tenant == tenant then 1 else 0)
               - (if Removes(s, step) && step.key.tenant == tenant then 1 else 0)
  {
    match step {
      case Put(key, plaintext, actor, nonce, f) =>
        PutMovesCount(c, s.rows, V.Put(key, plaintext, actor, nonce, f.put), tenant);
      case Delete(key, dbFault) => DeleteMovesCount(c, s.rows, V.Delete(key, dbFault), tenant);
      case _ =>
    }
  }

  function Creations(c: V.Crypto, steps: seq<Step>, tenant: string): nat {
    if steps == [] then 0
    else
      var init, last := steps[..|steps| - 1], steps[|steps| - 1];
      Creations(c, init, tenant) + if Creates(c, Run(c, init), last) && last.key.tenant == tenant then 1 else 0
  }

  function Removals(c: V.Crypto, steps: seq<Step>, tenant: string): nat {
    if steps == [] then 0
    else
      var init, last := steps[..|steps| - 1], steps[|steps| - 1];
      Removals(c, init, tenant) + if Removes(Run(c, init), last) && last.key.tenant == tenant then 1 else 0
  }

  /** Conservation: over every run a tenant's live secrets are its creations less its removals. */
  lemma {:induction false} CountIsCreationsLessRemovals(c: V.Crypto, steps: seq<Step>, tenant: string)
    ensures V.Count(Run(c, steps).rows, tenant) == Creations(c, steps, tenant) - Removals(c, steps, tenant)
  {
    if steps != [] {
      var init, last := steps[..|steps| - 1], steps[|steps| - 1];
      CountIsCreationsLessRemovals(c, init, tenant);
      StepMovesCountByOne(c, Run(c, init), last, tenant);
    }
  }

  // ---------------------------------------------------------------------------
  // The limit holds
  // ---------------------------------------------------------------------------

  /** A step after which a tenant has more secrets leaves it at most its limit then in force, one more than before. */
  lemma GrowthStaysWithinLimit(c: V.Crypto, s: State, step: Step, tenant: string)
    requires V.Count(Next(c, s, step).rows, tenant) > V.Count(s.rows, tenant)
    ensures var s' := Next(c, s, step);
            && tenant in s'.limits
            && V.Count(s'.rows, tenant) == V.Count(s.rows, tenant) + 1 <= s'.limits[tenant].secrets
            && s'.limits[tenant] == (if tenant in s.limits then s.limits[tenant] else TierDefault("smb"))
  {
    hide V.PutStep, V.DeleteStep, V.Count, V.Find, TierDefault;
    StepMovesCountByOne(c, s, step, tenant);
  }

  /**
   A Put of a secret the lookup finds is never refused by the quota, whatever the limits, and does not touch them. When
   the lookup itself fails, the quota of creation is asked even of a rotation.
   */
  lemma RotationIsNotGated(c: V.Crypto, s: State, put: Step)
    requires put.Put? && put.key.name != "" && put.plaintext != [] && V.Find(s.rows, put.key).Some?
    ensures var tenant := put.key.tenant;
            var verdict := CheckStep(s.limits, tenant, Secret, V.Count(s.rows, tenant), put.pf.quota).0;
            var r := PutHandled(c, s, put.key, put.plaintext, put.actor, put.nonce, put.pf);
            if put.pf.get then r.0.Forbidden? <==> verdict.Exceeded?
            else !r.0.Forbidden? && !r.0.QuotaCheckFailed? && r.1.limits == s.limits
  {
  }

  /** Without faults, a new secret is refused exactly when the tenant has its limit already. */
  lemma CreationRefusedIff(c: V.Crypto, s: State, put: Step)
    requires put.Put? && put.key.name != "" && put.key.tenant != "" && 0 < |put.plaintext| <= V.MAX_SECRET_BYTES
    requires put.pf == PutFaults(false, Faults(false, false, false), V.PutFaults(false, false, false))
    requires !V.KeyTaken(s.rows, put.key)
    ensures var r := PutHandled(c, s, put.key, put.plaintext, put.actor, put.nonce, put.pf).0;
            if V.Count(s.rows, put.key.tenant) >= InForce(s.limits, put.key.tenant).secrets
            then r == Forbidden("quota_secrets_exceeded")
            else r.Created? && r.meta.version == 1
  {
    assert V.Find(s.rows, put.key).None?;
  }

  /**
   Over every run: a new secret is refused by the quota exactly when the tenant's creations so far, less its removals,
   have reached the limit in force, and is created otherwise.
   */
  lemma RunRefusesCreationIff(c: V.Crypto, steps: seq<Step>, put: Step)
    requires put.Put? && put.key.name != "" && put.key.tenant != "" && 0 < |put.plaintext| <= V.MAX_SECRET_BYTES
    requires put.pf == PutFaults(false, Faults(false, false, false), V.PutFaults(false, false, false))
    requires !V.KeyTaken(Run(c, steps).rows, put.key)
    ensures var s, tenant := Run(c, steps), put.key.tenant;
            var r := PutHandled(c, s, put.key, put.plaintext, put.actor, put.nonce, put.pf).0;
            if Creations(c, steps, tenant) - Removals(c, steps, tenant) >= InForce(s.limits, tenant).secrets
            then r == Forbidden("quota_secrets_exceeded")
            else r.Created? && r.meta.version == 1
  {
    CountIsCreationsLessRemovals(c, steps, put.key.tenant);
    CreationRefusedIff(c, Run(c, steps), put);
  }

  /** What a tenant may have: nothing before it has limits, and a negative limit counts as none. */
  function Allowance(limits: Table, tenant: string): nat {
    if tenant in limits && limits[tenant].secrets > 0 then limits[tenant].secrets else 0
  }

  ghost predicate Within(s: State) {
    forall tenant :: V.Count(s.rows, tenant) <= Allowance(s.limits, tenant)
  }

  /** The step sets the limit of a tenant that has secrets below what it has. */
  predicate CutsBelow(s: State, step: Step) {
    step.SetLimits? && SetStep(s.limits, step.tenant, step.q, step.sf).0.Ok?
    && V.Count(s.rows, step.tenant) > 0 && V.Count(s.rows, step.tenant) > step.q.secrets
  }

  lemma TenantStaysWithin(c: V.Crypto, s: State, step: Step, tenant: string)
    requires Within(s) && !CutsBelow(s, step)
    ensures var s' := Next(c, s, step); V.Count(s'.rows, tenant) <= Allowance(s'.limits, tenant)
  {
    hide V.PutStep, V.DeleteStep, V.Count;
    var s' := Next(c, s, step);
    StepMovesCountByOne(c, s, step, tenant);
    assert V.Count(s.rows, tenant) <= Allowance(s.limits, tenant);
    if V.Count(s'.rows, tenant) > V.Count(s.rows, tenant) {
      GrowthStaysWithinLimit(c, s, step, tenant);
    }
  }

  /** From a state within the limits, exactly the steps that cut a limit below the count leave it. */
  lemma StepKeepsWithinIff(c: V.Crypto, s: State, step: Step)
    requires Within(s)
    ensures Within(Next(c, s, step)) <==> !CutsBelow(s, step)
  {
    var s' := Next(c, s, step);
    if CutsBelow(s, step) {
      assert V.Count(s'.rows, step.tenant) > Allowance(s'.limits, step.tenant);
    } else {
      forall tenant ensures V.Count(s'.rows, tenant) <= Allowance(s'.limits, tenant) {
        TenantStaysWithin(c, s, step, tenant);
      }
    }
  }

  /** The run is within the limits after each of its steps. */
  ghost predicate AlwaysWithin(c: V.Crypto, steps: seq<Step>) {
    forall n :: 0 <= n <= |steps| ==> Within(Run(c, steps[..n]))
  }

  predicate EverCutsBelow(c: V.Crypto, steps: seq<Step>) {
    exists n :: 0 <= n < |steps| && CutsBelow(Run(c, steps[..n]), steps[n])
  }

  lemma PrefixesOfRun(c: V.Crypto, init: seq<Step>, last: Step)
    ensures AlwaysWithin(c, init + [last]) <==> AlwaysWithin(c, init) && Within(Run(c, init + [last]))
    ensures EverCutsBelow(c, init + [last]) <==> EverCutsBelow(c, init) || CutsBelow(Run(c, init), last)
  {
    hide Run, Within, CutsBelow;
    var steps := init + [last];
    assert forall n :: 0 <= n <= |init| ==> steps[..n] == init[..n];
    assert init[..|init|] == init && steps[..|steps|] == steps;
    assert steps[|init|] == last;
  }

  lemma LastStateWithin(c: V.Crypto, steps: seq<Step>)
    requires AlwaysWithin(c, steps)
    ensures Within(Run(c, steps))
  {
    assert Within(Run(c, steps[..|steps|]));
    assert steps[..|steps|] == steps;
  }

  /**
   Over every run: all its states are within the limits exactly when no limit was set below the count of the moment.
   */
  lemma {:induction false} RunKeepsWithinIff(c: V.Crypto, steps: seq<Step>)
    ensures AlwaysWithin(c, steps) <==> !EverCutsBelow(c, steps)
  {
    if steps == [] {
      assert forall n :: 0 <= n <= |steps| ==> steps[..n] == [];
      assert forall tenant :: V.Count([], tenant) == 0;
    } else {
      var init, last := steps[..|steps| - 1], steps[|steps| - 1];
      assert steps == init + [last];
      RunKeepsWithinIff(c, init);
      PrefixesOfRun(c, init, last);
      if AlwaysWithin(c, init) {
        LastStateWithin(c, init);
        StepKeepsWithinIff(c, Run(c, init), last);
      }
    }
  }

  /** No call of the run lowers a limit that was in force. */
  predicate NeverLowers(c: V.Crypto, steps: seq<Step>) {
    forall n :: 0 <= n < |steps| && steps[n].SetLimits? ==>
      Allowance(Run(c, steps[..n]).limits, steps[n].tenant) <= steps[n].q.secrets
  }

  lemma NeverLowersPrefix(c: V.Crypto, init: seq<Step>, last: Step)
    requires NeverLowers(c, init + [last])
    ensures NeverLowers(c, init)
    ensures last.SetLimits? ==> Allowance(Run(c, init).limits, last.tenant) <= last.q.secrets
  {
    var steps := init + [last];
    assert forall n :: 0 <= n < |init| ==> steps[n] == init[n] && steps[..n] == init[..n];
    assert steps[|init|] == last && steps[..|init|] == init;
  }

  /** When limits are never lowered, no reachable state has a tenant over its limit. */
  lemma {:induction false} WithinWhenNeverLowered(c: V.Crypto, steps: seq<Step>)
    requires NeverLowers(c, steps)
    ensures AlwaysWithin(c, steps)
  {
    if steps == [] {
      RunKeepsWithinIff(c, steps);
    } else {
      var init, last := steps[..|steps| - 1], steps[|steps| - 1];
      assert steps == init + [last];
      NeverLowersPrefix(c, init, last);
      WithinWhenNeverLowered(c, init);
      LastStateWithin(c, init);
      StepKeepsWithinIff(c, Run(c, init), last);
      PrefixesOfRun(c, init, last);
    }
  }
}
