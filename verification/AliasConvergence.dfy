/** When updating an alias leaves nothing to update, over one pass and over any run of passes. */
module AliasConvergence {
  import opened Common
  import opened Deltas
  import opened Int32
  import opened AliasPermissions
  import opened AliasService
  import opened AliasUpdate
  import opened EventInvoke
  import KeyedSync
  import N = FieldNames

  /** The numbers the service holds are int32, and its statements have IDs. */
  predicate ValidState(s: State) {
    && "" !in s.policy
    && (s.invoke.Some? ==> FitsOption(s.invoke.value.maximumAge) && FitsOption(s.invoke.value.maximumRetries))
    && FitsOption(s.concurrency)
  }

  predicate ConcurrencyCanonical(c: Concurrency) {
    c.functionName.None? && c.qualifier.None? && c.executions.Some? && FitsOption(c.executions)
  }

  /**
    The desired alias asks for nothing that reading it back shows differently: it clears no
    attribute by leaving it out, writes its sub-resources as they are read, and gives every permission
    a statement ID of its own. If its attributes are still to be updated it records no stale revision.
   */
  ghost predicate Settles(d: AliasSpec, s: State) {
    && (d.description.None? ==> s.attributes.description.None?)
    && (d.functionVersion.None? ==> s.attributes.functionVersion.None?)
    && (d.routing.None? ==> s.attributes.routing.None?)
    && (d.invoke.Some? ==> AliasCanonical(d.invoke.value))
    && (d.concurrency.Some? ==> ConcurrencyCanonical(d.concurrency.value))
    && HasStatementIDs(d.permissions) && DistinctIDs(d.permissions)
    && (AttributesOf(d) != s.attributes ==> Current(s, d.revision))
  }

  /** The compared trees of a field are equal exactly when the field is. */
  lemma TreesByName(a: AliasSpec, b: AliasSpec)
    ensures At(a)(N.DESCRIPTION) == At(b)(N.DESCRIPTION) <==> a.description == b.description
    ensures At(a)(N.FUNCTION_EVENT_INVOKE_CONFIG) == At(b)(N.FUNCTION_EVENT_INVOKE_CONFIG) <==> a.invoke == b.invoke
    ensures At(a)(N.FUNCTION_NAME) == At(b)(N.FUNCTION_NAME) <==> a.functionName == b.functionName
    ensures At(a)(N.FUNCTION_REF) == At(b)(N.FUNCTION_REF) <==> a.functionRef == b.functionRef
    ensures At(a)(N.FUNCTION_VERSION) == At(b)(N.FUNCTION_VERSION) <==> a.functionVersion == b.functionVersion
    ensures At(a)(N.NAME) == At(b)(N.NAME) <==> a.name == b.name
    ensures At(a)(N.PROVISIONED_CONCURRENCY_CONFIG) == At(b)(N.PROVISIONED_CONCURRENCY_CONFIG) <==>
            a.concurrency == b.concurrency
    ensures At(a)(N.ROUTING_CONFIG) == At(b)(N.ROUTING_CONFIG) <==> a.routing == b.routing
  {
    hide FieldTree;
    TextTreesByName(a, b);
    SubResourceTreesByName(a, b);
    RoutingTreesByName(a, b);
  }

  lemma TextTreesByName(a: AliasSpec, b: AliasSpec)
    ensures FieldTree(a, N.DESCRIPTION) == FieldTree(b, N.DESCRIPTION) <==> a.description == b.description
    ensures FieldTree(a, N.FUNCTION_NAME) == FieldTree(b, N.FUNCTION_NAME) <==> a.functionName == b.functionName
    ensures FieldTree(a, N.FUNCTION_REF) == FieldTree(b, N.FUNCTION_REF) <==> a.functionRef == b.functionRef
    ensures FieldTree(a, N.FUNCTION_VERSION) == FieldTree(b, N.FUNCTION_VERSION) <==>
            a.functionVersion == b.functionVersion
    ensures FieldTree(a, N.NAME) == FieldTree(b, N.NAME) <==> a.name == b.name
  {
  }

  lemma SubResourceTreesByName(a: AliasSpec, b: AliasSpec)
    ensures FieldTree(a, N.FUNCTION_EVENT_INVOKE_CONFIG) == FieldTree(b, N.FUNCTION_EVENT_INVOKE_CONFIG) <==>
            a.invoke == b.invoke
    ensures FieldTree(a, N.PROVISIONED_CONCURRENCY_CONFIG) == FieldTree(b, N.PROVISIONED_CONCURRENCY_CONFIG) <==>
            a.concurrency == b.concurrency
  {
  }

  lemma RoutingTreesByName(a: AliasSpec, b: AliasSpec)
    ensures FieldTree(a, N.ROUTING_CONFIG) == FieldTree(b, N.ROUTING_CONFIG) <==> a.routing == b.routing
  {
  }

  /** An empty alias delta, field by field. */
  lemma AliasDeltaEmpty(a: AliasSpec, b: AliasSpec)
    ensures AliasDelta(a, b) == [] <==>
            && !PermissionsReported(a.permissions, b.permissions)
            && a.(permissions := b.permissions, revision := b.revision) == b
  {
    hide FieldDifferences, FieldsOf, PermissionsReported, At, FIELDS;
    PrependedEmpty(Reported(a, b), [N.SPEC], FIELDS, At(a), At(b));
    AllTreesByName(a, b);
  }

  lemma AllTreesByName(a: AliasSpec, b: AliasSpec)
    ensures (forall n :: n in FIELDS ==> At(a)(n) == At(b)(n)) <==>
            a.(permissions := b.permissions, revision := b.revision) == b
  {
    hide At, FIELDS;
    TreesByName(a, b);
    FieldsMember();
  }

  lemma FieldsMember()
    ensures && N.DESCRIPTION in FIELDS && N.FUNCTION_EVENT_INVOKE_CONFIG in FIELDS && N.FUNCTION_NAME in FIELDS
            && N.FUNCTION_REF in FIELDS && N.FUNCTION_VERSION in FIELDS && N.NAME in FIELDS
            && N.PROVISIONED_CONCURRENCY_CONFIG in FIELDS && N.ROUTING_CONFIG in FIELDS
    ensures forall n :: n in FIELDS ==>
              || n == N.DESCRIPTION || n == N.FUNCTION_EVENT_INVOKE_CONFIG || n == N.FUNCTION_NAME
              || n == N.FUNCTION_REF
              || n == N.FUNCTION_VERSION || n == N.NAME || n == N.PROVISIONED_CONCURRENCY_CONFIG
              || n == N.ROUTING_CONFIG
  {
  }

  /** UpdateAlias is called exactly when one of its three attributes differs from the read. */
  lemma UpdateAliasCalled(d: AliasSpec, latest: AliasSpec, s: State)
    requires IsAliasRead(latest, d, s)
    ensures DifferentExcept(AliasDelta(d, latest), SUB_RESOURCES) <==> AttributesOf(d) != s.attributes
  {
    hide AliasDelta, DifferentExcept, IsRead, AliasRead, Served, FieldTree;
    OutsideSubResources(d, latest);
    TreesByName(d, latest);
    FieldsMember();
    assert SUB_RESOURCE_NAMES == [N.PROVISIONED_CONCURRENCY_CONFIG, N.FUNCTION_EVENT_INVOKE_CONFIG, N.PERMISSIONS];
    if AttributesOf(d) != s.attributes {
      var n := if d.description != latest.description then N.DESCRIPTION
               else if d.functionVersion != latest.functionVersion then N.FUNCTION_VERSION else N.ROUTING_CONFIG;
      assert n in FIELDS && n !in SUB_RESOURCE_NAMES && At(d)(n) != At(latest)(n);
    }
  }

  /** The alias once a whole update plan is made. */
  lemma PlanEffect(d: AliasSpec, latest: AliasSpec, s: State, plan: seq<Call>)
    requires IsAliasRead(latest, d, s) && HasStatementIDs(d.permissions)
    requires UpdatePlan(plan, d, latest, AliasDelta(d, latest))
    ensures var t := ApplyAll(s, plan);
            && t.invoke == (if d.invoke != latest.invoke then Apply(s, InvokeCall(d)).invoke else s.invoke)
            && t.concurrency == (if d.concurrency != latest.concurrency then Apply(s, ConcurrencyCall(d)).concurrency
                                 else s.concurrency)
            && t.attributes == (if AttributesOf(d) != s.attributes then Apply(s, UpdateCall(d)).attributes
                                else s.attributes)
            && KeyedSync.Gap(Observed, ByID(d.permissions), t.policy) == 0
  {
    hide DifferentAt, DifferentExcept, AliasDelta, IsRead, PermissionPlan, PermissionsReported, ByID, KeyedSync.Gap;
    hide InvokeCall, ConcurrencyCall, Wrap, ApplyAll, Before;
    var ds := AliasDelta(d, latest);
    var changes :| PermissionChanges(changes, d, latest, ds) && plan == UpdateCalls(d, ds, changes);
    var before, after := Before(d, ds), After(d, ds);
    SubResourcesExact(d, latest);
    BeforeEffect(d, ds, s);
    ApplyAllConcat(s, before + Wrap(changes), after);
    ApplyAllConcat(s, before, Wrap(changes));
    var first := ApplyAll(s, before);
    PolicyCallsOnly(first, changes);
    PolicySettled(d, latest, s, changes);
    UpdateAliasCalled(d, latest, s);
    var second := ApplyAll(first, Wrap(changes));
    NoPolicyCalls(second, []);
    OneMoreAliasCall(second, [], UpdateCall(d));
    assert [] + [UpdateCall(d)] == [UpdateCall(d)];
  }

  /** Reported or not, the permission step leaves no gap. */
  lemma PolicySettled(d: AliasSpec, latest: AliasSpec, s: State, changes: seq<KeyedSync.Call<Permission>>)
    requires IsAliasRead(latest, d, s)
    requires PermissionChanges(changes, d, latest, AliasDelta(d, latest))
    ensures KeyedSync.Gap(Observed, ByID(d.permissions), KeyedSync.ApplyAll(s.policy, changes)) == 0
  {
    hide DifferentAt, AliasDelta, IsRead, ByID;
    var desired := ByID(d.permissions);
    PermissionsExact(d, latest);
    ReadComparesAsPolicy(desired, latest.permissions, s.policy);
    if PermissionsReported(d.permissions, latest.permissions) {
      var toRemove, toAdd :|
        && KeyedSync.PlanFor(Observed, desired, ByID(latest.permissions), toRemove, toAdd)
        && changes == KeyedSync.Plan(desired, toRemove, toAdd);
      KeyedSync.PlanConverges(Observed, desired, s.policy, toRemove, toAdd);
    }
  }

  /**
    One update in which nothing failed settles the alias, and settles it exactly then: the next read
    gives an empty delta if and only if the desired spec can settle at all.
   */
  lemma AliasConverges(d: AliasSpec, latest: AliasSpec, s: State, plan: seq<Call>, next: AliasSpec)
    requires ValidState(s) && IsAliasRead(latest, d, s)
    requires FullPlan(plan, d, latest, AliasDelta(d, latest))
    requires IsAliasRead(next, d, ApplyAll(s, plan))
    ensures AliasDelta(d, next) == [] <==> Settles(d, s)
  {
    hide AliasDelta, UpdatePlan, Before, IsRead, PermissionsReported, ApplyAll, DifferentAt, HasStatementIDs;
    hide DistinctIDs, AliasCanonical;
    AliasDeltaEmpty(d, next);
    if HasStatementIDs(d.permissions) {
      CompleteConverges(d, latest, s, plan, next);
    } else {
      PermissionsExact(d, latest);
      MissingIDReported(d.permissions, latest.permissions, s);
      BeforePermissions(d, latest, s);
      MissingIDReported(d.permissions, next.permissions, ApplyAll(s, plan));
    }
  }

  /** A permission without a statement ID is reported against every read. */
  lemma MissingIDReported(desired: seq<Permission>, latest: seq<Permission>, s: State)
    requires IsRead(latest, s.policy)
    ensures "" !in s.policy && !HasStatementIDs(desired) ==> PermissionsReported(desired, latest)
  {
    hide ByID;
    ByIDSize(desired);
    ByIDSize(latest);
    KeyedSync.NoGap(Observed, ByID(desired), ByID(latest));
    SizeIsKeys(ByID(desired));
    SizeIsKeys(ByID(latest));
    ByIDMembers(desired, "");
  }

  /** The same for a spec whose permissions have IDs: the update is not cut short. */
  lemma CompleteConverges(d: AliasSpec, latest: AliasSpec, s: State, plan: seq<Call>, next: AliasSpec)
    requires ValidState(s) && IsAliasRead(latest, d, s) && HasStatementIDs(d.permissions)
    requires UpdatePlan(plan, d, latest, AliasDelta(d, latest))
    requires IsAliasRead(next, d, ApplyAll(s, plan))
    ensures AliasDelta(d, next) == [] <==> Settles(d, s)
  {
    hide AliasDelta, UpdatePlan, IsRead, ByID, PermissionsReported, KeyedSync.Gap, ApplyAll, Apply, DistinctIDs;
    hide HasStatementIDs;
    hide AliasRead, Served, InvokeCall, ConcurrencyCall, AliasCanonical, ConcurrencyCanonical;
    var t := ApplyAll(s, plan);
    PlanEffect(d, latest, s, plan);
    AliasDeltaEmpty(d, next);
    PermissionsSettle(d.permissions, next.permissions, t.policy);
    InvokeSettles(d, s);
    ConcurrencySettles(d, s);
    AttributesSettle(d, s);
  }

  /** With no gap left, a read is reported exactly when the desired permissions repeat an ID. */
  lemma PermissionsSettle(desired: seq<Permission>, next: seq<Permission>, s: Statements)
    requires IsRead(next, s) && HasStatementIDs(desired) && KeyedSync.Gap(Observed, ByID(desired), s) == 0
    ensures PermissionsReported(desired, next) <==> !DistinctIDs(desired)
  {
    hide IsRead, ByID, PermissionsReported, KeyedSync.Gap, DistinctIDs;
    ReadComparesAsPolicy(ByID(desired), next, s);
    SameGap(ByID(desired), ByID(next), s);
    DistinctRead(next, s);
    HaveIDs(desired);
    ReportedWithoutGap(desired, next);
  }

  /**
    The attributes agree after an update exactly when none is cleared by leaving it out and the update is not
    refused.
   */
  lemma AttributesSettle(d: AliasSpec, s: State)
    ensures var t := if AttributesOf(d) != s.attributes then Apply(s, UpdateCall(d)).attributes else s.attributes;
            t == AttributesOf(d) <==>
              && (d.description.None? ==> s.attributes.description.None?)
              && (d.functionVersion.None? ==> s.attributes.functionVersion.None?)
              && (d.routing.None? ==> s.attributes.routing.None?)
              && (AttributesOf(d) != s.attributes ==> Current(s, d.revision))
  {
  }

  lemma SameGap(desired: Statements, a: Statements, b: Statements)
    requires KeyedSync.Stale(Observed, desired, a) == KeyedSync.Stale(Observed, desired, b)
    requires KeyedSync.Missing(Observed, desired, a) == KeyedSync.Missing(Observed, desired, b)
    ensures KeyedSync.Gap(Observed, desired, a) == KeyedSync.Gap(Observed, desired, b)
  {
  }

  lemma DistinctRead(latest: seq<Permission>, s: Statements)
    requires IsRead(latest, s)
    ensures DistinctIDs(latest)
  {
  }

  lemma HaveIDs(ps: seq<Permission>)
    requires HasStatementIDs(ps)
    ensures AllIDs(ps)
  {
  }

  ghost function ReadInvoke(s: State): Option<Config> {
    if s.invoke.Some? then Some(AliasRead(Served(s.invoke.value))) else None
  }

  lemma InvokeSettles(d: AliasSpec, s: State)
    requires ValidState(s)
    ensures var t := if d.invoke != ReadInvoke(s) then Apply(s, InvokeCall(d)) else s;
            d.invoke == ReadInvoke(t) <==> (d.invoke.Some? ==> AliasCanonical(d.invoke.value))
  {
  }

  ghost function ReadConcurrency(s: State): Option<Concurrency> {
    if s.concurrency.Some? then Some(Concurrency(None, s.concurrency, None)) else None
  }

  lemma ConcurrencySettles(d: AliasSpec, s: State)
    requires ValidState(s)
    ensures var t := if d.concurrency != ReadConcurrency(s) then Apply(s, ConcurrencyCall(d)) else s;
            d.concurrency == ReadConcurrency(t) <==> (d.concurrency.Some? ==> ConcurrencyCanonical(d.concurrency.value))
  {
  }

  // ----- any run of updates

  /** A pass: a current read, a plan for it, and as many of its calls as were made before one failed. */
  ghost predicate Pass(d: AliasSpec, s: State, t: State) {
    exists latest, plan, k ::
      && IsAliasRead(latest, d, s)
      && FullPlan(plan, d, latest, AliasDelta(d, latest))
      && 0 <= k <= |plan|
      && t == ApplyAll(s, plan[..k])
  }

  ghost predicate Run(d: AliasSpec, states: seq<State>) {
    states != [] && forall i :: 0 <= i < |states| - 1 ==> Pass(d, states[i], states[i + 1])
  }

  /** A call that an update for `d` may make. */
  ghost predicate MadeFor(d: AliasSpec, c: Call) {
    || c == InvokeCall(d) || c == ConcurrencyCall(d) || c == UpdateCall(d)
    || (c.Policy? && (c.change.Add? ==> c.change.key != ""))
  }

  lemma {:induction false} CallsKeepSettling(d: AliasSpec, s: State, calls: seq<Call>)
    requires forall i :: 0 <= i < |calls| ==> MadeFor(d, calls[i])
    ensures Settles(d, ApplyAll(s, calls)) <==> Settles(d, s)
    ensures ValidState(s) ==> ValidState(ApplyAll(s, calls))
  {
    if calls != [] {
      var n := |calls| - 1;
      CallsKeepSettling(d, s, calls[..n]);
      OneCallKeepsSettling(d, ApplyAll(s, calls[..n]), calls[n]);
    }
  }

  lemma OneCallKeepsSettling(d: AliasSpec, s: State, c: Call)
    requires MadeFor(d, c)
    ensures Settles(d, Apply(s, c)) <==> Settles(d, s)
    ensures ValidState(s) ==> ValidState(Apply(s, c))
  {
  }

  lemma PassKeepsSettling(d: AliasSpec, s: State, t: State)
    requires Pass(d, s, t)
    ensures Settles(d, t) <==> Settles(d, s)
    ensures ValidState(s) ==> ValidState(t)
  {
    hide IsAliasRead, AliasDelta, Settles, ValidState, PermissionChanges, InvokeCall, ConcurrencyCall;
    var latest, plan, k :|
      && IsAliasRead(latest, d, s)
      && FullPlan(plan, d, latest, AliasDelta(d, latest))
      && 0 <= k <= |plan|
      && t == ApplyAll(s, plan[..k]);
    PlanIsMadeFor(d, latest, plan);
    CallsKeepSettling(d, s, plan[..k]);
  }

  lemma PlanIsMadeFor(d: AliasSpec, latest: AliasSpec, plan: seq<Call>)
    requires FullPlan(plan, d, latest, AliasDelta(d, latest))
    ensures forall i :: 0 <= i < |plan| ==> MadeFor(d, plan[i])
  {
    hide AliasDelta, DifferentAt, DifferentExcept, PermissionPlan, InvokeCall, ConcurrencyCall;
    var ds := AliasDelta(d, latest);
    if !EndsTerminally(d, ds) {
      var changes :| PermissionChanges(changes, d, latest, ds) && plan == UpdateCalls(d, ds, changes);
      if changes != [] { AddsHaveIDs(d.permissions, latest.permissions, changes); }
    }
  }

  /** Only permissions with IDs are added. */
  lemma AddsHaveIDs(desired: seq<Permission>, latest: seq<Permission>, changes: seq<KeyedSync.Call<Permission>>)
    requires HasStatementIDs(desired) && PermissionPlan(changes, desired, latest)
    ensures forall i :: 0 <= i < |changes| ==> (changes[i].Add? ==> changes[i].key != "")
  {
    hide ByID, Observed;
    ByIDMembers(desired, "");
  }

  lemma {:induction false} RunKeepsSettling(d: AliasSpec, states: seq<State>)
    requires Run(d, states)
    ensures Settles(d, states[|states| - 1]) <==> Settles(d, states[0])
    ensures ValidState(states[0]) ==> ValidState(states[|states| - 1])
  {
    hide Settles, ValidState, Pass;
    if |states| > 1 {
      var n := |states| - 1;
      assert Run(d, states[..n]);
      RunKeepsSettling(d, states[..n]);
      assert Pass(d, states[n - 1], states[n]);
      PassKeepsSettling(d, states[n - 1], states[n]);
    }
  }

  /**
    Whatever failed in whatever passes before, the first uninterrupted update leaves an empty delta
    exactly when the desired spec could settle from the very first state.
   */
  lemma RunConverges(d: AliasSpec, states: seq<State>, latest: AliasSpec, plan: seq<Call>, next: AliasSpec)
    requires Run(d, states) && ValidState(states[0])
    requires var s := states[|states| - 1];
             && IsAliasRead(latest, d, s)
             && FullPlan(plan, d, latest, AliasDelta(d, latest))
             && IsAliasRead(next, d, ApplyAll(s, plan))
    ensures AliasDelta(d, next) == [] <==> Settles(d, states[0])
  {
    hide Settles, AliasDelta, FullPlan, IsAliasRead, Pass;
    RunKeepsSettling(d, states);
    AliasConverges(d, latest, states[|states| - 1], plan, next);
  }

  // ----- sdkCreate

  /** The calls for the sub-resources that are set, before the permissions. */
  function SubResourceCalls(d: AliasSpec): seq<Call> {
    (if d.invoke.Some? then [InvokeCall(d)] else []) + (if d.concurrency.Some? then [ConcurrencyCall(d)] else [])
  }

  /**
    The calls after CreateAlias: each sub-resource that is set, then one addition per desired
    permission, unless one of those lacks its statement ID.
   */
  ghost predicate CreatePlan(plan: seq<Call>, d: AliasSpec) {
    if HasStatementIDs(d.permissions) then
      exists ids ::
        && KeyedSync.Enumerates(ids, ByID(d.permissions).Keys)
        && plan == SubResourceCalls(d) + Wrap(KeyedSync.Plan(ByID(d.permissions), [], ids))
    else plan == SubResourceCalls(d)
  }

  /** The alias CreateAlias has just made. */
  function Created(d: AliasSpec, revision: nat): State {
    State(AttributesOf(d), revision, None, None, map[])
  }

  /** Creating makes exactly the calls that updating the bare new alias would make, so it settles the same specs. */
  lemma CreateIsUpdateOfBareAlias(d: AliasSpec, revision: nat, bare: AliasSpec, plan: seq<Call>)
    requires IsAliasRead(bare, d, Created(d, revision)) && CreatePlan(plan, d)
    ensures FullPlan(plan, d, bare, AliasDelta(d, bare))
  {
    hide AliasDelta, DifferentAt, DifferentExcept, ByID, InvokeCall, ConcurrencyCall, IsRead, PermissionsReported, Wrap;
    hide HasStatementIDs;
    var desired, ds := ByID(d.permissions), AliasDelta(d, bare);
    SubResourcesExact(d, bare);
    PermissionsExact(d, bare);
    UpdateAliasCalled(d, bare, Created(d, revision));
    if HasStatementIDs(d.permissions) {
      var ids :|
        && KeyedSync.Enumerates(ids, desired.Keys)
        && plan == SubResourceCalls(d) + Wrap(KeyedSync.Plan(desired, [], ids));
      var changes := KeyedSync.Plan(desired, [], ids);
      HaveIDs(d.permissions);
      BareRead(d.permissions, bare.permissions, ids);
      assert plan == UpdateCalls(d, ds, changes);
      assert PermissionChanges(changes, d, bare, ds);
    } else {
      MissingIDReported(d.permissions, bare.permissions, Created(d, revision));
    }
  }

  lemma BareRead(desired: seq<Permission>, bare: seq<Permission>, ids: seq<string>)
    requires IsRead(bare, map[]) && AllIDs(desired)
    requires KeyedSync.Enumerates(ids, ByID(desired).Keys)
    ensures PermissionPlan(KeyedSync.Plan(ByID(desired), [], ids), desired, bare)
    ensures !PermissionsReported(desired, bare) ==> KeyedSync.Plan(ByID(desired), [], ids) == []
  {
    var d, b := ByID(desired), ByID(bare);
    assert b == map[];
    assert KeyedSync.Stale(Observed, d, b) == {};
    assert KeyedSync.Missing(Observed, d, b) == d.Keys;
    assert KeyedSync.PlanFor(Observed, d, b, [], ids);
    if !PermissionsReported(desired, bare) {
      assert |d.Keys| == 0;
      KeyedSync.EnumerationSize(ids, d.Keys);
    }
  }
}
