/** The alias as the service keeps it, and the calls that change it. */
module AliasService {
  import opened Common
  import opened AliasPermissions
  import EventInvoke
  import KeyedSync

  datatype Attributes = Attributes(
    description: Option<string>,
    functionVersion: Option<string>,
    routing: Option<map<string, real>>)

  /** Revisions are numbered in the order the service gives them out; only updating the alias itself makes a new one. */
  datatype State = State(
    attributes: Attributes,
    revision: nat,
    invoke: Option<EventInvoke.Wire>,
    concurrency: Option<int>,
    policy: Statements)

  datatype Call =
    | PutInvoke(config: EventInvoke.Wire)
    | DeleteInvoke
    | PutConcurrency(executions: int)
    | DeleteConcurrency
    | Policy(change: KeyedSync.Call<Permission>)
    | UpdateAlias(attributes: Attributes, revision: Option<nat>)

  predicate Accepts(s: State, c: Call) {
    match c
    case Policy(change) => KeyedSync.Accepts(s.policy, change)
    case DeleteInvoke => s.invoke.Some?
    case UpdateAlias(_, revision) => Current(s, revision)
    case _ => true
  }

  /** A request that names a revision is for that revision only. */
  predicate Current(s: State, revision: Option<nat>) {
    revision.None? || revision.value == s.revision
  }

  /** A field left nil in a request keeps its value. */
  function Kept<T>(sent: Option<T>, current: Option<T>): Option<T> {
    if sent.Some? then sent else current
  }

  function Apply(s: State, c: Call): State {
    match c
    case PutInvoke(w) => s.(invoke := Some(w))
    case DeleteInvoke => s.(invoke := None)
    case PutConcurrency(n) => s.(concurrency := Some(n))
    case DeleteConcurrency => s.(concurrency := None)
    case Policy(change) => s.(policy := KeyedSync.Apply(s.policy, change))
    case UpdateAlias(a, revision) =>
      if !Current(s, revision) then s
      else
        s.(attributes := Attributes(
             Kept(a.description, s.attributes.description),
             Kept(a.functionVersion, s.attributes.functionVersion),
             Kept(a.routing, s.attributes.routing)),
           revision := s.revision + 1)
  }

  function ApplyAll(s: State, calls: seq<Call>): State {
    if calls == [] then s else Apply(ApplyAll(s, calls[..|calls| - 1]), calls[|calls| - 1])
  }

  lemma {:induction false} ApplyAllConcat(s: State, a: seq<Call>, b: seq<Call>)
    ensures ApplyAll(s, a + b) == ApplyAll(ApplyAll(s, a), b)
  {
    if b == [] {
      assert a + b == a;
    } else {
      var n := |b| - 1;
      assert (a + b)[..|a| + n] == a + b[..n];
      ApplyAllConcat(s, a, b[..n]);
    }
  }

  function Wrap(changes: seq<KeyedSync.Call<Permission>>): seq<Call> {
    seq(|changes|, i requires 0 <= i < |changes| => Policy(changes[i]))
  }

  /** Policy calls change the policy alone. */
  lemma {:induction false} PolicyCallsOnly(s: State, changes: seq<KeyedSync.Call<Permission>>)
    ensures ApplyAll(s, Wrap(changes)) == s.(policy := KeyedSync.ApplyAll(s.policy, changes))
  {
    if changes != [] {
      var n := |changes| - 1;
      PolicyCallsOnly(s, changes[..n]);
      assert Wrap(changes)[..n] == Wrap(changes[..n]);
    }
  }

  /** How a call ends: accepted, refused because of what the service holds, or failed for any other reason. */
  datatype Answer = Accepted | Refused | Faulted

  class Server {
    var state: State
    ghost var log: seq<Call>

    /** Any call may fail; one that fails changes nothing. */
    method Do(c: Call) returns (answer: Answer)
      modifies this
      ensures answer.Accepted? ==> state == Apply(old(state), c) && log == old(log) + [c]
      ensures !answer.Accepted? ==> state == old(state) && log == old(log)
      ensures answer.Refused? <==> !Accepts(old(state), c)
    {
      var faulty: bool := *;
      if !Accepts(state, c) {
        return Refused;
      }
      if faulty {
        return Faulted;
      }
      state := Apply(state, c);
      log := log + [c];
      return Accepted;
    }
  }
}

/** Creating and updating an alias: its own attributes and three sub-resources. */
module AliasUpdate {
  import opened Common
  import opened Deltas
  import opened Int32
  import opened AliasPermissions
  import opened AliasService
  import opened EventInvoke
  import KeyedSync
  import N = FieldNames

  datatype Concurrency = Concurrency(functionName: Option<string>, executions: Option<int>, qualifier: Option<string>)

  /** The spec, and the revision its status records, which is sent along but never compared. */
  datatype AliasSpec = AliasSpec(
    revision: Option<nat>,
    description: Option<string>,
    invoke: Option<Config>,
    functionName: Option<string>,
    functionRef: Option<string>,
    functionVersion: Option<string>,
    name: Option<string>,
    permissions: seq<Permission>,
    concurrency: Option<Concurrency>,
    routing: Option<map<string, real>>)

  // ----- newResourceDelta

  const FIELDS: seq<N.Name> := [
    N.DESCRIPTION, N.FUNCTION_EVENT_INVOKE_CONFIG, N.FUNCTION_NAME, N.FUNCTION_REF, N.FUNCTION_VERSION,
    N.NAME, N.PROVISIONED_CONCURRENCY_CONFIG, N.ROUTING_CONFIG]

  function ConcurrencyTree(c: Option<Concurrency>): Tree {
    if c.None? then Absent
    else
      Node(Field(N.FUNCTION_NAME, TextTree(c.value.functionName),
           Field(N.PROVISIONED_CONCURRENT_EXECUTIONS, NumberTree(c.value.executions),
           Field(N.QUALIFIER, TextTree(c.value.qualifier), NoFields))))
  }

  function RoutingTree(r: Option<map<string, real>>): Tree {
    if r.None? then Absent else Node(Field(N.ADDITIONAL_VERSION_WEIGHTS, Leaf(Weights(r.value)), NoFields))
  }

  function FieldTree(a: AliasSpec, n: N.Name): Tree {
    if n == N.DESCRIPTION then TextTree(a.description)
    else if n == N.FUNCTION_EVENT_INVOKE_CONFIG then ConfigTree(a.invoke)
    else if n == N.FUNCTION_NAME then TextTree(a.functionName)
    else if n == N.FUNCTION_REF then TextTree(a.functionRef)
    else if n == N.FUNCTION_VERSION then TextTree(a.functionVersion)
    else if n == N.NAME then TextTree(a.name)
    else if n == N.PROVISIONED_CONCURRENCY_CONFIG then ConcurrencyTree(a.concurrency)
    else if n == N.ROUTING_CONFIG then RoutingTree(a.routing)
    else Absent
  }

  function At(a: AliasSpec): N.Name -> Tree {
    n => FieldTree(a, n)
  }

  ghost function AliasDelta(a: AliasSpec, b: AliasSpec): seq<Path> {
    Reported(a, b) + FieldDifferences([N.SPEC], FieldsOf(FIELDS, At(a)), FieldsOf(FIELDS, At(b)))
  }

  method CompareConcurrency(delta: Delta, path: Path, a: Option<Concurrency>, b: Option<Concurrency>)
    modifies delta
    ensures delta.differences == old(delta.differences) + Differences(path, ConcurrencyTree(a), ConcurrencyTree(b))
  {
    if a.Some? != b.Some? {
      delta.Add(path);
    } else if a.Some? && b.Some? {
      ghost var fa, fb := ConcurrencyTree(a).fields, ConcurrencyTree(b).fields;
      assert Names(fa.rest) == Names(fb.rest);
      FirstField(delta.differences, path, fa, fb);
      delta.CompareLeaf(path + [N.FUNCTION_NAME], TextTree(a.value.functionName), TextTree(b.value.functionName));
      FirstField(delta.differences, path, fa.rest, fb.rest);
      delta.CompareLeaf(path + [N.PROVISIONED_CONCURRENT_EXECUTIONS], NumberTree(a.value.executions),
                        NumberTree(b.value.executions));
      FirstField(delta.differences, path, fa.rest.rest, fb.rest.rest);
      delta.CompareLeaf(path + [N.QUALIFIER], TextTree(a.value.qualifier), TextTree(b.value.qualifier));
    }
  }

  method CompareRouting(delta: Delta, path: Path, a: Option<map<string, real>>, b: Option<map<string, real>>)
    modifies delta
    ensures delta.differences == old(delta.differences) + Differences(path, RoutingTree(a), RoutingTree(b))
  {
    if a.Some? != b.Some? {
      delta.Add(path);
    } else if a.Some? && b.Some? {
      FirstField(delta.differences, path, RoutingTree(a).fields, RoutingTree(b).fields);
      delta.CompareLeaf(path + [N.ADDITIONAL_VERSION_WEIGHTS], Leaf(Weights(a.value)), Leaf(Weights(b.value)));
    }
  }

  /** The comparisons still to be made from the i-th generated field on. */
  ghost function Remaining(a: AliasSpec, b: AliasSpec, i: nat): seq<Path>
    requires i <= |FIELDS|
  {
    FieldDifferences([N.SPEC], FieldsOf(FIELDS[i..], At(a)), FieldsOf(FIELDS[i..], At(b)))
  }

  lemma NextRemaining(done: seq<Path>, a: AliasSpec, b: AliasSpec, i: nat, n: N.Name)
    requires i < |FIELDS| && FIELDS[i] == n
    ensures done + Remaining(a, b, i)
         == done + Differences([N.SPEC, n], FieldTree(a, n), FieldTree(b, n)) + Remaining(a, b, i + 1)
  {
    NextField(done, [N.SPEC], FIELDS, i, At(a), At(b));
    assert [N.SPEC] + [n] == [N.SPEC, n];
  }

  lemma AllRemaining(a: AliasSpec, b: AliasSpec)
    ensures AliasDelta(a, b) == Reported(a, b) + Remaining(a, b, 0)
    ensures |FIELDS| == 8 && Remaining(a, b, 8) == []
  {
  }

  method NewResourceDelta(a: AliasSpec, b: AliasSpec) returns (delta: Delta)
    ensures fresh(delta) && delta.differences == AliasDelta(a, b)
  {
    hide FieldDifferences, Differences, PermissionsReported, Remaining, ConfigTree, ConcurrencyTree, RoutingTree;
    delta := new Delta();
    CustomPreCompare(delta, a.permissions, b.permissions);
    assert delta.differences == Reported(a, b);
    AllRemaining(a, b);
    CompareLeadingFields(delta, a, b);
    CompareTrailingFields(delta, a, b);
  }

  /** The generated comparisons, in the order of the generated code: first the fields up to FunctionRef. */
  method CompareLeadingFields(delta: Delta, a: AliasSpec, b: AliasSpec)
    modifies delta
    ensures old(delta.differences) + Remaining(a, b, 0) == delta.differences + Remaining(a, b, 4)
  {
    hide FieldDifferences, Differences, PermissionsReported, Remaining, ConfigTree, ConcurrencyTree, RoutingTree;
    NextRemaining(delta.differences, a, b, 0, N.DESCRIPTION);
    delta.CompareLeaf([N.SPEC, N.DESCRIPTION], TextTree(a.description), TextTree(b.description));
    NextRemaining(delta.differences, a, b, 1, N.FUNCTION_EVENT_INVOKE_CONFIG);
    CompareConfig(delta, [N.SPEC, N.FUNCTION_EVENT_INVOKE_CONFIG], a.invoke, b.invoke);
    NextRemaining(delta.differences, a, b, 2, N.FUNCTION_NAME);
    delta.CompareLeaf([N.SPEC, N.FUNCTION_NAME], TextTree(a.functionName), TextTree(b.functionName));
    NextRemaining(delta.differences, a, b, 3, N.FUNCTION_REF);
    delta.CompareLeaf([N.SPEC, N.FUNCTION_REF], TextTree(a.functionRef), TextTree(b.functionRef));
  }

  method CompareTrailingFields(delta: Delta, a: AliasSpec, b: AliasSpec)
    modifies delta
    ensures old(delta.differences) + Remaining(a, b, 4) == delta.differences + Remaining(a, b, 8)
  {
    hide FieldDifferences, Differences, PermissionsReported, Remaining, ConfigTree, ConcurrencyTree, RoutingTree;
    NextRemaining(delta.differences, a, b, 4, N.FUNCTION_VERSION);
    delta.CompareLeaf([N.SPEC, N.FUNCTION_VERSION], TextTree(a.functionVersion), TextTree(b.functionVersion));
    NextRemaining(delta.differences, a, b, 5, N.NAME);
    delta.CompareLeaf([N.SPEC, N.NAME], TextTree(a.name), TextTree(b.name));
    NextRemaining(delta.differences, a, b, 6, N.PROVISIONED_CONCURRENCY_CONFIG);
    CompareConcurrency(delta, [N.SPEC, N.PROVISIONED_CONCURRENCY_CONFIG], a.concurrency, b.concurrency);
    NextRemaining(delta.differences, a, b, 7, N.ROUTING_CONFIG);
    CompareRouting(delta, [N.SPEC, N.ROUTING_CONFIG], a.routing, b.routing);
  }

  ghost function Reported(a: AliasSpec, b: AliasSpec): seq<Path> {
    if PermissionsReported(a.permissions, b.permissions) then [PERMISSIONS] else []
  }

  /** What the delta answers about a generated field, in terms of the trees compared. */
  lemma FieldExact(a: AliasSpec, b: AliasSpec, n: N.Name)
    requires n in FIELDS
    ensures DifferentAt(AliasDelta(a, b), [N.SPEC] + [n]) <==> At(a)(n) != At(b)(n)
  {
    hide FieldDifferences, FieldsOf, FieldTree, PermissionsReported;
    PrependedExact(Reported(a, b), [N.SPEC], FIELDS, At(a), At(b), n);
    NotPermissions(n);
  }

  lemma NotPermissions(n: N.Name)
    ensures [N.SPEC] + [n] <= PERMISSIONS <==> n == N.PERMISSIONS
  {
    assert ([N.SPEC] + [n])[1] == n && PERMISSIONS[1] == N.PERMISSIONS;
  }

  /** What the delta tells the two sub-resource updates that are asked about by name. */
  lemma SubResourcesExact(a: AliasSpec, b: AliasSpec)
    ensures DifferentAt(AliasDelta(a, b), [N.SPEC, N.FUNCTION_EVENT_INVOKE_CONFIG]) <==> a.invoke != b.invoke
    ensures DifferentAt(AliasDelta(a, b), [N.SPEC, N.PROVISIONED_CONCURRENCY_CONFIG]) <==>
            a.concurrency != b.concurrency
  {
    hide AliasDelta;
    FieldExact(a, b, N.FUNCTION_EVENT_INVOKE_CONFIG);
    FieldExact(a, b, N.PROVISIONED_CONCURRENCY_CONFIG);
    assert [N.SPEC] + [N.FUNCTION_EVENT_INVOKE_CONFIG] == [N.SPEC, N.FUNCTION_EVENT_INVOKE_CONFIG];
    assert [N.SPEC] + [N.PROVISIONED_CONCURRENCY_CONFIG] == [N.SPEC, N.PROVISIONED_CONCURRENCY_CONFIG];
    ConfigTreeInjective(a.invoke, b.invoke);
  }

  /** What it answers about the permissions. */
  lemma PermissionsExact(a: AliasSpec, b: AliasSpec)
    ensures DifferentAt(AliasDelta(a, b), PERMISSIONS) <==> PermissionsReported(a.permissions, b.permissions)
  {
    hide FieldDifferences, FieldsOf, FieldTree, PermissionsReported;
    PrependedExact(Reported(a, b), [N.SPEC], FIELDS, At(a), At(b), N.PERMISSIONS);
    assert [N.SPEC] + [N.PERMISSIONS] == PERMISSIONS;
    if Reported(a, b) != [] { assert PERMISSIONS <= Reported(a, b)[0]; }
  }

  const SUB_RESOURCES: seq<Path> := [
    [N.SPEC, N.PROVISIONED_CONCURRENCY_CONFIG], [N.SPEC, N.FUNCTION_EVENT_INVOKE_CONFIG], PERMISSIONS]

  const SUB_RESOURCE_NAMES: seq<N.Name> := [N.PROVISIONED_CONCURRENCY_CONFIG, N.FUNCTION_EVENT_INVOKE_CONFIG,
                                            N.PERMISSIONS]

  /** UpdateAlias is called exactly when a field outside the three sub-resources differs. */
  lemma OutsideSubResources(a: AliasSpec, b: AliasSpec)
    ensures DifferentExcept(AliasDelta(a, b), SUB_RESOURCES) <==>
            exists n :: n in FIELDS && n !in SUB_RESOURCE_NAMES && At(a)(n) != At(b)(n)
  {
    hide FieldDifferences, FieldsOf, FieldTree, PermissionsReported;
    PrependedExcept(Reported(a, b), [N.SPEC], FIELDS, At(a), At(b), SUB_RESOURCE_NAMES, SUB_RESOURCES);
    assert PERMISSIONS in SUB_RESOURCES by { assert SUB_RESOURCES[2] == PERMISSIONS; }
    assert !Outside(PERMISSIONS, SUB_RESOURCES);
  }

  // ----- sdkUpdate as a plan of calls

  function InvokeCall(d: AliasSpec): Call {
    if d.invoke.None? then DeleteInvoke else PutInvoke(PutPayload(d.invoke.value))
  }

  function ConcurrencyCall(d: AliasSpec): Call {
    if d.concurrency.None? || d.concurrency.value.executions.None? then DeleteConcurrency
    else PutConcurrency(Narrow(d.concurrency.value.executions.value))
  }

  function AttributesOf(d: AliasSpec): Attributes {
    Attributes(d.description, d.functionVersion, d.routing)
  }

  function UpdateCall(d: AliasSpec): Call {
    UpdateAlias(AttributesOf(d), d.revision)
  }

  predicate HasStatementIDs(ps: seq<Permission>) {
    forall i :: 0 <= i < |ps| ==> ps[i].statementID.Some? && ps[i].statementID.value != ""
  }

  /** The permission calls for these lists, in one of the orders comparePermissions may give. */
  ghost predicate PermissionPlan(changes: seq<KeyedSync.Call<Permission>>, desired: seq<Permission>,
                                 latest: seq<Permission>) {
    exists toRemove, toAdd ::
      && KeyedSync.PlanFor(Observed, ByID(desired), ByID(latest), toRemove, toAdd)
      && changes == KeyedSync.Plan(ByID(desired), toRemove, toAdd)
  }

  ghost predicate UpdatePlan(calls: seq<Call>, d: AliasSpec, latest: AliasSpec, ds: seq<Path>) {
    exists changes :: PermissionChanges(changes, d, latest, ds) && calls == UpdateCalls(d, ds, changes)
  }

  ghost predicate PermissionChanges(changes: seq<KeyedSync.Call<Permission>>, d: AliasSpec, latest: AliasSpec,
                                    ds: seq<Path>) {
    if DifferentAt(ds, PERMISSIONS) then PermissionPlan(changes, d.permissions, latest.permissions) else changes == []
  }

  function Before(d: AliasSpec, ds: seq<Path>): seq<Call> {
    (if DifferentAt(ds, [N.SPEC, N.FUNCTION_EVENT_INVOKE_CONFIG]) then [InvokeCall(d)] else [])
    + (if DifferentAt(ds, [N.SPEC, N.PROVISIONED_CONCURRENCY_CONFIG]) then [ConcurrencyCall(d)] else [])
  }

  function After(d: AliasSpec, ds: seq<Path>): seq<Call> {
    if DifferentExcept(ds, SUB_RESOURCES) then [UpdateCall(d)] else []
  }

  /** Event-invoke, then concurrency, then permissions, then the alias itself. */
  function UpdateCalls(d: AliasSpec, ds: seq<Path>, changes: seq<KeyedSync.Call<Permission>>): seq<Call> {
    Before(d, ds) + Wrap(changes) + After(d, ds)
  }

  // ----- the methods

  datatype Outcome = Done | Terminal | Stopped(answer: Answer)

  /**
    Stops at the first call that fails. What was called is a prefix of a permission plan; when
    `latest` is a current read, no call is refused.
   */
  method SyncPermissions(server: Server, desired: seq<Permission>, latest: seq<Permission>)
    returns (outcome: Outcome, made: nat, ghost changes: seq<KeyedSync.Call<Permission>>)
    modifies server
    ensures outcome.Terminal? <==>
            exists i :: 0 <= i < |desired| && (desired[i].statementID.None? || desired[i].statementID.value == "")
    ensures outcome.Terminal? <==> !HasStatementIDs(desired)
    ensures outcome.Terminal? ==> changes == []
    ensures !outcome.Terminal? ==> PermissionPlan(changes, desired, latest)
    ensures made <= |changes| && (outcome.Stopped? <==> made < |changes|)
    ensures server.log == old(server.log) + Wrap(changes[..made])
    ensures server.state == ApplyAll(old(server.state), Wrap(changes[..made]))
    ensures old(IsRead(latest, server.state.policy)) ==> outcome != Stopped(Refused)
    ensures outcome.Stopped? ==> !outcome.answer.Accepted?
  {
    hide ApplyAll, Apply, Accepts, Wrap, ByID, IsRead, Lists, PermissionPlan;
    hide KeyedSync.Stale, KeyedSync.Missing, KeyedSync.PlanFor, KeyedSync.Plan;
    made, changes := 0, [];
    NoPolicyCalls(server.state, []);
    for i := 0 to |desired|
      invariant HasStatementIDs(desired[..i])
      invariant server.log == old(server.log) && server.state == old(server.state)
    {
      if desired[i].statementID.None? || desired[i].statementID.value == "" {
        return Terminal, 0, [];
      }
    }
    assert desired[..|desired|] == desired;

    var toRemove, toAdd := ComparePermissions(desired, latest);
    PlanFromLists(desired, latest, toRemove, toAdd);
    ghost var removeIDs, addIDs := IDs(toRemove), IDs(toAdd);
    changes := KeyedSync.Plan(ByID(desired), removeIDs, addIDs);
    ghost var start := server.state;
    NoPolicyCalls(start, changes);

    for i := 0 to |toRemove|
      invariant made == i
      invariant server.log == old(server.log) + Wrap(changes[..made])
      invariant server.state == ApplyAll(start, Wrap(changes[..made]))
    {
      NextPolicyCall(start, ByID(desired), latest, removeIDs, addIDs, made);
      var answer := server.Do(Policy(KeyedSync.Remove(toRemove[i].statementID.value)));
      if !answer.Accepted? {
        return Stopped(answer), made, changes;
      }
      made := made + 1;
    }
    for i := 0 to |toAdd|
      invariant made == |toRemove| + i
      invariant server.log == old(server.log) + Wrap(changes[..made])
      invariant server.state == ApplyAll(start, Wrap(changes[..made]))
    {
      NextPolicyCall(start, ByID(desired), latest, removeIDs, addIDs, made);
      var answer := server.Do(Policy(KeyedSync.Add(toAdd[i].statementID.value, toAdd[i])));
      if !answer.Accepted? {
        return Stopped(answer), made, changes;
      }
      made := made + 1;
    }
    outcome := Done;
  }

  lemma NoPolicyCalls(s: State, changes: seq<KeyedSync.Call<Permission>>)
    ensures Wrap(changes[..0]) == [] && ApplyAll(s, Wrap(changes[..0])) == s
  {
  }

  /** The two lists of comparePermissions make a plan, call by call. */
  lemma PlanFromLists(desired: seq<Permission>, latest: seq<Permission>, toRemove: seq<Permission>,
                      toAdd: seq<Permission>)
    requires Lists(toRemove, ByID(latest), KeyedSync.Stale(Observed, ByID(desired), ByID(latest)))
    requires Lists(toAdd, ByID(desired), KeyedSync.Missing(Observed, ByID(desired), ByID(latest)))
    ensures AllIDs(toRemove) && AllIDs(toAdd)
    ensures forall i :: 0 <= i < |toAdd| ==> IDs(toAdd)[i] in ByID(desired)
    ensures KeyedSync.PlanFor(Observed, ByID(desired), ByID(latest), IDs(toRemove), IDs(toAdd))
    ensures var plan := KeyedSync.Plan(ByID(desired), IDs(toRemove), IDs(toAdd));
            && PermissionPlan(plan, desired, latest)
            && |plan| == |toRemove| + |toAdd|
            && (forall i :: 0 <= i < |toRemove| ==> plan[i] == KeyedSync.Remove(toRemove[i].statementID.value))
            && (forall i :: 0 <= i < |toAdd| ==>
                plan[|toRemove| + i] == KeyedSync.Add(toAdd[i].statementID.value, toAdd[i]))
  {
  }

  /** One step along a permission plan, and why a current read keeps it from being refused. */
  lemma NextPolicyCall(s: State, desired: Statements, latest: seq<Permission>, toRemove: seq<string>,
                       toAdd: seq<string>, k: nat)
    requires KeyedSync.PlanFor(Observed, desired, ByID(latest), toRemove, toAdd)
    requires k < |toRemove| + |toAdd|
    ensures var plan := KeyedSync.Plan(desired, toRemove, toAdd);
            && Wrap(plan[..k + 1]) == Wrap(plan[..k]) + [Policy(plan[k])]
            && ApplyAll(s, Wrap(plan[..k + 1])) == Apply(ApplyAll(s, Wrap(plan[..k])), Policy(plan[k]))
            && (IsRead(latest, s.policy) ==> Accepts(ApplyAll(s, Wrap(plan[..k])), Policy(plan[k])))
  {
    var plan := KeyedSync.Plan(desired, toRemove, toAdd);
    assert Wrap(plan[..k + 1]) == Wrap(plan[..k]) + [Policy(plan[k])];
    assert Wrap(plan[..k + 1])[..k] == Wrap(plan[..k]);
    if IsRead(latest, s.policy) {
      ReadComparesAsPolicy(desired, latest, s.policy);
      KeyedSync.ConflictFree(Observed, desired, s.policy, toRemove, toAdd, k);
      PolicyCallsOnly(s, plan[..k]);
    }
  }

  // ----- reading the alias

  /** What sdkFind makes of the service's alias; names and references are copied from the spec read for. */
  ghost predicate IsAliasRead(r: AliasSpec, d: AliasSpec, s: State) {
    && r.revision == Some(s.revision)
    && r.description == s.attributes.description
    && r.functionVersion == s.attributes.functionVersion
    && r.routing == s.attributes.routing
    && r.functionName == d.functionName && r.functionRef == d.functionRef && r.name == d.name
    && r.invoke == (if s.invoke.Some? then Some(AliasRead(Served(s.invoke.value))) else None)
    && r.concurrency == (if s.concurrency.Some? then Some(Concurrency(None, s.concurrency, None)) else None)
    && IsRead(r.permissions, s.policy)
  }

  // ----- sdkUpdate

  lemma OneMoreAliasCall(s: State, calls: seq<Call>, c: Call)
    ensures ApplyAll(s, calls + [c]) == Apply(ApplyAll(s, calls), c)
  {
  }

  /** The two single calls never touch the policy, and the first is refused by no service the read is current for. */
  lemma BeforePermissions(d: AliasSpec, latest: AliasSpec, s: State)
    requires IsAliasRead(latest, d, s)
    ensures var ds := AliasDelta(d, latest);
            && ApplyAll(s, Before(d, ds)).policy == s.policy
            && (DifferentAt(ds, [N.SPEC, N.FUNCTION_EVENT_INVOKE_CONFIG]) ==> Accepts(s, InvokeCall(d)))
  {
    hide AliasDelta, DifferentAt, IsRead, AliasRead, Served, PutPayload, Narrow;
    var ds := AliasDelta(d, latest);
    SubResourcesExact(d, latest);
    BeforeEffect(d, ds, s);
  }

  lemma BeforeEffect(d: AliasSpec, ds: seq<Path>, s: State)
    ensures ApplyAll(s, Before(d, ds))
         == s.(invoke := if DifferentAt(ds, [N.SPEC, N.FUNCTION_EVENT_INVOKE_CONFIG])
               then Apply(s, InvokeCall(d)).invoke else s.invoke,
               concurrency := if DifferentAt(ds, [N.SPEC, N.PROVISIONED_CONCURRENCY_CONFIG])
                   then Apply(s, ConcurrencyCall(d)).concurrency else s.concurrency)
  {
    hide DifferentAt;
    var first := if DifferentAt(ds, [N.SPEC, N.FUNCTION_EVENT_INVOKE_CONFIG]) then [InvokeCall(d)] else [];
    if first != [] { OneMoreAliasCall(s, [], InvokeCall(d)); assert first == [] + [InvokeCall(d)]; }
    OneMoreAliasCall(s, first, ConcurrencyCall(d));
    assert first + [] == first;
  }

  /** The update ends before the permission calls when a desired permission has no statement ID. */
  ghost predicate EndsTerminally(d: AliasSpec, ds: seq<Path>) {
    DifferentAt(ds, PERMISSIONS) && !HasStatementIDs(d.permissions)
  }

  /** The calls an update makes when nothing fails. */
  ghost predicate FullPlan(plan: seq<Call>, d: AliasSpec, latest: AliasSpec, ds: seq<Path>) {
    if EndsTerminally(d, ds) then plan == Before(d, ds) else UpdatePlan(plan, d, latest, ds)
  }

  /** The calls before the last one: the two single calls, then those for the permissions. */
  ghost predicate Head(head: seq<Call>, d: AliasSpec, latest: AliasSpec, ds: seq<Path>) {
    if EndsTerminally(d, ds) then head == Before(d, ds)
    else exists changes :: PermissionChanges(changes, d, latest, ds) && head == Before(d, ds) + Wrap(changes)
  }

  /** The call for the alias itself, if an update gets to it and it is needed. */
  ghost function Tail(d: AliasSpec, ds: seq<Path>): seq<Call> {
    if EndsTerminally(d, ds) then [] else After(d, ds)
  }

  lemma HeadAndTail(head: seq<Call>, d: AliasSpec, latest: AliasSpec, ds: seq<Path>)
    requires Head(head, d, latest, ds)
    ensures FullPlan(head + Tail(d, ds), d, latest, ds)
  {
    hide Before, After, Wrap, PermissionChanges, DifferentAt;
    if !EndsTerminally(d, ds) {
      var changes :| PermissionChanges(changes, d, latest, ds) && head == Before(d, ds) + Wrap(changes);
      assert head + Tail(d, ds) == UpdateCalls(d, ds, changes);
    } else {
      assert head + [] == head;
    }
  }

  lemma SomeHead(d: AliasSpec, latest: AliasSpec, ds: seq<Path>) returns (head: seq<Call>)
    ensures Head(head, d, latest, ds)
    ensures |head| >= |Before(d, ds)| && head[..|Before(d, ds)|] == Before(d, ds)
  {
    hide DifferentAt, InvokeCall, ConcurrencyCall, ByID;
    var desired, present := ByID(d.permissions), ByID(latest.permissions);
    var toRemove := KeyedSync.SomeEnumeration(KeyedSync.Stale(Observed, desired, present));
    var toAdd := KeyedSync.SomeEnumeration(KeyedSync.Missing(Observed, desired, present));
    var changes := if DifferentAt(ds, PERMISSIONS) then KeyedSync.Plan(desired, toRemove, toAdd) else [];
    head := if EndsTerminally(d, ds) then Before(d, ds) else Before(d, ds) + Wrap(changes);
  }

  /** syncEventInvokeConfig. */
  method SyncEventInvokeConfig(server: Server, d: AliasSpec) returns (answer: Answer)
    modifies server
    ensures answer.Accepted? ==>
            server.state == Apply(old(server.state), InvokeCall(d)) && server.log == old(server.log) + [InvokeCall(d)]
    ensures !answer.Accepted? ==> server.state == old(server.state) && server.log == old(server.log)
    ensures answer.Accepted? ==>
              && (server.state.invoke.None? <==> d.invoke.None?)
              && (d.invoke.Some? ==> server.state.invoke.value.destinations == d.invoke.value.destinations)
              && server.state == old(server.state).(invoke := server.state.invoke)
    ensures answer.Refused? <==> d.invoke.None? && old(server.state.invoke).None?
    ensures answer.Refused? <==> !Accepts(old(server.state), InvokeCall(d))
  {
    if d.invoke.None? {
      answer := server.Do(DeleteInvoke);
    } else {
      var input := BuildPutPayload(d.invoke.value);
      answer := server.Do(PutInvoke(input));
    }
  }

  /** updateProvisionedConcurrency. */
  method UpdateProvisionedConcurrency(server: Server, d: AliasSpec) returns (answer: Answer)
    modifies server
    ensures answer.Accepted? ==>
            server.state == Apply(old(server.state), ConcurrencyCall(d))
                && server.log == old(server.log) + [ConcurrencyCall(d)]
    ensures !answer.Accepted? ==> server.state == old(server.state) && server.log == old(server.log)
    ensures answer.Accepted? ==>
              server.state == old(server.state).(concurrency :=
                if d.concurrency.None? || d.concurrency.value.executions.None? then None
                else Some(Narrow(d.concurrency.value.executions.value)))
    ensures !answer.Refused?
  {
    if d.concurrency.None? || d.concurrency.value.executions.None? {
      answer := server.Do(DeleteConcurrency);
    } else {
      answer := server.Do(PutConcurrency(Narrow(d.concurrency.value.executions.value)));
    }
  }

  /** The first two steps of sdkUpdate. */
  method SyncSingleCalls(server: Server, d: AliasSpec, ds: seq<Path>) returns (answer: Answer, made: nat)
    modifies server
    ensures made <= |Before(d, ds)| && (answer.Accepted? <==> made == |Before(d, ds)|)
    ensures server.log == old(server.log) + Before(d, ds)[..made]
    ensures server.state == ApplyAll(old(server.state), Before(d, ds)[..made])
    ensures answer.Refused? ==>
              DifferentAt(ds, [N.SPEC, N.FUNCTION_EVENT_INVOKE_CONFIG]) && !Accepts(old(server.state), InvokeCall(d))
  {
    hide DifferentAt, InvokeCall, ConcurrencyCall, Accepts, Apply;
    ghost var start, before := server.state, Before(d, ds);
    made := 0;
    ghost var first := [];
    if DifferentAt(ds, [N.SPEC, N.FUNCTION_EVENT_INVOKE_CONFIG]) {
      answer := SyncEventInvokeConfig(server, d);
      if !answer.Accepted? {
        return;
      }
      made := 1;
      first := [InvokeCall(d)];
      OneMoreAliasCall(start, [], InvokeCall(d));
      assert [] + first == first;
    }
    assert before[..made] == first;
    if DifferentAt(ds, [N.SPEC, N.PROVISIONED_CONCURRENCY_CONFIG]) {
      answer := UpdateProvisionedConcurrency(server, d);
      if !answer.Accepted? {
        return;
      }
      made := made + 1;
      OneMoreAliasCall(start, first, ConcurrencyCall(d));
    }
    assert before[..made] == before;
    answer := Accepted;
  }

  /** The third step: the permissions, if the delta names them. */
  method SyncReportedPermissions(server: Server, d: AliasSpec, latest: AliasSpec, ds: seq<Path>)
    returns (outcome: Outcome, made: nat, ghost changes: seq<KeyedSync.Call<Permission>>)
    modifies server
    ensures outcome.Terminal? <==> EndsTerminally(d, ds)
    ensures if outcome.Terminal? then changes == [] else PermissionChanges(changes, d, latest, ds)
    ensures outcome.Stopped? ==> !outcome.answer.Accepted?
    ensures made <= |changes| && (outcome.Stopped? <==> made < |changes|)
    ensures server.log == old(server.log) + Wrap(changes[..made])
    ensures server.state == ApplyAll(old(server.state), Wrap(changes[..made]))
    ensures old(IsRead(latest.permissions, server.state.policy)) ==> outcome != Stopped(Refused)
  {
    if DifferentAt(ds, PERMISSIONS) {
      outcome, made, changes := SyncPermissions(server, d.permissions, latest.permissions);
    } else {
      NoPolicyCalls(server.state, []);
      outcome, made, changes := Done, 0, [];
    }
  }

  /** The three steps for the sub-resources. */
  method SyncSubResources(server: Server, d: AliasSpec, latest: AliasSpec, ds: seq<Path>)
    returns (outcome: Outcome, made: nat, ghost head: seq<Call>)
    modifies server
    ensures Head(head, d, latest, ds)
    ensures made <= |head| && (outcome.Stopped? <==> made < |head|)
    ensures outcome.Stopped? ==> !outcome.answer.Accepted?
    ensures outcome.Terminal? ==> EndsTerminally(d, ds)
    ensures outcome.Done? ==> !EndsTerminally(d, ds)
    ensures server.log == old(server.log) + head[..made]
    ensures server.state == ApplyAll(old(server.state), head[..made])
    ensures outcome.Done? ==> server.state.revision == old(server.state.revision)
    ensures old(IsAliasRead(latest, d, server.state)) && ds == AliasDelta(d, latest) ==> outcome != Stopped(Refused)
  {
    hide DifferentAt, AliasDelta, IsRead, Before, PermissionChanges, ApplyAll, Apply, Wrap, EndsTerminally;
    ghost var start, before := server.state, Before(d, ds);
    if IsAliasRead(latest, d, start) && ds == AliasDelta(d, latest) { BeforePermissions(d, latest, start); }
    head := SomeHead(d, latest, ds);

    var answer;
    answer, made := SyncSingleCalls(server, d, ds);
    if !answer.Accepted? {
      PrefixOfPrefix(head, before, made);
      return Stopped(answer), made, head;
    }
    assert before[..made] == before;

    var synced;
    ghost var changes;
    outcome, synced, changes := SyncReportedPermissions(server, d, latest, ds);
    AfterPermissions(start, before, changes, synced);
    if outcome.Terminal? {
      return outcome, made, before;
    }
    made, head := made + synced, before + Wrap(changes);
    RevisionKept(d, ds, start, changes);
    assert outcome.Done? ==> head[..made] == head;
  }

  /**
    Sub-resources first, each only if the delta names it, then the alias itself unless nothing else
    differs. Whatever fails, the calls made are a prefix of one plan. After a current read the service
    refuses none of them but the last, and that one exactly when the desired object records another
    revision than the service has: it is not the read that the revision is taken from.
   */
  method SdkUpdate(server: Server, d: AliasSpec, latest: AliasSpec, ds: seq<Path>)
    returns (outcome: Outcome, made: nat, ghost plan: seq<Call>)
    modifies server
    ensures FullPlan(plan, d, latest, ds)
    ensures made <= |plan|
    ensures outcome.Stopped? <==> made < |plan|
    ensures outcome.Terminal? ==> EndsTerminally(d, ds)
    ensures outcome.Done? ==> !EndsTerminally(d, ds)
    ensures server.log == old(server.log) + plan[..made]
    ensures server.state == ApplyAll(old(server.state), plan[..made])
    ensures old(IsAliasRead(latest, d, server.state)) && ds == AliasDelta(d, latest) ==>
              (outcome == Stopped(Refused) <==>
                made == |plan| - 1 && !EndsTerminally(d, ds) && DifferentExcept(ds, SUB_RESOURCES)
                && !Current(old(server.state), d.revision))
  {
    hide DifferentAt, DifferentExcept, IsAliasRead, AliasDelta, Head, FullPlan, ApplyAll, Apply, EndsTerminally;
    ghost var start := server.state;
    ghost var head;
    outcome, made, head := SyncSubResources(server, d, latest, ds);
    HeadAndTail(head, d, latest, ds);
    plan := head + Tail(d, ds);
    assert plan[..made] == head[..made];
    if !outcome.Done? || !DifferentExcept(ds, SUB_RESOURCES) {
      return;
    }
    assert head[..made] == head;
    var answer := server.Do(UpdateAlias(AttributesOf(d), d.revision));
    if !answer.Accepted? {
      return Stopped(answer), made, plan;
    }
    OneMoreAliasCall(start, head, UpdateCall(d));
    made := made + 1;
    assert plan[..made] == plan;
  }

  /** Nothing before the last call makes a new revision. */
  lemma RevisionKept(d: AliasSpec, ds: seq<Path>, s: State, changes: seq<KeyedSync.Call<Permission>>)
    ensures ApplyAll(s, Before(d, ds) + Wrap(changes)).revision == s.revision
  {
    hide DifferentAt, Wrap, InvokeCall, ConcurrencyCall, Apply, ApplyAll;
    BeforeEffect(d, ds, s);
    ApplyAllConcat(s, Before(d, ds), Wrap(changes));
    PolicyCallsOnly(ApplyAll(s, Before(d, ds)), changes);
  }

  /** Where the calls stand after the first part and `k` calls of the second. */
  lemma AfterPermissions(s: State, before: seq<Call>, changes: seq<KeyedSync.Call<Permission>>, k: nat)
    requires k <= |changes|
    ensures var head := before + Wrap(changes);
            && |head| == |before| + |changes|
            && head[..|before| + k] == before + Wrap(changes[..k])
            && ApplyAll(ApplyAll(s, before), Wrap(changes[..k])) == ApplyAll(s, before + Wrap(changes[..k]))
    ensures changes == [] ==> before + Wrap(changes[..k]) == before
  {
    assert Wrap(changes[..k]) == Wrap(changes)[..k];
    ApplyAllConcat(s, before, Wrap(changes[..k]));
    if changes == [] { NoPolicyCalls(s, changes); }
  }

  lemma PrefixOfPrefix(plan: seq<Call>, before: seq<Call>, k: nat)
    requires |before| <= |plan| && plan[..|before|] == before && k <= |before|
    ensures plan[..k] == before[..k]
  {
  }

  // ----- an update call by call

  /** The place of a call in the order of an update. */
  function Stage(c: Call): nat {
    match c
    case PutInvoke(_) => 0
    case DeleteInvoke => 0
    case PutConcurrency(_) => 1
    case DeleteConcurrency => 1
    case Policy(Remove(_)) => 2
    case Policy(Add(_, _)) => 3
    case UpdateAlias(_, _) => 4
  }

  /** The call is one the delta asks for, and nothing ends the update before it. */
  ghost predicate Due(d: AliasSpec, latest: AliasSpec, ds: seq<Path>, c: Call) {
    var terminal := DifferentAt(ds, [N.SPEC, N.PERMISSIONS])
                    && exists i :: 0 <= i < |d.permissions|
                         && (d.permissions[i].statementID.None? || d.permissions[i].statementID.value == "");
    match c
    case PutInvoke(w) =>
      && DifferentAt(ds, [N.SPEC, N.FUNCTION_EVENT_INVOKE_CONFIG]) && d.invoke.Some?
      && w == PutPayload(d.invoke.value)
    case DeleteInvoke => DifferentAt(ds, [N.SPEC, N.FUNCTION_EVENT_INVOKE_CONFIG]) && d.invoke.None?
    case PutConcurrency(n) =>
      && DifferentAt(ds, [N.SPEC, N.PROVISIONED_CONCURRENCY_CONFIG])
      && d.concurrency.Some? && d.concurrency.value.executions.Some?
      && n == Narrow(d.concurrency.value.executions.value)
    case DeleteConcurrency =>
      && DifferentAt(ds, [N.SPEC, N.PROVISIONED_CONCURRENCY_CONFIG])
      && (d.concurrency.None? || d.concurrency.value.executions.None?)
    case Policy(Remove(id)) =>
      && !terminal && DifferentAt(ds, [N.SPEC, N.PERMISSIONS])
      && id in ByID(latest.permissions)
      && (id in ByID(d.permissions) ==> !PermissionEqual(ByID(d.permissions)[id], ByID(latest.permissions)[id]))
    case Policy(Add(id, p)) =>
      && !terminal && DifferentAt(ds, [N.SPEC, N.PERMISSIONS])
      && id in ByID(d.permissions) && p == ByID(d.permissions)[id]
      && (id in ByID(latest.permissions) ==> !PermissionEqual(p, ByID(latest.permissions)[id]))
    case UpdateAlias(a, revision) =>
      && !terminal
      && DifferentExcept(ds, [[N.SPEC, N.PROVISIONED_CONCURRENCY_CONFIG], [N.SPEC, N.FUNCTION_EVENT_INVOKE_CONFIG],
                              [N.SPEC, N.PERMISSIONS]])
      && a.description == d.description && a.functionVersion == d.functionVersion && a.routing == d.routing
      && revision == d.revision
  }

  ghost predicate InOrder(calls: seq<Call>, low: nat, high: nat) {
    && (forall i :: 0 <= i < |calls| ==> low <= Stage(calls[i]) < high)
    && (forall i, j :: 0 <= i < j < |calls| ==> Stage(calls[i]) <= Stage(calls[j]))
  }

  lemma InOrderConcat(a: seq<Call>, b: seq<Call>, low: nat, middle: nat, high: nat)
    requires InOrder(a, low, middle) && InOrder(b, middle, high) && low <= middle <= high
    ensures InOrder(a + b, low, high)
    ensures forall c :: c in a + b <==> c in a || c in b
  {
  }

  /**
    For every delta and every order of the permissions: an update makes each call that is due and no
    other, in the order event-invoke, concurrency, removals, additions, the alias itself.
   */
  lemma UpdateTrace(d: AliasSpec, latest: AliasSpec, ds: seq<Path>, plan: seq<Call>)
    requires FullPlan(plan, d, latest, ds)
    ensures InOrder(plan, 0, 5)
    ensures forall c :: c in plan <==> Due(d, latest, ds, c)
  {
    hide InOrder, Due, Before, After, Wrap, EndsTerminally, PermissionChanges;
    BeforeTrace(d, latest, ds);
    AfterTrace(d, latest, ds);
    if EndsTerminally(d, ds) {
      NothingDue(d, latest, ds);
    } else {
      var changes :| PermissionChanges(changes, d, latest, ds) && plan == UpdateCalls(d, ds, changes);
      PermissionTrace(d, latest, ds, changes);
      InOrderConcat(Before(d, ds), Wrap(changes), 0, 2, 4);
      InOrderConcat(Before(d, ds) + Wrap(changes), After(d, ds), 0, 4, 5);
    }
    StagesBelow();
  }

  lemma StagesBelow()
    ensures forall c :: Stage(c) < 2 || 2 <= Stage(c) < 4 || Stage(c) == 4
    ensures forall calls :: InOrder(calls, 0, 2) ==> InOrder(calls, 0, 5)
  {
  }

  lemma BeforeTrace(d: AliasSpec, latest: AliasSpec, ds: seq<Path>)
    ensures InOrder(Before(d, ds), 0, 2)
    ensures forall c :: c in Before(d, ds) <==> Due(d, latest, ds, c) && Stage(c) < 2
  {
    hide DifferentAt, DifferentExcept, Narrow, PutPayload, ByID, PermissionEqual;
  }

  lemma AfterTrace(d: AliasSpec, latest: AliasSpec, ds: seq<Path>)
    ensures InOrder(After(d, ds), 4, 5)
    ensures !EndsTerminally(d, ds) ==> forall c :: c in After(d, ds) <==> Due(d, latest, ds, c) && Stage(c) == 4
  {
    hide DifferentAt, DifferentExcept, Narrow, PutPayload, ByID, PermissionEqual;
  }

  lemma NothingDue(d: AliasSpec, latest: AliasSpec, ds: seq<Path>)
    requires EndsTerminally(d, ds)
    ensures forall c :: Due(d, latest, ds, c) ==> Stage(c) < 2
  {
    hide DifferentAt, DifferentExcept, Narrow, PutPayload, ByID, PermissionEqual;
  }

  lemma PermissionTrace(d: AliasSpec, latest: AliasSpec, ds: seq<Path>, changes: seq<KeyedSync.Call<Permission>>)
    requires !EndsTerminally(d, ds) && PermissionChanges(changes, d, latest, ds)
    ensures InOrder(Wrap(changes), 2, 4)
    ensures forall c :: c in Wrap(changes) <==> Due(d, latest, ds, c) && 2 <= Stage(c) < 4
  {
    hide DifferentAt, DifferentExcept, Narrow, PutPayload, ByID, Observed, PermissionEqual;
    if DifferentAt(ds, PERMISSIONS) {
      var desired, present := ByID(d.permissions), ByID(latest.permissions);
      var toRemove, toAdd :|
        && KeyedSync.PlanFor(Observed, desired, present, toRemove, toAdd)
        && changes == KeyedSync.Plan(desired, toRemove, toAdd);
      forall a, b ensures PermissionEqual(a, b) <==> Observed(a) == Observed(b) { EqualMeansIndistinguishable(a, b); }
      PlannedChanges(desired, present, toRemove, toAdd);
    }
  }

  /** Each change of a plan, and each change that is missing from none. */
  lemma PlannedChanges(desired: Statements, present: Statements, toRemove: seq<string>, toAdd: seq<string>)
    requires KeyedSync.PlanFor(Observed, desired, present, toRemove, toAdd)
    ensures var calls := Wrap(KeyedSync.Plan(desired, toRemove, toAdd));
            && InOrder(calls, 2, 4)
            && forall c :: c in calls <==>
                 && c.Policy?
                 && match c.change
                    case Remove(id) => id in KeyedSync.Stale(Observed, desired, present)
                    case Add(id, p) => id in KeyedSync.Missing(Observed, desired, present) && p == desired[id]
  {
    hide Observed;
    var plan := KeyedSync.Plan(desired, toRemove, toAdd);
    var calls := Wrap(plan);
    forall id | id in KeyedSync.Stale(Observed, desired, present) ensures Policy(KeyedSync.Remove(id)) in calls {
      var i :| 0 <= i < |toRemove| && toRemove[i] == id;
      assert calls[i] == Policy(KeyedSync.Remove(id));
    }
    forall id | id in KeyedSync.Missing(Observed, desired, present)
      ensures Policy(KeyedSync.Add(id, desired[id])) in calls
    {
      var i :| 0 <= i < |toAdd| && toAdd[i] == id;
      assert calls[|toRemove| + i] == Policy(KeyedSync.Add(id, desired[id]));
    }
  }
}
