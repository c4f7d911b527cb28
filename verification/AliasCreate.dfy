/** Creating an alias: once the service has made it, its sub-resources are filled in one after another. */
module AliasCreate {
  import opened AliasPermissions
  import opened AliasService
  import opened AliasUpdate
  import opened AliasConvergence
  import KeyedSync

  /** The calls made since the service was in state `start` with log `log`, and what they left. */
  ghost predicate Made(server: Server, start: State, log: seq<Call>, calls: seq<Call>)
    reads server
  {
    server.log == log + calls && server.state == ApplyAll(start, calls)
  }

  lemma NothingMade(server: Server)
    ensures Made(server, server.state, server.log, [])
  {
  }

  method CreateSubResources(server: Server, d: AliasSpec, ghost start: State, ghost log: seq<Call>)
    returns (answer: Answer, made: nat)
    requires Made(server, start, log, [])
    modifies server
    ensures made <= |SubResourceCalls(d)| && (answer.Accepted? <==> made == |SubResourceCalls(d)|)
    ensures Made(server, start, log, SubResourceCalls(d)[..made])
    ensures !answer.Refused? && server.state.policy == old(server.state.policy)
  {
    hide ApplyAll;
    ghost var calls := SubResourceCalls(d);
    answer, made := Accepted, 0;
    if d.invoke.Some? {
      OneMoreAliasCall(start, [], InvokeCall(d));
      answer := SyncEventInvokeConfig(server, d);
      if !answer.Accepted? {
        return;
      }
      made := 1;
      assert calls[..1] == [] + [InvokeCall(d)];
    }
    if d.concurrency.Some? {
      OneMoreAliasCall(start, calls[..made], ConcurrencyCall(d));
      answer := UpdateProvisionedConcurrency(server, d);
      if !answer.Accepted? {
        return;
      }
      assert calls[..made + 1] == calls[..made] + [ConcurrencyCall(d)];
      made := made + 1;
    }
  }

  /**
    sdkCreate after CreateAlias. Whatever fails, the calls made are a prefix of one creation plan; on a
    new alias none of them is refused.
   */
  method SdkCreate(server: Server, d: AliasSpec) returns (outcome: Outcome, made: nat, ghost plan: seq<Call>)
    modifies server
    ensures made <= |plan| && (outcome.Stopped? <==> made < |plan|)
    ensures server.log == old(server.log) + plan[..made]
    ensures server.state == ApplyAll(old(server.state), plan[..made])
    ensures CreatePlan(plan, d)
    ensures outcome.Terminal? ==> !HasStatementIDs(d.permissions)
    ensures outcome.Done? ==> HasStatementIDs(d.permissions)
    ensures old(server.state) == Created(d, old(server.state).revision) ==> outcome != Stopped(Refused)
  {
    hide ApplyAll, SubResourceCalls, CreatePlan, HasStatementIDs, IsRead, Wrap, PermissionPlan;
    ghost var start, log, before := server.state, server.log, SubResourceCalls(d);
    NothingMade(server);
    plan := SomeCreatePlan(d);
    var answer;
    answer, made := CreateSubResources(server, d, start, log);
    if !answer.Accepted? {
      PrefixOfPrefix(plan, before, made);
      return Stopped(answer), made, plan;
    }
    assert before[..made] == before;
    outcome := Done;
    ghost var changes: seq<KeyedSync.Call<Permission>> := [];
    var synced := 0;
    if |d.permissions| > 0 {
      BareRead();
      outcome, synced, changes := SyncPermissions(server, d.permissions, []);
    }
    AfterPermissions(start, before, changes, synced);
    FromPermissions(d, changes);
    plan := before + Wrap(changes);
    made := made + synced;
  }

  lemma BareRead()
    ensures IsRead([], map[])
  {
  }

  /** A permission plan against no permissions is the last part of a creation plan. */
  lemma FromPermissions(d: AliasSpec, changes: seq<KeyedSync.Call<Permission>>)
    requires if d.permissions == [] || !HasStatementIDs(d.permissions) then changes == []
             else PermissionPlan(changes, d.permissions, [])
    ensures d.permissions == [] ==> HasStatementIDs(d.permissions)
    ensures CreatePlan(SubResourceCalls(d) + Wrap(changes), d)
    ensures changes == [] ==> SubResourceCalls(d) + Wrap(changes) == SubResourceCalls(d)
  {
    hide InvokeCall, ConcurrencyCall;
    var desired := ByID(d.permissions);
    if d.permissions == [] {
      assert KeyedSync.Enumerates([], desired.Keys);
      assert KeyedSync.Plan(desired, [], []) == [];
    } else if HasStatementIDs(d.permissions) {
      var toRemove, toAdd :|
        && KeyedSync.PlanFor(Observed, desired, ByID([]), toRemove, toAdd)
        && changes == KeyedSync.Plan(desired, toRemove, toAdd);
      NothingPresent(desired, toRemove);
    }
  }

  lemma NothingPresent(desired: Statements, toRemove: seq<string>)
    ensures KeyedSync.Missing(Observed, desired, ByID([])) == desired.Keys
    ensures KeyedSync.Enumerates(toRemove, KeyedSync.Stale(Observed, desired, ByID([]))) ==> toRemove == []
  {
    assert KeyedSync.Stale(Observed, desired, ByID([])) == {};
    if toRemove != [] { assert toRemove[0] in toRemove; }
  }

  lemma SomeCreatePlan(d: AliasSpec) returns (plan: seq<Call>)
    ensures CreatePlan(plan, d)
    ensures |SubResourceCalls(d)| <= |plan| && plan[..|SubResourceCalls(d)|] == SubResourceCalls(d)
  {
    hide InvokeCall, ConcurrencyCall;
    plan := SubResourceCalls(d);
    if HasStatementIDs(d.permissions) {
      var ids := KeyedSync.SomeEnumeration(ByID(d.permissions).Keys);
      plan := plan + Wrap(KeyedSync.Plan(ByID(d.permissions), [], ids));
    }
  }
}
