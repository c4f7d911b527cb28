/**
  The resource policy of an alias: comparing desired with observed permissions, and when the
  difference is reported. What the calls then do to the policy is the business of KeyedSync.
 */
module AliasPermissions {
  import opened Common
  import opened Deltas
  import opened KeyedSync
  import N = FieldNames

  datatype Permission = Permission(
    statementID: Option<string>,
    action: Option<string>,
    principal: Option<string>,
    sourceARN: Option<string>,
    sourceAccount: Option<string>,
    eventSourceToken: Option<string>,
    principalOrgID: Option<string>,
    functionURLAuthType: Option<string>)

  /** Statements by statement ID: the service's policy, and the lookup maps of comparePermissions. */
  type Statements = map<string, Permission>

  predicate StringPtrEquals(a: Option<string>, b: Option<string>) {
    if a.None? && b.None? then true
    else if a.None? || b.None? then false
    else a.value == b.value
  }

  predicate PermissionEqual(a: Permission, b: Permission) {
    if !StringPtrEquals(a.statementID, b.statementID) then false
    else if || !StringPtrEquals(a.action, b.action)
            || !StringPtrEquals(a.principal, b.principal)
            || !StringPtrEquals(a.sourceARN, b.sourceARN)
            || !StringPtrEquals(a.sourceAccount, b.sourceAccount)
            || !StringPtrEquals(a.eventSourceToken, b.eventSourceToken)
            || !StringPtrEquals(a.principalOrgID, b.principalOrgID) then false
    else true
  }

  /** What a policy read shows of a statement: the function URL auth type is never read back. */
  function Observed(p: Permission): Permission {
    p.(functionURLAuthType := None)
  }

  /** Two permissions are equal exactly when a policy read cannot tell them apart. */
  lemma EqualMeansIndistinguishable(a: Permission, b: Permission)
    ensures PermissionEqual(a, b) <==> Observed(a) == Observed(b)
  {
  }

  /** Field by field: everything but the function URL auth type is compared. */
  lemma PermissionEqualExact(a: Permission, b: Permission)
    ensures PermissionEqual(a, b) <==>
              && a.statementID == b.statementID && a.action == b.action && a.principal == b.principal
              && a.sourceARN == b.sourceARN && a.sourceAccount == b.sourceAccount
              && a.eventSourceToken == b.eventSourceToken && a.principalOrgID == b.principalOrgID
  {
  }

  // ----- lists of permissions as maps

  /** The lookup map of a list: entries without an ID are dropped, the last entry with an ID wins. */
  function ByID(ps: seq<Permission>): Statements {
    if ps == [] then map[]
    else
      var p := ps[|ps| - 1];
      var m := ByID(ps[..|ps| - 1]);
      if p.statementID.Some? then m[p.statementID.value := p] else m
  }

  lemma ByIDAppend(ps: seq<Permission>, p: Permission)
    ensures ByID(ps + [p]) == if p.statementID.Some? then ByID(ps)[p.statementID.value := p] else ByID(ps)
  {
  }

  ghost predicate AllIDs(ps: seq<Permission>) {
    forall i :: 0 <= i < |ps| ==> ps[i].statementID.Some?
  }

  ghost predicate DistinctIDs(ps: seq<Permission>) {
    AllIDs(ps) && forall i, j :: 0 <= i < j < |ps| ==> ps[i].statementID != ps[j].statementID
  }

  lemma {:induction false} ByIDMembers(ps: seq<Permission>, id: string)
    ensures id in ByID(ps) <==> exists i :: 0 <= i < |ps| && ps[i].statementID == Some(id)
    ensures id in ByID(ps) ==> ByID(ps)[id].statementID == Some(id) && ByID(ps)[id] in ps
  {
    if ps != [] {
      var n := |ps| - 1;
      ByIDMembers(ps[..n], id);
      if ps[n].statementID != Some(id) && id in ByID(ps) {
        var i :| 0 <= i < n && ps[..n][i].statementID == Some(id);
        assert ps[i].statementID == Some(id);
      }
      if i :| 0 <= i < |ps| && ps[i].statementID == Some(id) {
        if i < n { assert ps[..n][i].statementID == Some(id); }
      }
    }
  }

  /** The entry at `i` has a statement ID that no later entry repeats. */
  ghost predicate IsLastWithID(ps: seq<Permission>, i: int) {
    0 <= i < |ps| && ps[i].statementID.Some? && forall j :: i < j < |ps| ==> ps[j].statementID != ps[i].statementID
  }

  /** What an ID leads to is the last entry of the list that has it. */
  lemma {:induction false} LastEntryWins(ps: seq<Permission>, id: string)
    ensures id in ByID(ps) <==> exists i :: IsLastWithID(ps, i) && ps[i].statementID.value == id
    ensures forall i :: IsLastWithID(ps, i) && ps[i].statementID.value == id ==> id in ByID(ps) && ByID(ps)[id] == ps[i]
  {
    if ps != [] {
      var n := |ps| - 1;
      LastEntryWins(ps[..n], id);
      if ps[n].statementID == Some(id) {
        assert IsLastWithID(ps, n);
      } else {
        forall i ensures IsLastWithID(ps, i) && ps[i].statementID == Some(id)
                         <==> IsLastWithID(ps[..n], i) && ps[..n][i].statementID == Some(id) {
          LastInFront(ps, i, id);
        }
      }
    }
  }

  lemma LastInFront(ps: seq<Permission>, i: int, id: string)
    requires ps != [] && ps[|ps| - 1].statementID != Some(id)
    ensures var front := ps[..|ps| - 1];
            IsLastWithID(ps, i) && ps[i].statementID == Some(id) <==>
            IsLastWithID(front, i) && front[i].statementID == Some(id)
  {
    var front := ps[..|ps| - 1];
    if IsLastWithID(front, i) && front[i].statementID == Some(id) {
      forall j | i < j < |ps| ensures ps[j].statementID != ps[i].statementID {
        if j < |front| { assert front[j] == ps[j]; }
      }
    }
    if IsLastWithID(ps, i) && ps[i].statementID == Some(id) {
      forall j | i < j < |front| ensures front[j].statementID != front[i].statementID {
        assert front[j] == ps[j];
      }
    }
  }

  /** The IDs are distinct when those in front are and the last entry brings a new one. */
  lemma DistinctStep(ps: seq<Permission>)
    requires ps != []
    ensures var front, last := ps[..|ps| - 1], ps[|ps| - 1].statementID;
            DistinctIDs(ps) <==> DistinctIDs(front) && last.Some? && last.value !in ByID(front)
  {
    var front, last := ps[..|ps| - 1], ps[|ps| - 1];
    assert forall i :: 0 <= i < |front| ==> front[i] == ps[i];
    if last.statementID.Some? { ByIDMembers(front, last.statementID.value); }
  }

  /** The map is never larger than the list, and equally large exactly when every entry has its own ID. */
  lemma {:induction false} ByIDSize(ps: seq<Permission>)
    ensures |ByID(ps)| <= |ps|
    ensures |ByID(ps)| == |ps| <==> DistinctIDs(ps)
  {
    hide DistinctIDs;
    if ps == [] {
      NoIDs();
    } else {
      var front, last := ps[..|ps| - 1], ps[|ps| - 1].statementID;
      ByIDSize(front);
      DistinctStep(ps);
      if last.Some? {
        assert ByID(ps).Keys == ByID(front).Keys + {last.value};
        assert |ByID(ps)| == |ByID(ps).Keys| && |ByID(front)| == |ByID(front).Keys|;
      }
    }
  }

  lemma NoIDs()
    ensures DistinctIDs([])
  {
  }

  /** A read of the policy: one entry per statement, in some order. */
  ghost predicate IsRead(latest: seq<Permission>, s: Statements) {
    && DistinctIDs(latest)
    && ByID(latest).Keys == s.Keys
    && forall id :: id in s ==> ByID(latest)[id] == Observed(s[id])
  }

  /** Desired permissions differ from a read exactly as they differ from the policy itself. */
  lemma ReadComparesAsPolicy(desired: Statements, latest: seq<Permission>, s: Statements)
    requires IsRead(latest, s)
    ensures Stale(Observed, desired, ByID(latest)) == Stale(Observed, desired, s)
    ensures Missing(Observed, desired, ByID(latest)) == Missing(Observed, desired, s)
  {
  }

  // ----- comparePermissions

  method IndexByID(ps: seq<Permission>) returns (m: Statements)
    ensures m == ByID(ps)
  {
    m := map[];
    for i := 0 to |ps|
      invariant m == ByID(ps[..i])
    {
      assert ps[..i + 1] == ps[..i] + [ps[i]];
      ByIDAppend(ps[..i], ps[i]);
      if ps[i].statementID.Some? {
        m := m[ps[i].statementID.value := ps[i]];
      }
    }
    assert ps[..|ps|] == ps;
  }

  /** The statement IDs of a list whose entries all have one. */
  function IDs(ps: seq<Permission>): seq<string>
    requires AllIDs(ps)
  {
    seq(|ps|, i requires 0 <= i < |ps| => ps[i].statementID.value)
  }

  /** `ps` holds the entries of `m` under the IDs in `ids`, each once and in some order. */
  ghost predicate Lists(ps: seq<Permission>, m: Statements, ids: set<string>) {
    && AllIDs(ps)
    && Enumerates(IDs(ps), ids)
    && forall i :: 0 <= i < |ps| ==> IDs(ps)[i] in m && ps[i] == m[IDs(ps)[i]]
  }

  lemma ListsOneMore(ps: seq<Permission>, m: Statements, ids: set<string>, id: string)
    requires Lists(ps, m, ids) && id in m && id !in ids && m[id].statementID == Some(id)
    ensures Lists(ps + [m[id]], m, ids + {id})
  {
    EnumerationGrows(IDs(ps), ids, id);
    assert IDs(ps + [m[id]]) == IDs(ps) + [id];
  }

  /** The Go maps are visited in an arbitrary order; the two lists hold what must change, each entry once. */
  method ComparePermissions(desired: seq<Permission>, latest: seq<Permission>)
    returns (toRemove: seq<Permission>, toAdd: seq<Permission>)
    ensures Lists(toRemove, ByID(latest), Stale(Observed, ByID(desired), ByID(latest)))
    ensures Lists(toAdd, ByID(desired), Missing(Observed, ByID(desired), ByID(latest)))
    ensures toRemove == [] && toAdd == [] <==> SamePermissions(desired, latest)
  {
    hide PermissionEqual, Observed, ByID, SamePermissions;
    var latestMap := IndexByID(latest);
    var desiredMap := IndexByID(desired);
    ghost var stale, missing := Stale(Observed, desiredMap, latestMap), Missing(Observed, desiredMap, latestMap);
    forall id | id in desiredMap ensures desiredMap[id].statementID == Some(id) { ByIDMembers(desired, id); }
    forall id | id in latestMap ensures latestMap[id].statementID == Some(id) { ByIDMembers(latest, id); }
    toRemove, toAdd := [], [];

    var rest := desiredMap.Keys;
    ghost var visited: set<string> := {};
    while rest != {}
      invariant rest <= desiredMap.Keys && visited == desiredMap.Keys - rest
      invariant Lists(toAdd, desiredMap, missing * visited)
      invariant Lists(toRemove, latestMap, stale * visited)
      decreases rest
    {
      var id :| id in rest;
      if id !in latestMap {
        ListsOneMore(toAdd, desiredMap, missing * visited, id);
        toAdd := toAdd + [desiredMap[id]];
      } else {
        EqualMeansIndistinguishable(desiredMap[id], latestMap[id]);
        if !PermissionEqual(desiredMap[id], latestMap[id]) {
          ListsOneMore(toAdd, desiredMap, missing * visited, id);
          ListsOneMore(toRemove, latestMap, stale * visited, id);
          toRemove := toRemove + [latestMap[id]];
          toAdd := toAdd + [desiredMap[id]];
        }
      }
      VisitOne(missing, visited, id);
      VisitOne(stale, visited, id);
      rest := rest - {id};
      visited := visited + {id};
    }
    assert missing * visited == missing;

    rest := latestMap.Keys;
    while rest != {}
      invariant rest <= latestMap.Keys && visited == desiredMap.Keys + (latestMap.Keys - rest)
      invariant Lists(toRemove, latestMap, stale * visited)
      decreases rest
    {
      var id :| id in rest;
      if id !in desiredMap {
        ListsOneMore(toRemove, latestMap, stale * visited, id);
        toRemove := toRemove + [latestMap[id]];
      }
      VisitOne(stale, visited, id);
      rest := rest - {id};
      visited := visited + {id};
    }
    assert stale * visited == stale;
    NothingToDoExact(desired, latest, toRemove, toAdd);
  }

  /** Some entry of the list has the ID. */
  ghost predicate HasID(ps: seq<Permission>, id: string) {
    exists i :: 0 <= i < |ps| && ps[i].statementID == Some(id)
  }

  /** The two lists agree: the same IDs, and for each of them the last entries have seven fields equal. */
  ghost predicate SamePermissions(desired: seq<Permission>, latest: seq<Permission>) {
    && (forall id :: HasID(desired, id) <==> HasID(latest, id))
    && (forall i, j :: IsLastWithID(desired, i) && IsLastWithID(latest, j)
                       && desired[i].statementID == latest[j].statementID ==>
          && desired[i].action == latest[j].action && desired[i].principal == latest[j].principal
          && desired[i].sourceARN == latest[j].sourceARN && desired[i].sourceAccount == latest[j].sourceAccount
          && desired[i].eventSourceToken == latest[j].eventSourceToken
          && desired[i].principalOrgID == latest[j].principalOrgID)
  }

  /** There is nothing to remove or to add exactly when the two lists agree. */
  lemma NothingToDoExact(desired: seq<Permission>, latest: seq<Permission>,
                         toRemove: seq<Permission>, toAdd: seq<Permission>)
    requires Lists(toRemove, ByID(latest), Stale(Observed, ByID(desired), ByID(latest)))
    requires Lists(toAdd, ByID(desired), Missing(Observed, ByID(desired), ByID(latest)))
    ensures toRemove == [] && toAdd == [] <==> SamePermissions(desired, latest)
  {
    hide Observed, ByID, SamePermissions, Lists;
    ListSizes(desired, latest, toRemove, toAdd);
    NoGap(Observed, ByID(desired), ByID(latest));
    AgreeByID(desired, latest);
  }

  lemma ListSizes(desired: seq<Permission>, latest: seq<Permission>, toRemove: seq<Permission>, toAdd: seq<Permission>)
    requires Lists(toRemove, ByID(latest), Stale(Observed, ByID(desired), ByID(latest)))
    requires Lists(toAdd, ByID(desired), Missing(Observed, ByID(desired), ByID(latest)))
    ensures |toRemove| + |toAdd| == Gap(Observed, ByID(desired), ByID(latest))
  {
    EnumerationSize(IDs(toRemove), Stale(Observed, ByID(desired), ByID(latest)));
    EnumerationSize(IDs(toAdd), Missing(Observed, ByID(desired), ByID(latest)));
  }

  lemma AgreeByID(desired: seq<Permission>, latest: seq<Permission>)
    ensures SamePermissions(desired, latest) <==>
            && ByID(desired).Keys == ByID(latest).Keys
            && forall id :: id in ByID(desired) ==> Observed(ByID(desired)[id]) == Observed(ByID(latest)[id])
  {
    hide ByID;
    var d, l := ByID(desired), ByID(latest);
    forall id ensures (id in d <==> HasID(desired, id)) && (id in l <==> HasID(latest, id)) {
      ByIDMembers(desired, id);
      ByIDMembers(latest, id);
    }
    if SamePermissions(desired, latest) {
      forall id | id in d ensures id in l && Observed(d[id]) == Observed(l[id]) {
        LastEntryWins(desired, id);
        LastEntryWins(latest, id);
        var i :| IsLastWithID(desired, i) && desired[i].statementID.value == id;
        assert HasID(latest, id);
        var j :| IsLastWithID(latest, j) && latest[j].statementID.value == id;
        assert d[id] == desired[i] && l[id] == latest[j];
      }
      assert d.Keys == l.Keys;
    }
    if d.Keys == l.Keys && forall id :: id in d ==> Observed(d[id]) == Observed(l[id]) {
      forall i, j | IsLastWithID(desired, i) && IsLastWithID(latest, j)
          && desired[i].statementID == latest[j].statementID
        ensures Observed(desired[i]) == Observed(latest[j])
      {
        LastEntryWins(desired, desired[i].statementID.value);
        LastEntryWins(latest, desired[i].statementID.value);
      }
    }
  }

  lemma VisitOne(changed: set<string>, visited: set<string>, id: string)
    ensures changed * (visited + {id}) == if id in changed then changed * visited + {id} else changed * visited
  {
  }

  // ----- customPreCompare

  const PERMISSIONS: Path := [N.SPEC, N.PERMISSIONS]

  /** The condition under which customPreCompare reports the permissions. */
  ghost predicate PermissionsReported(a: seq<Permission>, b: seq<Permission>) {
    |a| != |b| || Gap(Observed, ByID(a), ByID(b)) > 0
  }

  lemma ReportedExact(a: seq<Permission>, b: seq<Permission>)
    ensures PermissionsReported(a, b) <==> !(|a| == |b| && SamePermissions(a, b))
  {
    hide Observed, ByID, SamePermissions;
    NoGap(Observed, ByID(a), ByID(b));
    AgreeByID(a, b);
  }

  method CustomPreCompare(delta: Delta, a: seq<Permission>, b: seq<Permission>)
    modifies delta
    ensures delta.differences
         == old(delta.differences) + (if PermissionsReported(a, b) then [PERMISSIONS] else [])
    ensures delta.differences
         == old(delta.differences) + (if |a| == |b| && SamePermissions(a, b) then [] else [[N.SPEC, N.PERMISSIONS]])
  {
    hide SamePermissions;
    ReportedExact(a, b);
    if |a| != |b| {
      delta.Add(PERMISSIONS);
    } else if |a| > 0 {
      var first, second := ComparePermissions(a, b);
      EnumerationSize(IDs(first), Stale(Observed, ByID(a), ByID(b)));
      EnumerationSize(IDs(second), Missing(Observed, ByID(a), ByID(b)));
      if |first| > 0 || |second| > 0 {
        delta.Add(PERMISSIONS);
      }
    } else {
      assert a == [] && b == [];
      NoGap(Observed, ByID(a), ByID(b));
    }
  }

  /** With distinct IDs on both sides the length test decides nothing the comparison would not. */
  lemma LengthShortcutSound(a: seq<Permission>, b: seq<Permission>)
    requires DistinctIDs(a) && DistinctIDs(b)
    ensures PermissionsReported(a, b) <==> Gap(Observed, ByID(a), ByID(b)) > 0
    ensures PermissionsReported(a, b) <==> PermissionsReported(b, a)
  {
    ByIDSize(a);
    ByIDSize(b);
    GapSymmetric(Observed, ByID(a), ByID(b));
    NoGap(Observed, ByID(a), ByID(b));
    SizeIsKeys(ByID(a));
    SizeIsKeys(ByID(b));
  }

  lemma SizeIsKeys(m: Statements)
    ensures |m| == |m.Keys|
  {
  }

  /** Against a read that leaves no gap, a desired list is still reported exactly when two of its IDs coincide. */
  lemma ReportedWithoutGap(desired: seq<Permission>, latest: seq<Permission>)
    requires AllIDs(desired) && DistinctIDs(latest)
    requires Gap(Observed, ByID(desired), ByID(latest)) == 0
    ensures PermissionsReported(desired, latest) <==> !DistinctIDs(desired)
  {
    ByIDSize(desired);
    ByIDSize(latest);
    NoGap(Observed, ByID(desired), ByID(latest));
    SizeIsKeys(ByID(desired));
    SizeIsKeys(ByID(latest));
  }

  /** Such a list: the same permission twice. No call is left to make, and it is reported again. */
  lemma RepeatedIDExample(p: Permission)
    requires p.statementID.Some?
    ensures Gap(Observed, ByID([p, p]), ByID([Observed(p)])) == 0
    ensures PermissionsReported([p, p], [Observed(p)])
  {
  }
}
