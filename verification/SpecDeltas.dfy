/** The deltas of the two specs, exact at every depth. */
module SpecDeltas {
  import opened Common
  import opened Deltas
  import opened EventInvoke
  import A = AliasUpdate
  import F = FunctionSpecs
  import P = AliasPermissions
  import N = FieldNames

  // ----- event-invoke configurations

  lemma TargetsTyped(t: Option<Target>, u: Option<Target>)
    ensures SameType(TargetTree(t), TargetTree(u)) && Distinct(TargetTree(t))
  {
    if t.Some? {
      var v := if u.Some? then u.value else t.value;
      FieldTyped(N.DESTINATION, TextTree(t.value.destination), TextTree(v.destination), NoFields, NoFields);
    }
  }

  lemma DestinationsTyped(c: Option<Destinations>, d: Option<Destinations>)
    ensures SameType(DestinationsTree(c), DestinationsTree(d)) && Distinct(DestinationsTree(c))
  {
    hide TargetTree, SameTypes, DistinctFields, Names;
    NoFieldsTyped();
    if c.Some? {
      var e := if d.Some? then d.value else c.value;
      TargetsTyped(c.value.onSuccess, e.onSuccess);
      TargetsTyped(c.value.onFailure, e.onFailure);
      var f, g := NoFields, NoFields;
      FieldTyped(N.ON_SUCCESS, TargetTree(c.value.onSuccess), TargetTree(e.onSuccess), f, g);
      f, g := Field(N.ON_SUCCESS, TargetTree(c.value.onSuccess), f), Field(N.ON_SUCCESS, TargetTree(e.onSuccess), g);
      FieldTyped(N.ON_FAILURE, TargetTree(c.value.onFailure), TargetTree(e.onFailure), f, g);
    }
  }

  lemma NoFieldsTyped()
    ensures SameTypes(NoFields, NoFields) && DistinctFields(NoFields) && Names(NoFields) == []
  {
  }

  lemma ConfigsTyped(c: Option<Config>, d: Option<Config>)
    ensures SameType(ConfigTree(c), ConfigTree(d)) && Distinct(ConfigTree(c))
  {
    hide DestinationsTree, SameTypes, DistinctFields, Names;
    NoFieldsTyped();
    if c.Some? {
      var x, y := c.value, if d.Some? then d.value else c.value;
      DestinationsTyped(x.destinations, y.destinations);
      var f, g := NoFields, NoFields;
      FieldTyped(N.QUALIFIER, TextTree(x.qualifier), TextTree(y.qualifier), f, g);
      f, g := Field(N.QUALIFIER, TextTree(x.qualifier), f), Field(N.QUALIFIER, TextTree(y.qualifier), g);
      FieldTyped(N.MAXIMUM_RETRY_ATTEMPTS, NumberTree(x.maximumRetries), NumberTree(y.maximumRetries), f, g);
      f := Field(N.MAXIMUM_RETRY_ATTEMPTS, NumberTree(x.maximumRetries), f);
      g := Field(N.MAXIMUM_RETRY_ATTEMPTS, NumberTree(y.maximumRetries), g);
      FieldTyped(N.MAXIMUM_EVENT_AGE_IN_SECONDS, NumberTree(x.maximumAge), NumberTree(y.maximumAge), f, g);
      f := Field(N.MAXIMUM_EVENT_AGE_IN_SECONDS, NumberTree(x.maximumAge), f);
      g := Field(N.MAXIMUM_EVENT_AGE_IN_SECONDS, NumberTree(y.maximumAge), g);
      FieldTyped(N.FUNCTION_NAME, TextTree(x.functionName), TextTree(y.functionName), f, g);
      f, g := Field(N.FUNCTION_NAME, TextTree(x.functionName), f), Field(N.FUNCTION_NAME, TextTree(y.functionName), g);
      FieldTyped(N.DESTINATION_CONFIG, DestinationsTree(x.destinations), DestinationsTree(y.destinations), f, g);
    }
  }

  // ----- aliases

  ghost function AliasTree(a: A.AliasSpec): Tree {
    Node(FieldsOf(A.FIELDS, A.At(a)))
  }

  lemma ConcurrencyTyped(c: Option<A.Concurrency>, d: Option<A.Concurrency>)
    ensures SameType(A.ConcurrencyTree(c), A.ConcurrencyTree(d)) && Distinct(A.ConcurrencyTree(c))
  {
    hide SameTypes, DistinctFields, Names;
    NoFieldsTyped();
    if c.Some? {
      var x, y := c.value, if d.Some? then d.value else c.value;
      var f, g := NoFields, NoFields;
      FieldTyped(N.QUALIFIER, TextTree(x.qualifier), TextTree(y.qualifier), f, g);
      f, g := Field(N.QUALIFIER, TextTree(x.qualifier), f), Field(N.QUALIFIER, TextTree(y.qualifier), g);
      FieldTyped(N.PROVISIONED_CONCURRENT_EXECUTIONS, NumberTree(x.executions), NumberTree(y.executions), f, g);
      f := Field(N.PROVISIONED_CONCURRENT_EXECUTIONS, NumberTree(x.executions), f);
      g := Field(N.PROVISIONED_CONCURRENT_EXECUTIONS, NumberTree(y.executions), g);
      FieldTyped(N.FUNCTION_NAME, TextTree(x.functionName), TextTree(y.functionName), f, g);
    }
  }

  lemma RoutingTyped(c: Option<map<string, real>>, d: Option<map<string, real>>)
    ensures SameType(A.RoutingTree(c), A.RoutingTree(d)) && Distinct(A.RoutingTree(c))
  {
    if c.Some? {
      var e := if d.Some? then d.value else c.value;
      FieldTyped(N.ADDITIONAL_VERSION_WEIGHTS, Leaf(Weights(c.value)), Leaf(Weights(e)), NoFields, NoFields);
    }
  }

  lemma AliasFieldsTyped(a: A.AliasSpec, b: A.AliasSpec, n: N.Name)
    ensures SameType(A.At(a)(n), A.At(b)(n)) && Distinct(A.At(a)(n))
  {
    hide ConfigTree, A.ConcurrencyTree, A.RoutingTree;
    ConfigsTyped(a.invoke, b.invoke);
    ConcurrencyTyped(a.concurrency, b.concurrency);
    RoutingTyped(a.routing, b.routing);
  }

  lemma AliasFieldsOrdered()
    ensures Ordered(A.FIELDS)
  {
    OrderedByStep(A.FIELDS);
  }

  /**
    For every dotted path that both alias specs reach, at any depth, DifferentAt holds exactly when
    what is there differs.
   */
  lemma AliasDeltaExact(a: A.AliasSpec, b: A.AliasSpec, q: Path, subA: Tree, subB: Tree)
    requires q != [] && Reaches(AliasTree(a), q, subA) && Reaches(AliasTree(b), q, subB)
    ensures DifferentAt(A.AliasDelta(a, b), [N.SPEC] + q) <==> subA != subB
  {
    hide A.FieldTree, A.FIELDS, P.PermissionsReported, FieldDifferences;
    forall n ensures SameType(A.At(a)(n), A.At(b)(n)) && Distinct(A.At(a)(n)) { AliasFieldsTyped(a, b, n); }
    AliasFieldsOrdered();
    ListedFieldsDistinct(A.FIELDS, A.At(a));
    ListedFieldsSameTypes(A.FIELDS, A.At(a), A.At(b));
    FieldDeltaExact([N.SPEC], FieldsOf(A.FIELDS, A.At(a)), FieldsOf(A.FIELDS, A.At(b)), q, subA, subB);
    DifferentAtConcat(A.Reported(a, b),
                      FieldDifferences([N.SPEC], FieldsOf(A.FIELDS, A.At(a)), FieldsOf(A.FIELDS, A.At(b))),
                          [N.SPEC] + q);
    ReachesListed(A.FIELDS, A.At(a), q, subA);
    NoPermissionsField();
    assert ([N.SPEC] + q)[1] == q[0] && P.PERMISSIONS[1] == N.PERMISSIONS;
  }

  lemma NoPermissionsField()
    ensures N.PERMISSIONS !in A.FIELDS
  {
  }

  // ----- functions

  ghost function FunctionTree(a: F.FunctionSpec): Tree {
    Node(FieldsOf(F.FIELDS, F.At(a)))
  }

  lemma InnerOrdered(n: N.Name)
    ensures Ordered(F.Inner(n))
  {
  }

  lemma CodeFieldsOrdered()
    ensures Ordered(F.CODE_FIELDS)
  {
    OrderedByStep(F.CODE_FIELDS);
  }

  lemma CodeTyped(c: Option<F.Code>, d: Option<F.Code>)
    ensures SameType(F.CodeTree(c), F.CodeTree(d)) && Distinct(F.CodeTree(c))
  {
    hide F.CODE_FIELDS;
    CodeFieldsOrdered();
    if c.Some? {
      var e := if d.Some? then d.value else c.value;
      ListedFieldsDistinct(F.CODE_FIELDS, F.CodeAt(c.value));
      ListedFieldsSameTypes(F.CODE_FIELDS, F.CodeAt(c.value), F.CodeAt(e));
    }
  }

  lemma TenancyTyped(c: Option<F.Tenancy>, d: Option<F.Tenancy>)
    ensures SameType(F.TenancyTree(c), F.TenancyTree(d)) && Distinct(F.TenancyTree(c))
  {
    if c.Some? {
      var e := if d.Some? then d.value else c.value;
      FieldTyped(N.TENANT_ISOLATION_MODE, TextTree(c.value.isolationMode), TextTree(e.isolationMode), NoFields,
                 NoFields);
    }
  }

  lemma EntryTyped(n: N.Name, t: Tree, u: Tree)
    requires F.HasType(n, t) && F.HasType(n, u)
    ensures SameType(t, u) && Distinct(t)
  {
    InnerOrdered(n);
    if t.Node? { LeavesTyped(t.fields, if u.Node? then u.fields else t.fields); }
  }

  lemma FunctionFieldsTyped(a: F.FunctionSpec, b: F.FunctionSpec, n: N.Name)
    requires F.Typed(a) && F.Typed(b) && n in F.FIELDS
    ensures SameType(F.At(a)(n), F.At(b)(n)) && Distinct(F.At(a)(n))
  {
    hide ConfigTree, F.CodeTree, F.TenancyTree, F.HasType, F.Entry, F.FIELDS;
    ConfigsTyped(a.invoke, b.invoke);
    CodeTyped(a.code, b.code);
    TenancyTyped(a.tenancy, b.tenancy);
    if F.IsConfigField(n) { EntryTyped(n, F.Entry(a.config, n), F.Entry(b.config, n)); }
  }

  /**
    The same for a function. The hash of its code is not part of the trees: where it differs, the path of
    the code is reported although the code compared is the same.
   */
  lemma FunctionDeltaExact(a: F.FunctionSpec, b: F.Resource, q: Path, subA: Tree, subB: Tree)
    requires F.Typed(a) && F.Typed(b.spec)
    requires q != [] && Reaches(FunctionTree(a), q, subA) && Reaches(FunctionTree(b.spec), q, subB)
    ensures DifferentAt(F.FunctionDelta(a, b), [N.SPEC] + q) <==> subA != subB || (q == [N.CODE] && F.HashDiffers(a, b))
  {
    hide F.FieldTree, FieldDifferences, F.FIELDS, F.HashDiffers, F.Typed;
    forall n | n in F.FIELDS ensures SameType(F.At(a)(n), F.At(b.spec)(n)) && Distinct(F.At(a)(n)) {
      FunctionFieldsTyped(a, b.spec, n);
    }
    FunctionFieldsOrdered();
    ListedFieldsDistinct(F.FIELDS, F.At(a));
    ListedFieldsSameTypes(F.FIELDS, F.At(a), F.At(b.spec));
    FieldDeltaExact([N.SPEC], FieldsOf(F.FIELDS, F.At(a)), FieldsOf(F.FIELDS, F.At(b.spec)), q, subA, subB);
    DifferentAtConcat(F.Reported(a, b),
                      FieldDifferences([N.SPEC], FieldsOf(F.FIELDS, F.At(a)), FieldsOf(F.FIELDS, F.At(b.spec))),
                          [N.SPEC] + q);
    ReachesListed(F.FIELDS, F.At(a), q, subA);
    ReachesListed(F.FIELDS, F.At(b.spec), q, subB);
    ReportedPaths(a, b, q, subA, subB);
  }

  lemma FunctionFieldsOrdered()
    ensures Ordered(F.FIELDS)
  {
    hide F.FIELDS;
    F.FieldAt();
    forall i | 0 <= i < |F.FIELDS| - 1 ensures F.FIELDS[i] < F.FIELDS[i + 1] {
      FieldAbove(i);
    }
    OrderedByStep(F.FIELDS);
  }

  lemma FieldAbove(i: nat)
    requires i < 30
    ensures |F.FIELDS| == 31 && F.FIELDS[i] < F.FIELDS[i + 1]
  {
    hide F.FIELDS;
    F.FieldAt();
    assert i == 0 || i == 1 || i == 2 || i == 3 || i == 4 || i == 5 || i == 6 || i == 7 || i == 8 || i == 9
           || i == 10 || i == 11 || i == 12 || i == 13 || i == 14 || i == 15 || i == 16 || i == 17 || i == 18 || i == 19
           || i == 20 || i == 21 || i == 22 || i == 23 || i == 24 || i == 25 || i == 26 || i == 27 || i == 28
           || i == 29;
  }

  /** The hand-written comparison reports a reachable path only where it is that of the code. */
  lemma ReportedPaths(a: F.FunctionSpec, b: F.Resource, q: Path, subA: Tree, subB: Tree)
    requires q != [] && Reaches(F.At(a)(q[0]), q[1..], subA) && Reaches(F.At(b.spec)(q[0]), q[1..], subB)
    ensures DifferentAt(F.Reported(a, b), [N.SPEC] + q) <==>
              q == [N.CODE] && ((a.code.Some? != b.spec.code.Some?) || F.HashDiffers(a, b))
    ensures q == [N.CODE] && a.code.Some? != b.spec.code.Some? ==> subA != subB
  {
    hide F.HashDiffers, F.CodeTree;
    PathsToCode(q);
    HashUnreached(a.code, q, subA);
    NilUnreached(a.code, q[1..], subA);
    NilUnreached(b.spec.code, q[1..], subB);
    assert q == [q[0]] + q[1..];
    AtMostOne(F.Reported(a, b), [N.SPEC] + q);
  }

  lemma AtMostOne(ds: seq<Path>, subject: Path)
    requires |ds| <= 1
    ensures DifferentAt(ds, subject) <==> ds != [] && subject <= ds[0]
  {
  }

  lemma PathsToCode(q: Path)
    requires q != []
    ensures [N.SPEC] + q <= F.CODE <==> q == [N.CODE]
    ensures [N.SPEC] + q <= F.CODE_SHA256 <==> q == [N.CODE] || q == [N.CODE, N.SHA256]
  {
    assert ([N.SPEC] + q)[1] == q[0];
    if |q| > 1 { assert ([N.SPEC] + q)[2] == q[1]; }
  }

  lemma HashUnreached(c: Option<F.Code>, q: Path, sub: Tree)
    requires q != []
    ensures q == [N.CODE, N.SHA256] ==> !Reaches(F.CodeTree(c), q[1..], sub)
  {
    if c.Some? && q[1..] != [] && Reaches(F.CodeTree(c), q[1..], sub) {
      ReachesListed(F.CODE_FIELDS, F.CodeAt(c.value), q[1..], sub);
    }
  }

  lemma NilUnreached(c: Option<F.Code>, q: Path, sub: Tree)
    ensures c.None? && Reaches(F.CodeTree(c), q, sub) ==> q == [] && sub == Absent
    ensures c.Some? && Reaches(F.CodeTree(c), [], sub) ==> sub != Absent
  {
  }

  // ----- every field sits at its own path

  lemma FieldPath(f: Fields, n: N.Name, t: Tree, rest: Fields)
    requires f == Field(n, t, rest)
    ensures Reaches(Node(f), [n], t)
    ensures forall m, q, sub :: m != n && FieldReaches(rest, [m] + q, sub) ==> FieldReaches(f, [m] + q, sub)
  {
    assert [n][1..] == [];
    forall m, q, sub | m != n && FieldReaches(rest, [m] + q, sub) ensures FieldReaches(f, [m] + q, sub) {
      assert ([m] + q)[0] == m;
    }
  }

  /** A destination is reached through its own target. */
  lemma DestinationPaths(d: Destinations)
    ensures var t := DestinationsTree(Some(d));
            && Reaches(t, [N.ON_FAILURE], TargetTree(d.onFailure))
            && Reaches(t, [N.ON_SUCCESS], TargetTree(d.onSuccess))
  {
    var f := DestinationsTree(Some(d)).fields;
    FieldPath(f, N.ON_FAILURE, f.tree, f.rest);
    FieldPath(f.rest, N.ON_SUCCESS, f.rest.tree, f.rest.rest);
    assert [N.ON_SUCCESS] + [] == [N.ON_SUCCESS];
  }

  lemma TargetPath(t: Target)
    ensures Reaches(TargetTree(Some(t)), [N.DESTINATION], TextTree(t.destination))
  {
    var f := TargetTree(Some(t)).fields;
    FieldPath(f, N.DESTINATION, f.tree, f.rest);
  }

  /** The fields of an event-invoke configuration. */
  lemma ConfigPaths(c: Config)
    ensures var t := ConfigTree(Some(c));
            && Reaches(t, [N.DESTINATION_CONFIG], DestinationsTree(c.destinations))
            && Reaches(t, [N.FUNCTION_NAME], TextTree(c.functionName))
            && Reaches(t, [N.MAXIMUM_EVENT_AGE_IN_SECONDS], NumberTree(c.maximumAge))
            && Reaches(t, [N.MAXIMUM_RETRY_ATTEMPTS], NumberTree(c.maximumRetries))
            && Reaches(t, [N.QUALIFIER], TextTree(c.qualifier))
  {
    hide DestinationsTree, TextTree, NumberTree;
    var f := ConfigTree(Some(c)).fields;
    var f1, f2, f3, f4 := f.rest, f.rest.rest, f.rest.rest.rest, f.rest.rest.rest.rest;
    FieldPath(f, N.DESTINATION_CONFIG, f.tree, f1);
    FieldPath(f1, N.FUNCTION_NAME, f1.tree, f2);
    FieldPath(f2, N.MAXIMUM_EVENT_AGE_IN_SECONDS, f2.tree, f3);
    FieldPath(f3, N.MAXIMUM_RETRY_ATTEMPTS, f3.tree, f4);
    FieldPath(f4, N.QUALIFIER, f4.tree, f4.rest);
    Alone(N.FUNCTION_NAME);
    Alone(N.MAXIMUM_EVENT_AGE_IN_SECONDS);
    Alone(N.MAXIMUM_RETRY_ATTEMPTS);
    Alone(N.QUALIFIER);
  }

  lemma Alone(n: N.Name)
    ensures [n] + [] == [n]
  {
  }

  /** The fields of a provisioned concurrency configuration, and of a routing configuration. */
  lemma SubResourcePaths(c: A.Concurrency, weights: map<string, real>)
    ensures var t := A.ConcurrencyTree(Some(c));
            && Reaches(t, [N.FUNCTION_NAME], TextTree(c.functionName))
            && Reaches(t, [N.PROVISIONED_CONCURRENT_EXECUTIONS], NumberTree(c.executions))
            && Reaches(t, [N.QUALIFIER], TextTree(c.qualifier))
    ensures Reaches(A.RoutingTree(Some(weights)), [N.ADDITIONAL_VERSION_WEIGHTS], Leaf(Weights(weights)))
  {
    hide TextTree, NumberTree;
    var f := A.ConcurrencyTree(Some(c)).fields;
    FieldPath(f, N.FUNCTION_NAME, f.tree, f.rest);
    FieldPath(f.rest, N.PROVISIONED_CONCURRENT_EXECUTIONS, f.rest.tree, f.rest.rest);
    FieldPath(f.rest.rest, N.QUALIFIER, f.rest.rest.tree, f.rest.rest.rest);
    Alone(N.PROVISIONED_CONCURRENT_EXECUTIONS);
    Alone(N.QUALIFIER);
    var g := A.RoutingTree(Some(weights)).fields;
    FieldPath(g, N.ADDITIONAL_VERSION_WEIGHTS, g.tree, g.rest);
  }

  /** The fields of an alias. */
  lemma AliasPaths(a: A.AliasSpec)
    ensures var t := AliasTree(a);
            && Reaches(t, [N.DESCRIPTION], TextTree(a.description))
            && Reaches(t, [N.FUNCTION_EVENT_INVOKE_CONFIG], ConfigTree(a.invoke))
            && Reaches(t, [N.FUNCTION_NAME], TextTree(a.functionName))
            && Reaches(t, [N.FUNCTION_REF], TextTree(a.functionRef))
            && Reaches(t, [N.FUNCTION_VERSION], TextTree(a.functionVersion))
            && Reaches(t, [N.NAME], TextTree(a.name))
            && Reaches(t, [N.PROVISIONED_CONCURRENCY_CONFIG], A.ConcurrencyTree(a.concurrency))
            && Reaches(t, [N.ROUTING_CONFIG], A.RoutingTree(a.routing))
  {
    hide ConfigTree, TextTree, A.ConcurrencyTree, A.RoutingTree, A.FIELDS, FieldsOf, FieldReaches;
    AliasFieldAt();
    forall n | n in A.FIELDS ensures Reaches(AliasTree(a), [n], A.At(a)(n)) {
      ListedReached(A.FIELDS, A.At(a), n, [], A.At(a)(n));
      Alone(n);
    }
  }

  lemma AliasFieldAt()
    ensures N.DESCRIPTION in A.FIELDS && N.FUNCTION_EVENT_INVOKE_CONFIG in A.FIELDS && N.FUNCTION_NAME in A.FIELDS
    ensures N.FUNCTION_REF in A.FIELDS && N.FUNCTION_VERSION in A.FIELDS && N.NAME in A.FIELDS
    ensures N.PROVISIONED_CONCURRENCY_CONFIG in A.FIELDS && N.ROUTING_CONFIG in A.FIELDS
  {
  }

  /** The fields of a function's code; the hash is not among them. */
  lemma CodePaths(c: F.Code)
    ensures var t := F.CodeTree(Some(c));
            && Reaches(t, [N.IMAGE_URI], TextTree(c.imageURI)) && Reaches(t, [N.S3_BUCKET], TextTree(c.s3Bucket))
            && Reaches(t, [N.S3_KEY], TextTree(c.s3Key))
            && Reaches(t, [N.S3_OBJECT_VERSION], TextTree(c.s3ObjectVersion))
            && Reaches(t, [N.ZIP_FILE], Leaf(Text(c.zipFile)))
            && forall sub :: !Reaches(t, [N.SHA256], sub)
  {
    hide TextTree, F.CODE_FIELDS, FieldsOf, FieldReaches;
    CodeFieldAt();
    forall n | n in F.CODE_FIELDS ensures Reaches(F.CodeTree(Some(c)), [n], F.CodeAt(c)(n)) {
      ListedReached(F.CODE_FIELDS, F.CodeAt(c), n, [], F.CodeAt(c)(n));
      Alone(n);
    }
    forall sub ensures !Reaches(F.CodeTree(Some(c)), [N.SHA256], sub) {
      assert [N.CODE, N.SHA256][1..] == [N.SHA256];
      HashUnreached(Some(c), [N.CODE, N.SHA256], sub);
    }
  }

  lemma CodeFieldAt()
    ensures N.IMAGE_URI in F.CODE_FIELDS && N.S3_BUCKET in F.CODE_FIELDS && N.S3_KEY in F.CODE_FIELDS
    ensures N.S3_OBJECT_VERSION in F.CODE_FIELDS && N.ZIP_FILE in F.CODE_FIELDS
  {
  }

  /** The fields of a function. */
  lemma FunctionPaths(a: F.FunctionSpec)
    ensures var t := FunctionTree(a);
            && Reaches(t, [N.ARCHITECTURES], Leaf(List(F.Architectures(a))))
            && Reaches(t, [N.CODE], F.CodeTree(a.code))
            && Reaches(t, [N.CODE_SIGNING_CONFIG_ARN], TextTree(a.signing))
            && Reaches(t, [N.FUNCTION_EVENT_INVOKE_CONFIG], ConfigTree(a.invoke))
            && Reaches(t, [N.PACKAGE_TYPE], TextTree(a.packageType))
            && Reaches(t, [N.RESERVED_CONCURRENT_EXECUTIONS], NumberTree(a.concurrency))
            && Reaches(t, [N.TAGS], Leaf(Texts(a.tags)))
            && Reaches(t, [N.TENANCY_CONFIG], F.TenancyTree(a.tenancy))
            && forall n :: F.IsConfigField(n) ==> Reaches(t, [n], F.Entry(a.config, n))
  {
    hide ConfigTree, TextTree, NumberTree, F.CodeTree, F.TenancyTree, F.Entry, F.FIELDS, FieldsOf, FieldReaches;
    F.NamedFieldsListed();
    forall n | n in F.FIELDS ensures Reaches(FunctionTree(a), [n], F.At(a)(n)) {
      ListedReached(F.FIELDS, F.At(a), n, [], F.At(a)(n));
      Alone(n);
    }
  }

  lemma TenancyPath(t: F.Tenancy)
    ensures Reaches(F.TenancyTree(Some(t)), [N.TENANT_ISOLATION_MODE], TextTree(t.isolationMode))
  {
    var f := F.TenancyTree(Some(t)).fields;
    FieldPath(f, N.TENANT_ISOLATION_MODE, f.tree, f.rest);
  }
}
