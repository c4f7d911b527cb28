/** The names a dotted spec path is made of, such as the two of Spec.Tags. */
module FieldNames {

  /** Names are numbered; only their being different matters. */
  newtype Name = n: int | 0 <= n < 80

  const SPEC: Name := 0
  const ADDITIONAL_VERSION_WEIGHTS: Name := 1
  const ARCHITECTURES: Name := 2
  const CODE: Name := 3
  const CODE_SIGNING_CONFIG_ARN: Name := 4
  const CODE_SIGNING_CONFIG_REF: Name := 5
  const DEAD_LETTER_CONFIG: Name := 6
  const DESCRIPTION: Name := 7
  const DESTINATION: Name := 8
  const DESTINATION_CONFIG: Name := 9
  const DURABLE_CONFIG: Name := 10
  const ENVIRONMENT: Name := 11
  const EPHEMERAL_STORAGE: Name := 12
  const FILE_SYSTEM_CONFIGS: Name := 13
  const FILTER_CRITERIA: Name := 14
  const FILTERS: Name := 15
  const FUNCTION_EVENT_INVOKE_CONFIG: Name := 16
  const FUNCTION_NAME: Name := 17
  const FUNCTION_REF: Name := 18
  const FUNCTION_VERSION: Name := 19
  const HANDLER: Name := 20
  const IMAGE_CONFIG: Name := 21
  const IMAGE_URI: Name := 22
  const KMS_KEY_ARN: Name := 23
  const KMS_KEY_REF: Name := 24
  const LAYERS: Name := 25
  const LOGGING_CONFIG: Name := 26
  const MAXIMUM_EVENT_AGE_IN_SECONDS: Name := 27
  const MAXIMUM_RETRY_ATTEMPTS: Name := 28
  const MEMORY_SIZE: Name := 29
  const NAME: Name := 30
  const ON_FAILURE: Name := 31
  const ON_SUCCESS: Name := 32
  const PACKAGE_TYPE: Name := 33
  const PERMISSIONS: Name := 34
  const PROVISIONED_CONCURRENCY_CONFIG: Name := 35
  const PROVISIONED_CONCURRENT_EXECUTIONS: Name := 36
  const PUBLISH: Name := 37
  const QUALIFIER: Name := 38
  const RESERVED_CONCURRENT_EXECUTIONS: Name := 39
  const ROLE: Name := 40
  const ROLE_REF: Name := 41
  const ROUTING_CONFIG: Name := 42
  const RUNTIME: Name := 43
  const S3_BUCKET: Name := 44
  const S3_KEY: Name := 45
  const S3_OBJECT_VERSION: Name := 46
  const SHA256: Name := 47
  const SECURITY_GROUP_IDS: Name := 48
  const SIZE: Name := 49
  const SNAP_START: Name := 50
  const SUBNET_IDS: Name := 51
  const TAGS: Name := 52
  const TARGET_ARN: Name := 53
  const TENANCY_CONFIG: Name := 54
  const TIMEOUT: Name := 55
  const TRACING_CONFIG: Name := 56
  const VPC_CONFIG: Name := 57
  const VARIABLES: Name := 58
  const ZIP_FILE: Name := 59
  const APPLY_ON: Name := 60
  const MODE: Name := 61
  const TENANT_ISOLATION_MODE: Name := 62
  const EXECUTION_TIMEOUT: Name := 63
  const RETENTION_PERIOD_IN_DAYS: Name := 64
  const COMMAND: Name := 65
  const ENTRY_POINT: Name := 66
  const WORKING_DIRECTORY: Name := 67
  const APPLICATION_LOG_LEVEL: Name := 68
  const LOG_FORMAT: Name := 69
  const LOG_GROUP: Name := 70
  const SYSTEM_LOG_LEVEL: Name := 71
}

/**
  Comparing a desired spec with an observed one.

  The generated comparisons walk a tree of optional fields and record a dotted path wherever the
  two sides differ. `Differences` is that walk over any tree; the lemmas say what a recorded path
  means to the code that later asks `DifferentAt` or `DifferentExcept`.
 */
module Deltas {
  import opened FieldNames

  type Path = seq<Name>

  /** What a leaf of a spec can hold. A nil list and an empty list are one value, as the comparisons treat them. */
  datatype Value =
    | Text(text: string)
    | Number(number: int)
    | Flag(flag: bool)
    | List(items: seq<string>)
    | Texts(texts: map<string, string>)
    | Weights(weights: map<string, real>)

  /** A spec, or a part of it: a nil pointer, a leaf, or a structure with named fields. */
  datatype Tree = Absent | Leaf(value: Value) | Node(fields: Fields)

  datatype Fields = NoFields | Field(name: Name, tree: Tree, rest: Fields)

  function Names(f: Fields): seq<Name> {
    match f
    case NoFields => []
    case Field(n, _, rest) => [n] + Names(rest)
  }

  /** The paths recorded for `a` against `b`, which both sit at `path`. */
  function Differences(path: Path, a: Tree, b: Tree): seq<Path>
    decreases a
  {
    match (a, b)
    case (Node(fa), Node(fb)) =>
      if Names(fa) == Names(fb) then FieldDifferences(path, fa, fb) else [path]
    case _ => if a == b then [] else [path]
  }

  function FieldDifferences(path: Path, fa: Fields, fb: Fields): seq<Path>
    requires Names(fa) == Names(fb)
    decreases fa
  {
    match fa
    case NoFields => []
    case Field(n, t, rest) =>
      assert Names(rest) == Names(fa)[1..] == Names(fb)[1..] == Names(fb.rest);
      Differences(path + [n], t, fb.tree) + FieldDifferences(path, rest, fb.rest)
  }

  /** Comparing the first field appends what it records; the rest is still to come. */
  lemma FirstField(done: seq<Path>, path: Path, fa: Fields, fb: Fields)
    requires fa.Field? && fb.Field? && Names(fa) == Names(fb)
    ensures Names(fa.rest) == Names(fb.rest)
    ensures done + FieldDifferences(path, fa, fb)
         == (done + Differences(path + [fa.name], fa.tree, fb.tree)) + FieldDifferences(path, fa.rest, fb.rest)
  {
    assert Names(fa.rest) == Names(fa)[1..] == Names(fb)[1..] == Names(fb.rest);
  }

  /** Some recorded path lies at `subject` or below it. */
  predicate DifferentAt(ds: seq<Path>, subject: Path) {
    exists i :: 0 <= i < |ds| && subject <= ds[i]
  }

  /** Some recorded path lies outside all of `excepted`. */
  predicate DifferentExcept(ds: seq<Path>, excepted: seq<Path>) {
    exists i :: 0 <= i < |ds| && Outside(ds[i], excepted)
  }

  predicate Outside(d: Path, excepted: seq<Path>) {
    forall e :: e in excepted ==> !(e <= d)
  }

  /** The list of differences one comparison fills in. */
  class Delta {
    var differences: seq<Path>

    constructor ()
      ensures differences == []
    {
      differences := [];
    }

    method Add(path: Path)
      modifies this
      ensures differences == old(differences) + [path]
    {
      differences := differences + [path];
    }

    /** The generated comparison of one field that holds a scalar, a list or a map. */
    method CompareLeaf(path: Path, a: Tree, b: Tree)
      requires !a.Node? && !b.Node?
      modifies this
      ensures differences == old(differences) + Differences(path, a, b)
    {
      if a.Absent? != b.Absent? {
        Add(path);
      } else if a.Leaf? && b.Leaf? {
        if a.value != b.value {
          Add(path);
        }
      }
    }
  }

  /** The subtree `q` leads to; nothing when the walk meets a nil pointer, a leaf or an unknown name first. */
  ghost predicate Reaches(t: Tree, q: Path, sub: Tree)
    decreases t
  {
    if q == [] then sub == t else t.Node? && FieldReaches(t.fields, q, sub)
  }

  ghost predicate FieldReaches(f: Fields, q: Path, sub: Tree)
    requires q != []
    decreases f
  {
    match f
    case NoFields => false
    case Field(n, t, rest) => if n == q[0] then Reaches(t, q[1..], sub) else FieldReaches(rest, q, sub)
  }

  /** No structure names a field twice. */
  ghost predicate Distinct(t: Tree) {
    t.Node? ==> DistinctFields(t.fields)
  }

  ghost predicate DistinctFields(f: Fields) {
    match f
    case NoFields => true
    case Field(n, t, rest) => n !in Names(rest) && Distinct(t) && DistinctFields(rest)
  }

  /** The two trees are values of one Go type: structures that meet have the same fields. */
  ghost predicate SameType(a: Tree, b: Tree) {
    a.Node? && b.Node? ==> SameTypes(a.fields, b.fields)
  }

  ghost predicate SameTypes(fa: Fields, fb: Fields) {
    match fa
    case NoFields => fb.NoFields?
    case Field(n, t, rest) => fb.Field? && fb.name == n && SameType(t, fb.tree) && SameTypes(rest, fb.rest)
  }

  lemma {:induction false} SameTypesNames(fa: Fields, fb: Fields)
    requires SameTypes(fa, fb)
    ensures Names(fa) == Names(fb)
  {
    if fa.Field? { SameTypesNames(fa.rest, fb.rest); }
  }

  /** One field more. */
  lemma FieldTyped(n: Name, t: Tree, u: Tree, fa: Fields, fb: Fields)
    requires SameType(t, u) && Distinct(t) && SameTypes(fa, fb) && DistinctFields(fa) && n !in Names(fa)
    ensures SameTypes(Field(n, t, fa), Field(n, u, fb)) && DistinctFields(Field(n, t, fa))
    ensures Names(Field(n, t, fa)) == [n] + Names(fa)
  {
  }

  // ----- every recorded path lies below the point compared

  lemma {:induction false} DifferencesBelow(path: Path, a: Tree, b: Tree)
    ensures forall i :: 0 <= i < |Differences(path, a, b)| ==> path <= Differences(path, a, b)[i]
    decreases a
  {
    if a.Node? && b.Node? && Names(a.fields) == Names(b.fields) {
      FieldDifferencesBelow(path, a.fields, b.fields);
    }
  }

  /** ... and enters one of the fields of the structure. */
  lemma {:induction false} FieldDifferencesBelow(path: Path, fa: Fields, fb: Fields)
    requires Names(fa) == Names(fb)
    ensures forall i :: 0 <= i < |FieldDifferences(path, fa, fb)| ==>
              var d := FieldDifferences(path, fa, fb)[i];
              |d| > |path| && path <= d && d[|path|] in Names(fa)
    decreases fa
  {
    if fa.Field? {
      assert Names(fa.rest) == Names(fa)[1..] == Names(fb)[1..] == Names(fb.rest);
      DifferencesBelow(path + [fa.name], fa.tree, fb.tree);
      FieldDifferencesBelow(path, fa.rest, fb.rest);
      var first := Differences(path + [fa.name], fa.tree, fb.tree);
      var others := FieldDifferences(path, fa.rest, fb.rest);
      forall i | 0 <= i < |first + others|
        ensures var d := (first + others)[i]; |d| > |path| && path <= d && d[|path|] in Names(fa)
      {
        var d := (first + others)[i];
        if i < |first| {
          assert d == first[i] && path + [fa.name] <= d;
          assert d[|path|] == (path + [fa.name])[|path|] == fa.name;
        } else {
          assert d == others[i - |first|];
        }
      }
    }
  }

  // ----- an empty delta means equal specs

  /** Nothing is recorded exactly when the two trees are equal. */
  lemma {:induction false} NoDifferences(path: Path, a: Tree, b: Tree)
    ensures Differences(path, a, b) == [] <==> a == b
    decreases a
  {
    if a.Node? && b.Node? && Names(a.fields) == Names(b.fields) {
      NoFieldDifferences(path, a.fields, b.fields);
    }
  }

  lemma {:induction false} NoFieldDifferences(path: Path, fa: Fields, fb: Fields)
    requires Names(fa) == Names(fb)
    ensures FieldDifferences(path, fa, fb) == [] <==> fa == fb
    decreases fa
  {
    if fa.Field? {
      assert fa.name == Names(fa)[0] == Names(fb)[0] == fb.name;
      assert Names(fa.rest) == Names(fa)[1..] == Names(fb)[1..] == Names(fb.rest);
      NoDifferences(path + [fa.name], fa.tree, fb.tree);
      NoFieldDifferences(path, fa.rest, fb.rest);
    } else {
      assert |Names(fb)| == 0;
    }
  }

  /** Exchanging desired and observed spec records the same paths, in the same order. */
  lemma {:induction false} DifferencesSymmetric(path: Path, a: Tree, b: Tree)
    ensures Differences(path, a, b) == Differences(path, b, a)
    decreases a
  {
    if a.Node? && b.Node? && Names(a.fields) == Names(b.fields) {
      FieldDifferencesSymmetric(path, a.fields, b.fields);
    }
  }

  lemma {:induction false} FieldDifferencesSymmetric(path: Path, fa: Fields, fb: Fields)
    requires Names(fa) == Names(fb)
    ensures FieldDifferences(path, fa, fb) == FieldDifferences(path, fb, fa)
    decreases fa
  {
    if fa.Field? {
      assert fa.name == Names(fa)[0] == Names(fb)[0] == fb.name;
      assert Names(fa.rest) == Names(fa)[1..] == Names(fb)[1..] == Names(fb.rest);
      DifferencesSymmetric(path + [fa.name], fa.tree, fb.tree);
      FieldDifferencesSymmetric(path, fa.rest, fb.rest);
    } else {
      assert |Names(fb)| == 0;
    }
  }

  // ----- a delta is exact at every point both sides have

  /**
    Wherever both specs have a subtree, the delta answers DifferentAt for it exactly when the two
    subtrees differ.
   */
  lemma {:induction false} DeltaExact(path: Path, a: Tree, b: Tree, q: Path, subA: Tree, subB: Tree)
    requires SameType(a, b) && Distinct(a)
    requires Reaches(a, q, subA) && Reaches(b, q, subB)
    ensures DifferentAt(Differences(path, a, b), path + q) <==> subA != subB
    decreases a
  {
    var ds := Differences(path, a, b);
    if q == [] {
      assert path + q == path;
      NoDifferences(path, a, b);
      DifferencesBelow(path, a, b);
      if ds != [] { assert path <= ds[0]; }
    } else {
      SameTypesNames(a.fields, b.fields);
      FieldDeltaExact(path, a.fields, b.fields, q, subA, subB);
    }
  }

  lemma {:induction false} FieldDeltaExact(path: Path, fa: Fields, fb: Fields, q: Path, subA: Tree, subB: Tree)
    requires q != [] && Names(fa) == Names(fb)
    requires SameTypes(fa, fb) && DistinctFields(fa)
    requires FieldReaches(fa, q, subA) && FieldReaches(fb, q, subB)
    ensures DifferentAt(FieldDifferences(path, fa, fb), path + q) <==> subA != subB
    decreases fa
  {
    assert Names(fa.rest) == Names(fa)[1..] == Names(fb)[1..] == Names(fb.rest);
    var first := Differences(path + [fa.name], fa.tree, fb.tree);
    var others := FieldDifferences(path, fa.rest, fb.rest);
    FieldDifferencesBelow(path, fa.rest, fb.rest);
    DifferencesBelow(path + [fa.name], fa.tree, fb.tree);
    DifferentAtConcat(first, others, path + q);
    if fa.name == q[0] {
      DeltaExact(path + [fa.name], fa.tree, fb.tree, q[1..], subA, subB);
      assert path + [fa.name] + q[1..] == path + q;
      forall i | 0 <= i < |others| ensures !(path + q <= others[i]) {
        OtherField(path, others[i], q);
      }
    } else {
      FieldDeltaExact(path, fa.rest, fb.rest, q, subA, subB);
      forall i | 0 <= i < |first| ensures !(path + q <= first[i]) {
        assert first[i][|path|] == (path + [fa.name])[|path|] == fa.name;
        OtherField(path, first[i], q);
      }
    }
  }

  lemma OtherField(path: Path, d: Path, q: Path)
    requires q != [] && |d| > |path| && d[|path|] != q[0]
    ensures !(path + q <= d)
  {
  }

  lemma DifferentAtConcat(ds: seq<Path>, es: seq<Path>, subject: Path)
    ensures DifferentAt(ds + es, subject) <==> DifferentAt(ds, subject) || DifferentAt(es, subject)
  {
    if DifferentAt(ds, subject) {
      var i :| 0 <= i < |ds| && subject <= ds[i];
      assert (ds + es)[i] == ds[i];
    }
    if DifferentAt(es, subject) {
      var i :| 0 <= i < |es| && subject <= es[i];
      assert (ds + es)[|ds| + i] == es[i];
    }
    if DifferentAt(ds + es, subject) {
      var i :| 0 <= i < |ds + es| && subject <= (ds + es)[i];
      if i < |ds| { assert subject <= ds[i]; } else { assert subject <= es[i - |ds|]; }
    }
  }

  /** A point below a nil difference is not reported: the path recorded stops at the nil pointer. */
  lemma HiddenBelowNil(path: Path, a: Tree, b: Tree, q: Path)
    requires q != [] && a.Absent? != b.Absent?
    ensures DifferentAt(Differences(path, a, b), path)
    ensures !DifferentAt(Differences(path, a, b), path + q)
  {
    assert Differences(path, a, b) == [path];
    assert path <= Differences(path, a, b)[0];
  }

  // ----- structures whose fields are listed

  /** The fields named in `names`, each holding the tree `at` gives it. */
  function FieldsOf(names: seq<Name>, at: Name -> Tree): (f: Fields)
    ensures Names(f) == names
    decreases |names|
  {
    if names == [] then NoFields else Field(names[0], at(names[0]), FieldsOf(names[1..], at))
  }

  /** Among listed fields, DifferentAt is exact one level down. */
  lemma {:induction false} ListedFieldExact(path: Path, names: seq<Name>, at: Name -> Tree, bt: Name -> Tree, n: Name)
    ensures DifferentAt(FieldDifferences(path, FieldsOf(names, at), FieldsOf(names, bt)), path + [n])
            <==> n in names && at(n) != bt(n)
  {
    var ds := FieldDifferences(path, FieldsOf(names, at), FieldsOf(names, bt));
    if names != [] {
      var m := names[0];
      var first := Differences(path + [m], at(m), bt(m));
      var others := FieldDifferences(path, FieldsOf(names[1..], at), FieldsOf(names[1..], bt));
      assert ds == first + others;
      DifferentAtConcat(first, others, path + [n]);
      ListedFieldExact(path, names[1..], at, bt, n);
      DifferencesBelow(path + [m], at(m), bt(m));
      NoDifferences(path + [m], at(m), bt(m));
      if first != [] { assert path + [m] <= first[0]; }
      forall i | 0 <= i < |first| ensures path + [n] <= first[i] <==> n == m {
        assert first[i][|path|] == (path + [m])[|path|] == m;
        assert (path + [n])[|path|] == n;
      }
    }
  }

  /** Below one of them, DifferentAt sees what comparing that field alone records. */
  lemma {:induction false} ListedFieldBelow(path: Path, names: seq<Name>, at: Name -> Tree, bt: Name -> Tree, n: Name,
                                            q: Path)
    ensures DifferentAt(FieldDifferences(path, FieldsOf(names, at), FieldsOf(names, bt)), path + [n] + q)
            <==> n in names && DifferentAt(Differences(path + [n], at(n), bt(n)), path + [n] + q)
  {
    if names != [] {
      var m, subject := names[0], path + [n] + q;
      var first := Differences(path + [m], at(m), bt(m));
      var others := FieldDifferences(path, FieldsOf(names[1..], at), FieldsOf(names[1..], bt));
      DifferentAtConcat(first, others, subject);
      ListedFieldBelow(path, names[1..], at, bt, n, q);
      DifferencesBelow(path + [m], at(m), bt(m));
      forall i | 0 <= i < |first| ensures subject <= first[i] ==> n == m {
        assert first[i][|path|] == (path + [m])[|path|] == m;
        assert subject[|path|] == n;
      }
    }
  }

  /** ... and DifferentExcept asks whether a field outside the excepted ones differs. */
  lemma ListedFieldsExcept(path: Path, names: seq<Name>, at: Name -> Tree, bt: Name -> Tree,
                           excepted: seq<Name>, paths: seq<Path>)
    requires ArePaths(path, excepted, paths)
    ensures DifferentExcept(FieldDifferences(path, FieldsOf(names, at), FieldsOf(names, bt)), paths)
            <==> exists n :: n in names && n !in excepted && at(n) != bt(n)
  {
    var ds := FieldDifferences(path, FieldsOf(names, at), FieldsOf(names, bt));
    FieldDifferencesBelow(path, FieldsOf(names, at), FieldsOf(names, bt));
    if DifferentExcept(ds, paths) {
      var i :| 0 <= i < |ds| && Outside(ds[i], paths);
      var n := ds[i][|path|];
      ExceptedByName(path, ds[i], excepted, paths);
      assert path + [n] <= ds[i];
      assert DifferentAt(ds, path + [n]);
      ListedFieldExact(path, names, at, bt, n);
    }
    if n :| n in names && n !in excepted && at(n) != bt(n) {
      ListedFieldExact(path, names, at, bt, n);
      assert DifferentAt(ds, path + [n]);
      var i :| 0 <= i < |ds| && path + [n] <= ds[i];
      assert ds[i][|path|] == (path + [n])[|path|];
      ExceptedByName(path, ds[i], excepted, paths);
    }
  }

  /** `paths` are the fields `excepted` of the structure at `path`. */
  ghost predicate ArePaths(path: Path, excepted: seq<Name>, paths: seq<Path>) {
    |paths| == |excepted| && forall i :: 0 <= i < |paths| ==> paths[i] == path + [excepted[i]]
  }

  lemma ExceptedByName(path: Path, d: Path, excepted: seq<Name>, paths: seq<Path>)
    requires |d| > |path| && path <= d
    requires ArePaths(path, excepted, paths)
    ensures Outside(d, paths) <==> d[|path|] !in excepted
  {
    if d[|path|] in excepted {
      var j :| 0 <= j < |excepted| && excepted[j] == d[|path|];
      assert paths[j] in paths && paths[j] <= d;
    }
    if !Outside(d, paths) {
      var e :| e in paths && e <= d;
      var j :| 0 <= j < |paths| && paths[j] == e;
      assert d[|path|] == (path + [excepted[j]])[|path|];
    }
  }

  /** The same for listed fields, at the i-th of them. */
  lemma NextField(done: seq<Path>, path: Path, names: seq<Name>, i: nat, at: Name -> Tree, bt: Name -> Tree)
    requires i < |names|
    ensures done + FieldDifferences(path, FieldsOf(names[i..], at), FieldsOf(names[i..], bt))
         == (done + Differences(path + [names[i]], at(names[i]), bt(names[i])))
            + FieldDifferences(path, FieldsOf(names[i + 1..], at), FieldsOf(names[i + 1..], bt))
  {
  }

  /** Listed fields are equal when each of them is. */
  lemma {:induction false} ListedFieldsEqual(names: seq<Name>, at: Name -> Tree, bt: Name -> Tree)
    ensures FieldsOf(names, at) == FieldsOf(names, bt) <==> forall n :: n in names ==> at(n) == bt(n)
  {
    if names != [] {
      ListedFieldsEqual(names[1..], at, bt);
      assert forall n :: n in names <==> n == names[0] || n in names[1..];
    }
  }

  /** Names in the order of their numbers, so each of them once. */
  ghost predicate Ordered(names: seq<Name>) {
    forall i, j :: 0 <= i < j < |names| ==> names[i] < names[j]
  }

  lemma {:induction false} OrderedByStep(names: seq<Name>)
    requires forall i :: 0 <= i < |names| - 1 ==> names[i] < names[i + 1]
    ensures Ordered(names)
  {
    if |names| > 1 {
      var n := |names| - 1;
      OrderedByStep(names[..n]);
      forall i, j | 0 <= i < j < |names| ensures names[i] < names[j] {
        if i < n - 1 { assert names[..n][i] < names[..n][n - 1]; }
      }
    }
  }

  lemma OrderedRest(names: seq<Name>)
    requires Ordered(names) && names != []
    ensures Ordered(names[1..]) && names[0] !in names[1..]
  {
  }

  /** A structure of listed fields is distinct when each of them is. */
  lemma {:induction false} ListedFieldsDistinct(names: seq<Name>, at: Name -> Tree)
    requires Ordered(names) && forall n :: n in names ==> Distinct(at(n))
    ensures DistinctFields(FieldsOf(names, at))
  {
    if names != [] {
      OrderedRest(names);
      ListedFieldsDistinct(names[1..], at);
    }
  }

  /** Two such structures are of one type when their fields are. */
  lemma {:induction false} ListedFieldsSameTypes(names: seq<Name>, at: Name -> Tree, bt: Name -> Tree)
    requires forall n :: n in names ==> SameType(at(n), bt(n))
    ensures SameTypes(FieldsOf(names, at), FieldsOf(names, bt))
  {
    if names != [] { ListedFieldsSameTypes(names[1..], at, bt); }
  }

  /** Structures of leaves are of one type when they have the same fields, and distinct when those are ordered. */
  lemma {:induction false} LeavesTyped(fa: Fields, fb: Fields)
    requires OnlyLeaves(fa) && OnlyLeaves(fb) && Names(fa) == Names(fb) && Ordered(Names(fa))
    ensures SameTypes(fa, fb) && DistinctFields(fa)
  {
    if fa.Field? {
      assert fa.name == Names(fa)[0] == Names(fb)[0] == fb.name;
      assert Names(fa.rest) == Names(fa)[1..] == Names(fb)[1..] == Names(fb.rest);
      OrderedRest(Names(fa));
      LeavesTyped(fa.rest, fb.rest);
    } else {
      assert |Names(fb)| == 0;
    }
  }

  predicate OnlyLeaves(f: Fields) {
    f.Field? ==> !f.tree.Node? && OnlyLeaves(f.rest)
  }

  /** A point below listed fields lies below one of them. */
  lemma {:induction false} ReachesListed(names: seq<Name>, at: Name -> Tree, q: Path, sub: Tree)
    requires q != [] && FieldReaches(FieldsOf(names, at), q, sub)
    ensures q[0] in names && Reaches(at(q[0]), q[1..], sub)
  {
    if names != [] && names[0] != q[0] { ReachesListed(names[1..], at, q, sub); }
  }

  /** ... and what a listed field reaches is reached through it. */
  lemma {:induction false} ListedReached(names: seq<Name>, at: Name -> Tree, n: Name, q: Path, sub: Tree)
    requires n in names && Reaches(at(n), q, sub)
    ensures FieldReaches(FieldsOf(names, at), [n] + q, sub)
  {
    assert ([n] + q)[0] == n && ([n] + q)[1..] == q;
    if names[0] != n { ListedReached(names[1..], at, n, q, sub); }
  }

  // ----- deltas that hand-written comparisons put paths in front of

  lemma PrependedExact(pre: seq<Path>, path: Path, names: seq<Name>, at: Name -> Tree, bt: Name -> Tree, n: Name)
    ensures DifferentAt(pre + FieldDifferences(path, FieldsOf(names, at), FieldsOf(names, bt)), path + [n])
            <==> DifferentAt(pre, path + [n]) || (n in names && at(n) != bt(n))
  {
    DifferentAtConcat(pre, FieldDifferences(path, FieldsOf(names, at), FieldsOf(names, bt)), path + [n]);
    ListedFieldExact(path, names, at, bt, n);
  }

  lemma PrependedExcept(pre: seq<Path>, path: Path, names: seq<Name>, at: Name -> Tree, bt: Name -> Tree,
                        excepted: seq<Name>, paths: seq<Path>)
    requires ArePaths(path, excepted, paths)
    ensures DifferentExcept(pre + FieldDifferences(path, FieldsOf(names, at), FieldsOf(names, bt)), paths)
            <==> DifferentExcept(pre, paths) || exists n :: n in names && n !in excepted && at(n) != bt(n)
  {
    DifferentExceptConcat(pre, FieldDifferences(path, FieldsOf(names, at), FieldsOf(names, bt)), paths);
    ListedFieldsExcept(path, names, at, bt, excepted, paths);
  }

  lemma DifferentExceptConcat(ds: seq<Path>, es: seq<Path>, paths: seq<Path>)
    ensures DifferentExcept(ds + es, paths) <==> DifferentExcept(ds, paths) || DifferentExcept(es, paths)
  {
    if DifferentExcept(ds, paths) {
      var i :| 0 <= i < |ds| && Outside(ds[i], paths);
      assert (ds + es)[i] == ds[i];
    }
    if DifferentExcept(es, paths) {
      var i :| 0 <= i < |es| && Outside(es[i], paths);
      assert (ds + es)[|ds| + i] == es[i];
    }
    if DifferentExcept(ds + es, paths) {
      var i :| 0 <= i < |ds + es| && Outside((ds + es)[i], paths);
      assert (ds + es)[i] == if i < |ds| then ds[i] else es[i - |ds|];
    }
  }

  lemma PrependedEmpty(pre: seq<Path>, path: Path, names: seq<Name>, at: Name -> Tree, bt: Name -> Tree)
    ensures pre + FieldDifferences(path, FieldsOf(names, at), FieldsOf(names, bt)) == []
            <==> pre == [] && forall n :: n in names ==> at(n) == bt(n)
  {
    NoFieldDifferences(path, FieldsOf(names, at), FieldsOf(names, bt));
    ListedFieldsEqual(names, at, bt);
  }
}
