/** A Lambda function's spec, desired or observed, and how the two are compared. */
module FunctionSpecs {
  import opened Common
  import opened Deltas
  import opened EventInvoke
  import opened TagService
  import N = FieldNames

  datatype Code = Code(
    imageURI: Option<string>,
    s3Bucket: Option<string>,
    s3Key: Option<string>,
    s3ObjectVersion: Option<string>,
    sha256: Option<string>,
    zipFile: string)

  datatype Tenancy = Tenancy(isolationMode: Option<string>)

  /**
    The fields the update treats one by one; `config` holds every other field by its name. Tags are
    as mirroring leaves them, which turns every nil value into an empty one.
   */
  datatype FunctionSpec = FunctionSpec(
    architectures: Option<seq<string>>,
    code: Option<Code>,
    signing: Option<string>,
    invoke: Option<Config>,
    packageType: Option<string>,
    concurrency: Option<int>,
    tags: Tags,
    tenancy: Option<Tenancy>,
    config: map<N.Name, Tree>)

  /** A function as read: its spec, and the two fields of its status that matter here. */
  datatype Resource = Resource(spec: FunctionSpec, state: Option<string>, codeSHA256: Option<string>)

  const IMAGE := "Image"
  const ZIP := "Zip"

  // ----- a spec as a tree

  /** The generated comparisons, in their order. */
  const FIELDS: seq<N.Name> := [
    N.ARCHITECTURES, N.CODE, N.CODE_SIGNING_CONFIG_ARN, N.CODE_SIGNING_CONFIG_REF, N.DEAD_LETTER_CONFIG,
    N.DESCRIPTION, N.DURABLE_CONFIG, N.ENVIRONMENT, N.EPHEMERAL_STORAGE, N.FILE_SYSTEM_CONFIGS,
    N.FUNCTION_EVENT_INVOKE_CONFIG, N.HANDLER, N.IMAGE_CONFIG, N.KMS_KEY_ARN, N.KMS_KEY_REF, N.LAYERS,
    N.LOGGING_CONFIG, N.MEMORY_SIZE, N.NAME, N.PACKAGE_TYPE, N.PUBLISH, N.RESERVED_CONCURRENT_EXECUTIONS,
    N.ROLE, N.ROLE_REF, N.RUNTIME, N.SNAP_START, N.TAGS, N.TENANCY_CONFIG, N.TIMEOUT, N.TRACING_CONFIG, N.VPC_CONFIG]

  /** The fields by their place. */
  lemma LeadingFieldAt()
    ensures |FIELDS| == 31
    ensures FIELDS[0] == N.ARCHITECTURES && FIELDS[1] == N.CODE && FIELDS[2] == N.CODE_SIGNING_CONFIG_ARN
    ensures FIELDS[3] == N.CODE_SIGNING_CONFIG_REF && FIELDS[4] == N.DEAD_LETTER_CONFIG && FIELDS[5] == N.DESCRIPTION
    ensures FIELDS[6] == N.DURABLE_CONFIG && FIELDS[7] == N.ENVIRONMENT
  {
  }

  lemma SecondFieldAt()
    ensures |FIELDS| == 31
    ensures FIELDS[8] == N.EPHEMERAL_STORAGE && FIELDS[9] == N.FILE_SYSTEM_CONFIGS
            && FIELDS[10] == N.FUNCTION_EVENT_INVOKE_CONFIG
    ensures FIELDS[11] == N.HANDLER && FIELDS[12] == N.IMAGE_CONFIG && FIELDS[13] == N.KMS_KEY_ARN
    ensures FIELDS[14] == N.KMS_KEY_REF && FIELDS[15] == N.LAYERS
  {
  }

  lemma ThirdFieldAt()
    ensures |FIELDS| == 31
    ensures FIELDS[16] == N.LOGGING_CONFIG && FIELDS[17] == N.MEMORY_SIZE && FIELDS[18] == N.NAME
    ensures FIELDS[19] == N.PACKAGE_TYPE && FIELDS[20] == N.PUBLISH && FIELDS[21] == N.RESERVED_CONCURRENT_EXECUTIONS
    ensures FIELDS[22] == N.ROLE && FIELDS[23] == N.ROLE_REF
  {
  }

  lemma TrailingFieldAt()
    ensures |FIELDS| == 31
    ensures FIELDS[24] == N.RUNTIME && FIELDS[25] == N.SNAP_START && FIELDS[26] == N.TAGS
    ensures FIELDS[27] == N.TENANCY_CONFIG && FIELDS[28] == N.TIMEOUT && FIELDS[29] == N.TRACING_CONFIG
    ensures FIELDS[30] == N.VPC_CONFIG
  {
  }

  lemma FieldAt()
    ensures |FIELDS| == 31
    ensures FIELDS[0] == N.ARCHITECTURES && FIELDS[1] == N.CODE && FIELDS[2] == N.CODE_SIGNING_CONFIG_ARN
    ensures FIELDS[3] == N.CODE_SIGNING_CONFIG_REF && FIELDS[4] == N.DEAD_LETTER_CONFIG && FIELDS[5] == N.DESCRIPTION
    ensures FIELDS[6] == N.DURABLE_CONFIG && FIELDS[7] == N.ENVIRONMENT && FIELDS[8] == N.EPHEMERAL_STORAGE
    ensures FIELDS[9] == N.FILE_SYSTEM_CONFIGS && FIELDS[10] == N.FUNCTION_EVENT_INVOKE_CONFIG
            && FIELDS[11] == N.HANDLER
    ensures FIELDS[12] == N.IMAGE_CONFIG && FIELDS[13] == N.KMS_KEY_ARN && FIELDS[14] == N.KMS_KEY_REF
    ensures FIELDS[15] == N.LAYERS && FIELDS[16] == N.LOGGING_CONFIG && FIELDS[17] == N.MEMORY_SIZE
    ensures FIELDS[18] == N.NAME && FIELDS[19] == N.PACKAGE_TYPE && FIELDS[20] == N.PUBLISH
    ensures FIELDS[21] == N.RESERVED_CONCURRENT_EXECUTIONS && FIELDS[22] == N.ROLE && FIELDS[23] == N.ROLE_REF
    ensures FIELDS[24] == N.RUNTIME && FIELDS[25] == N.SNAP_START && FIELDS[26] == N.TAGS
    ensures FIELDS[27] == N.TENANCY_CONFIG && FIELDS[28] == N.TIMEOUT && FIELDS[29] == N.TRACING_CONFIG
    ensures FIELDS[30] == N.VPC_CONFIG
  {
    hide FIELDS;
    LeadingFieldAt();
    SecondFieldAt();
    ThirdFieldAt();
    TrailingFieldAt();
  }

  predicate IsConfigField(n: N.Name) {
    n in FIELDS && n != N.ARCHITECTURES && n != N.CODE && n != N.CODE_SIGNING_CONFIG_ARN
    && n != N.FUNCTION_EVENT_INVOKE_CONFIG && n != N.PACKAGE_TYPE && n != N.RESERVED_CONCURRENT_EXECUTIONS
    && n != N.TAGS && n != N.TENANCY_CONFIG
  }

  predicate IsListField(n: N.Name) {
    n == N.LAYERS || n == N.FILE_SYSTEM_CONFIGS
  }

  /** A field that is not there: nil, or for a list the empty list. */
  function Blank(n: N.Name): Tree {
    if IsListField(n) then Leaf(List([])) else Absent
  }

  function Entry(config: map<N.Name, Tree>, n: N.Name): Tree {
    if n in config then config[n] else Blank(n)
  }

  const CODE_FIELDS: seq<N.Name> := [N.IMAGE_URI, N.S3_BUCKET, N.S3_KEY, N.S3_OBJECT_VERSION, N.ZIP_FILE]

  function CodeField(c: Code, n: N.Name): Tree {
    if n == N.IMAGE_URI then TextTree(c.imageURI)
    else if n == N.S3_BUCKET then TextTree(c.s3Bucket)
    else if n == N.S3_KEY then TextTree(c.s3Key)
    else if n == N.S3_OBJECT_VERSION then TextTree(c.s3ObjectVersion)
    else Leaf(Text(c.zipFile))
  }

  function CodeAt(c: Code): N.Name -> Tree {
    n => CodeField(c, n)
  }

  /** The hash is not among the fields compared by the generated code. */
  function CodeTree(c: Option<Code>): Tree {
    if c.Some? then Node(FieldsOf(CODE_FIELDS, CodeAt(c.value))) else Absent
  }

  function TenancyTree(t: Option<Tenancy>): Tree {
    if t.Some? then Node(Field(N.TENANT_ISOLATION_MODE, TextTree(t.value.isolationMode), NoFields)) else Absent
  }

  function Architectures(a: FunctionSpec): seq<string> {
    if a.architectures.Some? then a.architectures.value else []
  }

  function FieldTree(a: FunctionSpec, n: N.Name): Tree {
    if n == N.ARCHITECTURES then Leaf(List(Architectures(a)))
    else if n == N.CODE then CodeTree(a.code)
    else if n == N.CODE_SIGNING_CONFIG_ARN then TextTree(a.signing)
    else if n == N.FUNCTION_EVENT_INVOKE_CONFIG then ConfigTree(a.invoke)
    else if n == N.PACKAGE_TYPE then TextTree(a.packageType)
    else if n == N.RESERVED_CONCURRENT_EXECUTIONS then NumberTree(a.concurrency)
    else if n == N.TAGS then Leaf(Texts(a.tags))
    else if n == N.TENANCY_CONFIG then TenancyTree(a.tenancy)
    else Entry(a.config, n)
  }

  function At(a: FunctionSpec): N.Name -> Tree {
    n => FieldTree(a, n)
  }

  // ----- customPreCompare

  const CODE: Path := [N.SPEC, N.CODE]
  const CODE_SHA256: Path := [N.SPEC, N.CODE, N.SHA256]
  const CODE_IMAGE_URI: Path := [N.SPEC, N.CODE, N.IMAGE_URI]
  const ARCHITECTURES: Path := [N.SPEC, N.ARCHITECTURES]

  /** A zip package whose declared hash is not the one the service computed. */
  predicate HashDiffers(a: FunctionSpec, b: Resource) {
    && a.code.Some? && b.spec.code.Some?
    && a.packageType == Some(ZIP)
    && a.code.value.sha256.Some? && a.code.value.sha256 != b.codeSHA256
  }

  function Reported(a: FunctionSpec, b: Resource): seq<Path> {
    if a.code.Some? != b.spec.code.Some? then [CODE]
    else if HashDiffers(a, b) then [CODE_SHA256]
    else []
  }

  method CustomPreCompare(delta: Delta, a: FunctionSpec, b: Resource)
    modifies delta
    ensures delta.differences == old(delta.differences) + Reported(a, b)
    ensures delta.differences == old(delta.differences)
              + if a.code.Some? != b.spec.code.Some? then [[N.SPEC, N.CODE]]
                else if a.code.Some? && a.packageType == Some("Zip") && a.code.value.sha256.Some?
                        && a.code.value.sha256 != b.codeSHA256 then [[N.SPEC, N.CODE, N.SHA256]]
                else []
  {
    if a.code.Some? != b.spec.code.Some? {
      delta.Add(CODE);
    } else if a.code.Some? && b.spec.code.Some? {
      if a.packageType.Some? && a.packageType.value == ZIP {
        if a.code.value.sha256.Some? {
          if a.code.value.sha256.Some? != b.codeSHA256.Some? {
            delta.Add(CODE_SHA256);
          } else if b.codeSHA256.Some? {
            if a.code.value.sha256.value != b.codeSHA256.value {
              delta.Add(CODE_SHA256);
            }
          }
        }
      }
    }
  }

  // ----- newResourceDelta

  ghost function FunctionDelta(a: FunctionSpec, b: Resource): seq<Path> {
    Reported(a, b) + FieldDifferences([N.SPEC], FieldsOf(FIELDS, At(a)), FieldsOf(FIELDS, At(b.spec)))
  }

  // ----- the types of the remaining fields

  /** The fields of a structure, for the fields that are structures. */
  function Inner(n: N.Name): seq<N.Name> {
    if n == N.DEAD_LETTER_CONFIG then [N.TARGET_ARN]
    else if n == N.DURABLE_CONFIG then [N.EXECUTION_TIMEOUT, N.RETENTION_PERIOD_IN_DAYS]
    else if n == N.ENVIRONMENT then [N.VARIABLES]
    else if n == N.EPHEMERAL_STORAGE then [N.SIZE]
    else if n == N.IMAGE_CONFIG then [N.COMMAND, N.ENTRY_POINT, N.WORKING_DIRECTORY]
    else if n == N.LOGGING_CONFIG then [N.APPLICATION_LOG_LEVEL, N.LOG_FORMAT, N.LOG_GROUP, N.SYSTEM_LOG_LEVEL]
    else if n == N.SNAP_START then [N.APPLY_ON]
    else if n == N.TRACING_CONFIG then [N.MODE]
    else if n == N.VPC_CONFIG then [N.SECURITY_GROUP_IDS, N.SUBNET_IDS]
    else []
  }

  predicate IsStructure(t: Tree, names: seq<N.Name>) {
    t.Absent? || (t.Node? && Names(t.fields) == names && OnlyLeaves(t.fields))
  }

  /** A field of its Go type: a structure of leaves, or a scalar, a list or a reference compared as a whole. */
  predicate HasType(n: N.Name, t: Tree) {
    if Inner(n) != [] then IsStructure(t, Inner(n)) else !t.Node?
  }

  ghost predicate Typed(a: FunctionSpec) {
    forall n :: IsConfigField(n) ==> HasType(n, Entry(a.config, n))
  }

  /** The generated comparison of a structure. */
  method CompareStructure(delta: Delta, path: Path, ghost names: seq<N.Name>, a: Tree, b: Tree)
    requires IsStructure(a, names) && IsStructure(b, names)
    modifies delta
    ensures delta.differences == old(delta.differences) + Differences(path, a, b)
  {
    if a.Absent? != b.Absent? {
      delta.Add(path);
    } else if a.Node? && b.Node? {
      CompareLeaves(delta, path, a.fields, b.fields);
    }
  }

  /** Its fields, one after another. */
  method CompareLeaves(delta: Delta, path: Path, fa: Fields, fb: Fields)
    requires Names(fa) == Names(fb) && OnlyLeaves(fa) && OnlyLeaves(fb)
    modifies delta
    ensures delta.differences == old(delta.differences) + FieldDifferences(path, fa, fb)
    decreases fa
  {
    if fa.Field? {
      FirstField(delta.differences, path, fa, fb);
      delta.CompareLeaf(path + [fa.name], fa.tree, fb.tree);
      CompareLeaves(delta, path, fa.rest, fb.rest);
    }
  }

  method CompareTenancy(delta: Delta, path: Path, a: Option<Tenancy>, b: Option<Tenancy>)
    modifies delta
    ensures delta.differences == old(delta.differences) + Differences(path, TenancyTree(a), TenancyTree(b))
  {
    if a.Some? != b.Some? {
      delta.Add(path);
    } else if a.Some? && b.Some? {
      FirstField(delta.differences, path, TenancyTree(a).fields, TenancyTree(b).fields);
      delta.CompareLeaf(path + [N.TENANT_ISOLATION_MODE], TextTree(a.value.isolationMode),
                        TextTree(b.value.isolationMode));
    }
  }

  method CompareCode(delta: Delta, a: Option<Code>, b: Option<Code>)
    modifies delta
    ensures delta.differences == old(delta.differences) + Differences([N.SPEC, N.CODE], CodeTree(a), CodeTree(b))
  {
    if a.Some? != b.Some? {
      delta.Add([N.SPEC, N.CODE]);
    } else if a.Some? && b.Some? {
      CompareSource(delta, a.value, b.value);
      AllCodeRemaining(a.value, b.value);
    }
  }

  ghost function CodeRemaining(a: Code, b: Code, i: nat): seq<Path>
    requires i <= |CODE_FIELDS|
  {
    FieldDifferences(CODE, FieldsOf(CODE_FIELDS[i..], CodeAt(a)), FieldsOf(CODE_FIELDS[i..], CodeAt(b)))
  }

  lemma NextCodeField(done: seq<Path>, a: Code, b: Code, i: nat, n: N.Name)
    requires i < |CODE_FIELDS| && CODE_FIELDS[i] == n
    ensures done + CodeRemaining(a, b, i)
         == done + Differences([N.SPEC, N.CODE, n], CodeField(a, n), CodeField(b, n)) + CodeRemaining(a, b, i + 1)
  {
    NextField(done, CODE, CODE_FIELDS, i, CodeAt(a), CodeAt(b));
    assert CODE + [n] == [N.SPEC, N.CODE, n];
  }

  lemma AllCodeRemaining(a: Code, b: Code)
    ensures |CODE_FIELDS| == 5
    ensures Differences(CODE, CodeTree(Some(a)), CodeTree(Some(b))) == CodeRemaining(a, b, 0)
    ensures CodeRemaining(a, b, 5) == []
  {
    assert CODE_FIELDS[0..] == CODE_FIELDS && CODE_FIELDS[5..] == [];
  }

  method CompareSource(delta: Delta, a: Code, b: Code)
    modifies delta
    ensures |CODE_FIELDS| == 5
    ensures delta.differences == old(delta.differences) + CodeRemaining(a, b, 0)
  {
    hide FieldDifferences, Differences, CodeRemaining;
    AllCodeRemaining(a, b);
    NextCodeField(delta.differences, a, b, 0, N.IMAGE_URI);
    delta.CompareLeaf([N.SPEC, N.CODE, N.IMAGE_URI], TextTree(a.imageURI), TextTree(b.imageURI));
    NextCodeField(delta.differences, a, b, 1, N.S3_BUCKET);
    delta.CompareLeaf([N.SPEC, N.CODE, N.S3_BUCKET], TextTree(a.s3Bucket), TextTree(b.s3Bucket));
    NextCodeField(delta.differences, a, b, 2, N.S3_KEY);
    delta.CompareLeaf([N.SPEC, N.CODE, N.S3_KEY], TextTree(a.s3Key), TextTree(b.s3Key));
    NextCodeField(delta.differences, a, b, 3, N.S3_OBJECT_VERSION);
    delta.CompareLeaf([N.SPEC, N.CODE, N.S3_OBJECT_VERSION], TextTree(a.s3ObjectVersion), TextTree(b.s3ObjectVersion));
    NextCodeField(delta.differences, a, b, 4, N.ZIP_FILE);
    delta.CompareLeaf([N.SPEC, N.CODE, N.ZIP_FILE], Leaf(Text(a.zipFile)), Leaf(Text(b.zipFile)));
  }

  /** The comparisons still to be made from the i-th generated field on. */
  ghost function Remaining(a: FunctionSpec, b: FunctionSpec, i: nat): seq<Path>
    requires i <= |FIELDS|
  {
    FieldDifferences([N.SPEC], FieldsOf(FIELDS[i..], At(a)), FieldsOf(FIELDS[i..], At(b)))
  }

  lemma NextRemaining(done: seq<Path>, a: FunctionSpec, b: FunctionSpec, i: nat, n: N.Name)
    requires i < |FIELDS| && FIELDS[i] == n && !IsConfigField(n)
    ensures done + Remaining(a, b, i)
         == done + Differences([N.SPEC, n], FieldTree(a, n), FieldTree(b, n)) + Remaining(a, b, i + 1)
  {
    hide FieldTree, FIELDS, FieldDifferences, Differences;
    NextField(done, [N.SPEC], FIELDS, i, At(a), At(b));
    assert [N.SPEC] + [n] == [N.SPEC, n];
  }

  /** The same for a field of the configuration, which also has its type. */
  lemma NextConfig(done: seq<Path>, a: FunctionSpec, b: FunctionSpec, i: nat, n: N.Name)
    requires i < |FIELDS| && FIELDS[i] == n && Typed(a) && Typed(b)
    requires n != N.ARCHITECTURES && n != N.CODE && n != N.CODE_SIGNING_CONFIG_ARN
             && n != N.FUNCTION_EVENT_INVOKE_CONFIG
    requires n != N.PACKAGE_TYPE && n != N.RESERVED_CONCURRENT_EXECUTIONS && n != N.TAGS && n != N.TENANCY_CONFIG
    ensures done + Remaining(a, b, i)
         == done + Differences([N.SPEC, n], Entry(a.config, n), Entry(b.config, n)) + Remaining(a, b, i + 1)
    ensures HasType(n, Entry(a.config, n)) && HasType(n, Entry(b.config, n))
  {
    hide FIELDS, FieldDifferences, Differences, HasType, Entry;
    NextField(done, [N.SPEC], FIELDS, i, At(a), At(b));
    assert [N.SPEC] + [n] == [N.SPEC, n];
    assert IsConfigField(n);
  }

  method CompareLeadingFields(delta: Delta, a: FunctionSpec, b: FunctionSpec)
    requires |FIELDS| == 31 && Typed(a) && Typed(b)
    modifies delta
    ensures old(delta.differences) + Remaining(a, b, 0) == delta.differences + Remaining(a, b, 8)
  {
    hide FieldDifferences, Differences, Remaining, ConfigTree, CodeTree, TenancyTree, FIELDS, Entry, Typed, IsStructure;
    LeadingFieldAt();
    NextRemaining(delta.differences, a, b, 0, N.ARCHITECTURES);
    delta.CompareLeaf([N.SPEC, N.ARCHITECTURES], Leaf(List(Architectures(a))), Leaf(List(Architectures(b))));
    NextRemaining(delta.differences, a, b, 1, N.CODE);
    CompareCode(delta, a.code, b.code);
    NextRemaining(delta.differences, a, b, 2, N.CODE_SIGNING_CONFIG_ARN);
    delta.CompareLeaf([N.SPEC, N.CODE_SIGNING_CONFIG_ARN], TextTree(a.signing), TextTree(b.signing));
    NextConfig(delta.differences, a, b, 3, N.CODE_SIGNING_CONFIG_REF);
    delta.CompareLeaf([N.SPEC, N.CODE_SIGNING_CONFIG_REF], Entry(a.config, N.CODE_SIGNING_CONFIG_REF),
                      Entry(b.config, N.CODE_SIGNING_CONFIG_REF));
    NextConfig(delta.differences, a, b, 4, N.DEAD_LETTER_CONFIG);
    CompareStructure(delta, [N.SPEC, N.DEAD_LETTER_CONFIG], [N.TARGET_ARN],
                     Entry(a.config, N.DEAD_LETTER_CONFIG), Entry(b.config, N.DEAD_LETTER_CONFIG));
    NextConfig(delta.differences, a, b, 5, N.DESCRIPTION);
    delta.CompareLeaf([N.SPEC, N.DESCRIPTION], Entry(a.config, N.DESCRIPTION), Entry(b.config, N.DESCRIPTION));
    NextConfig(delta.differences, a, b, 6, N.DURABLE_CONFIG);
    CompareStructure(delta, [N.SPEC, N.DURABLE_CONFIG], [N.EXECUTION_TIMEOUT, N.RETENTION_PERIOD_IN_DAYS],
                     Entry(a.config, N.DURABLE_CONFIG), Entry(b.config, N.DURABLE_CONFIG));
    NextConfig(delta.differences, a, b, 7, N.ENVIRONMENT);
    CompareStructure(delta, [N.SPEC, N.ENVIRONMENT], [N.VARIABLES],
                     Entry(a.config, N.ENVIRONMENT), Entry(b.config, N.ENVIRONMENT));
  }

  method CompareSecondFields(delta: Delta, a: FunctionSpec, b: FunctionSpec)
    requires |FIELDS| == 31 && Typed(a) && Typed(b)
    modifies delta
    ensures old(delta.differences) + Remaining(a, b, 8) == delta.differences + Remaining(a, b, 16)
  {
    hide FieldDifferences, Differences, Remaining, ConfigTree, CodeTree, TenancyTree, FIELDS, Entry, Typed, IsStructure;
    SecondFieldAt();
    NextConfig(delta.differences, a, b, 8, N.EPHEMERAL_STORAGE);
    CompareStructure(delta, [N.SPEC, N.EPHEMERAL_STORAGE], [N.SIZE],
                     Entry(a.config, N.EPHEMERAL_STORAGE), Entry(b.config, N.EPHEMERAL_STORAGE));
    NextConfig(delta.differences, a, b, 9, N.FILE_SYSTEM_CONFIGS);
    delta.CompareLeaf([N.SPEC, N.FILE_SYSTEM_CONFIGS], Entry(a.config, N.FILE_SYSTEM_CONFIGS),
                      Entry(b.config, N.FILE_SYSTEM_CONFIGS));
    NextRemaining(delta.differences, a, b, 10, N.FUNCTION_EVENT_INVOKE_CONFIG);
    CompareConfig(delta, [N.SPEC, N.FUNCTION_EVENT_INVOKE_CONFIG], a.invoke, b.invoke);
    NextConfig(delta.differences, a, b, 11, N.HANDLER);
    delta.CompareLeaf([N.SPEC, N.HANDLER], Entry(a.config, N.HANDLER), Entry(b.config, N.HANDLER));
    NextConfig(delta.differences, a, b, 12, N.IMAGE_CONFIG);
    CompareStructure(delta, [N.SPEC, N.IMAGE_CONFIG], [N.COMMAND, N.ENTRY_POINT, N.WORKING_DIRECTORY],
                     Entry(a.config, N.IMAGE_CONFIG), Entry(b.config, N.IMAGE_CONFIG));
    NextConfig(delta.differences, a, b, 13, N.KMS_KEY_ARN);
    delta.CompareLeaf([N.SPEC, N.KMS_KEY_ARN], Entry(a.config, N.KMS_KEY_ARN), Entry(b.config, N.KMS_KEY_ARN));
    NextConfig(delta.differences, a, b, 14, N.KMS_KEY_REF);
    delta.CompareLeaf([N.SPEC, N.KMS_KEY_REF], Entry(a.config, N.KMS_KEY_REF), Entry(b.config, N.KMS_KEY_REF));
    NextConfig(delta.differences, a, b, 15, N.LAYERS);
    delta.CompareLeaf([N.SPEC, N.LAYERS], Entry(a.config, N.LAYERS), Entry(b.config, N.LAYERS));
  }

  method CompareThirdFields(delta: Delta, a: FunctionSpec, b: FunctionSpec)
    requires |FIELDS| == 31 && Typed(a) && Typed(b)
    modifies delta
    ensures old(delta.differences) + Remaining(a, b, 16) == delta.differences + Remaining(a, b, 24)
  {
    hide FieldDifferences, Differences, Remaining, ConfigTree, CodeTree, TenancyTree, FIELDS, Entry, Typed, IsStructure;
    ThirdFieldAt();
    NextConfig(delta.differences, a, b, 16, N.LOGGING_CONFIG);
    CompareStructure(delta, [N.SPEC, N.LOGGING_CONFIG],
                     [N.APPLICATION_LOG_LEVEL, N.LOG_FORMAT, N.LOG_GROUP, N.SYSTEM_LOG_LEVEL],
                     Entry(a.config, N.LOGGING_CONFIG), Entry(b.config, N.LOGGING_CONFIG));
    NextConfig(delta.differences, a, b, 17, N.MEMORY_SIZE);
    delta.CompareLeaf([N.SPEC, N.MEMORY_SIZE], Entry(a.config, N.MEMORY_SIZE), Entry(b.config, N.MEMORY_SIZE));
    NextConfig(delta.differences, a, b, 18, N.NAME);
    delta.CompareLeaf([N.SPEC, N.NAME], Entry(a.config, N.NAME), Entry(b.config, N.NAME));
    NextRemaining(delta.differences, a, b, 19, N.PACKAGE_TYPE);
    delta.CompareLeaf([N.SPEC, N.PACKAGE_TYPE], TextTree(a.packageType), TextTree(b.packageType));
    NextConfig(delta.differences, a, b, 20, N.PUBLISH);
    delta.CompareLeaf([N.SPEC, N.PUBLISH], Entry(a.config, N.PUBLISH), Entry(b.config, N.PUBLISH));
    NextRemaining(delta.differences, a, b, 21, N.RESERVED_CONCURRENT_EXECUTIONS);
    delta.CompareLeaf([N.SPEC, N.RESERVED_CONCURRENT_EXECUTIONS], NumberTree(a.concurrency), NumberTree(b.concurrency));
    NextConfig(delta.differences, a, b, 22, N.ROLE);
    delta.CompareLeaf([N.SPEC, N.ROLE], Entry(a.config, N.ROLE), Entry(b.config, N.ROLE));
    NextConfig(delta.differences, a, b, 23, N.ROLE_REF);
    delta.CompareLeaf([N.SPEC, N.ROLE_REF], Entry(a.config, N.ROLE_REF), Entry(b.config, N.ROLE_REF));
  }

  method CompareTrailingFields(delta: Delta, a: FunctionSpec, b: FunctionSpec)
    requires |FIELDS| == 31 && Typed(a) && Typed(b)
    modifies delta
    ensures old(delta.differences) + Remaining(a, b, 24) == delta.differences + Remaining(a, b, 31)
  {
    hide FieldDifferences, Differences, Remaining, ConfigTree, CodeTree, TenancyTree, FIELDS, Entry, Typed, IsStructure;
    TrailingFieldAt();
    NextConfig(delta.differences, a, b, 24, N.RUNTIME);
    delta.CompareLeaf([N.SPEC, N.RUNTIME], Entry(a.config, N.RUNTIME), Entry(b.config, N.RUNTIME));
    NextConfig(delta.differences, a, b, 25, N.SNAP_START);
    CompareStructure(delta, [N.SPEC, N.SNAP_START], [N.APPLY_ON], Entry(a.config, N.SNAP_START),
                     Entry(b.config, N.SNAP_START));
    NextRemaining(delta.differences, a, b, 26, N.TAGS);
    delta.CompareLeaf([N.SPEC, N.TAGS], Leaf(Texts(a.tags)), Leaf(Texts(b.tags)));
    NextRemaining(delta.differences, a, b, 27, N.TENANCY_CONFIG);
    CompareTenancy(delta, [N.SPEC, N.TENANCY_CONFIG], a.tenancy, b.tenancy);
    NextConfig(delta.differences, a, b, 28, N.TIMEOUT);
    delta.CompareLeaf([N.SPEC, N.TIMEOUT], Entry(a.config, N.TIMEOUT), Entry(b.config, N.TIMEOUT));
    NextConfig(delta.differences, a, b, 29, N.TRACING_CONFIG);
    CompareStructure(delta, [N.SPEC, N.TRACING_CONFIG], [N.MODE],
                     Entry(a.config, N.TRACING_CONFIG), Entry(b.config, N.TRACING_CONFIG));
    NextConfig(delta.differences, a, b, 30, N.VPC_CONFIG);
    CompareStructure(delta, [N.SPEC, N.VPC_CONFIG], [N.SECURITY_GROUP_IDS, N.SUBNET_IDS],
                     Entry(a.config, N.VPC_CONFIG), Entry(b.config, N.VPC_CONFIG));
  }

  /** The hand-written comparison, then one block of comparisons per field. */
  method NewResourceDelta(a: FunctionSpec, b: Resource) returns (delta: Delta)
    requires Typed(a) && Typed(b.spec)
    ensures fresh(delta) && delta.differences == FunctionDelta(a, b)
  {
    hide FieldDifferences, Differences, Remaining, Reported, FIELDS, Typed;
    delta := new Delta();
    CustomPreCompare(delta, a, b);
    assert delta.differences == Reported(a, b);
    AllRemaining(a, b);
    CompareLeadingFields(delta, a, b.spec);
    CompareSecondFields(delta, a, b.spec);
    CompareThirdFields(delta, a, b.spec);
    CompareTrailingFields(delta, a, b.spec);
  }

  lemma AllRemaining(a: FunctionSpec, b: Resource)
    ensures |FIELDS| == 31
    ensures FunctionDelta(a, b) == Reported(a, b) + Remaining(a, b.spec, 0)
    ensures Remaining(a, b.spec, 31) == []
  {
    hide FieldTree, Differences, Reported;
    assert FIELDS[0..] == FIELDS && FIELDS[31..] == [];
  }

  // ----- what the delta answers

  lemma FieldExact(a: FunctionSpec, b: Resource, n: N.Name)
    requires n in FIELDS && n != N.CODE
    ensures DifferentAt(FunctionDelta(a, b), [N.SPEC, n]) <==> FieldTree(a, n) != FieldTree(b.spec, n)
  {
    hide FieldDifferences, FieldsOf, FieldTree;
    PrependedExact(Reported(a, b), [N.SPEC], FIELDS, At(a), At(b.spec), n);
    assert [N.SPEC] + [n] == [N.SPEC, n];
    NotInCode(n);
  }

  lemma NotInCode(n: N.Name)
    requires n != N.CODE
    ensures !([N.SPEC, n] <= CODE) && !([N.SPEC, n] <= CODE_SHA256)
  {
    assert CODE[1] == N.CODE && CODE_SHA256[1] == N.CODE && [N.SPEC, n][1] == n;
  }

  /** The image is reported exactly when both sides have code and their images differ. */
  lemma ImageExact(a: FunctionSpec, b: Resource)
    ensures DifferentAt(FunctionDelta(a, b), CODE_IMAGE_URI)
            <==> a.code.Some? && b.spec.code.Some? && a.code.value.imageURI != b.spec.code.value.imageURI
  {
    hide FieldDifferences, FieldsOf, Differences, CodeTree, HashDiffers;
    var ds := FieldDifferences([N.SPEC], FieldsOf(FIELDS, At(a)), FieldsOf(FIELDS, At(b.spec)));
    BelowCode(a, b, N.IMAGE_URI);
    CodeFieldExact(a.code, b.spec.code, N.IMAGE_URI);
  }

  /** The hash is reported exactly when the hand-written comparison reports it. */
  lemma HashExact(a: FunctionSpec, b: Resource)
    ensures DifferentAt(FunctionDelta(a, b), CODE_SHA256) <==> HashDiffers(a, b)
    ensures DifferentAt(FunctionDelta(a, b), [N.SPEC, N.CODE, N.SHA256]) <==>
              && a.code.Some? && b.spec.code.Some? && a.packageType == Some("Zip")
              && a.code.value.sha256.Some? && a.code.value.sha256 != b.codeSHA256
  {
    hide FunctionDelta, DifferentAt, HashDiffers;
    HashDiffersExact(a, b);
    HashReported(a, b);
  }

  lemma HashDiffersExact(a: FunctionSpec, b: Resource)
    ensures HashDiffers(a, b) <==>
              && a.code.Some? && b.spec.code.Some? && a.packageType == Some("Zip")
              && a.code.value.sha256.Some? && a.code.value.sha256 != b.codeSHA256
  {
  }

  lemma HashReported(a: FunctionSpec, b: Resource)
    ensures DifferentAt(FunctionDelta(a, b), CODE_SHA256) <==> HashDiffers(a, b)
  {
    hide FieldDifferences, FieldsOf, Differences, CodeTree, HashDiffers;
    BelowCode(a, b, N.SHA256);
    CodeFieldExact(a.code, b.spec.code, N.SHA256);
    if Reported(a, b) == [CODE_SHA256] { assert CODE_SHA256 <= Reported(a, b)[0]; }
    OnlyWithCode(a, b);
  }

  lemma OnlyWithCode(a: FunctionSpec, b: Resource)
    ensures HashDiffers(a, b) ==> Reported(a, b) == [CODE_SHA256]
  {
  }

  lemma BelowCode(a: FunctionSpec, b: Resource, n: N.Name)
    ensures DifferentAt(FunctionDelta(a, b), [N.SPEC, N.CODE, n])
            <==> DifferentAt(Reported(a, b), [N.SPEC, N.CODE, n])
                 || DifferentAt(Differences(CODE, CodeTree(a.code), CodeTree(b.spec.code)), [N.SPEC, N.CODE, n])
    ensures DifferentAt(Reported(a, b), [N.SPEC, N.CODE, n]) ==> n == N.SHA256 && Reported(a, b) == [CODE_SHA256]
  {
    hide FieldDifferences, FieldsOf, Differences, CodeTree, HashDiffers;
    DifferentAtConcat(Reported(a, b),
                      FieldDifferences([N.SPEC], FieldsOf(FIELDS, At(a)), FieldsOf(FIELDS, At(b.spec))),
                          [N.SPEC, N.CODE, n]);
    ListedFieldBelow([N.SPEC], FIELDS, At(a), At(b.spec), N.CODE, [n]);
    assert [N.SPEC] + [N.CODE] == CODE && [N.SPEC] + [N.CODE] + [n] == [N.SPEC, N.CODE, n];
    assert FIELDS[1] == N.CODE;
    assert [N.SPEC, N.CODE, n][2] == n && CODE_SHA256[2] == N.SHA256;
  }

  lemma CodeFieldExact(a: Option<Code>, b: Option<Code>, n: N.Name)
    ensures DifferentAt(Differences(CODE, CodeTree(a), CodeTree(b)), [N.SPEC, N.CODE, n])
            <==> a.Some? && b.Some? && n in CODE_FIELDS && CodeField(a.value, n) != CodeField(b.value, n)
  {
    hide FieldDifferences, FieldsOf, CodeField;
    assert CODE + [n] == [N.SPEC, N.CODE, n];
    if a.Some? && b.Some? {
      ListedFieldExact(CODE, CODE_FIELDS, CodeAt(a.value), CodeAt(b.value), n);
    } else if a.Some? != b.Some? {
      HiddenBelowNil(CODE, CodeTree(a), CodeTree(b), [n]);
    }
  }

  const EXCEPTED: seq<Path> := [
    [N.SPEC, N.CODE], [N.SPEC, N.TAGS], [N.SPEC, N.RESERVED_CONCURRENT_EXECUTIONS],
    [N.SPEC, N.FUNCTION_EVENT_INVOKE_CONFIG], [N.SPEC, N.CODE_SIGNING_CONFIG_ARN], [N.SPEC, N.TENANCY_CONFIG]]

  const EXCEPTED_NAMES: seq<N.Name> := [
    N.CODE, N.TAGS, N.RESERVED_CONCURRENT_EXECUTIONS, N.FUNCTION_EVENT_INVOKE_CONFIG, N.CODE_SIGNING_CONFIG_ARN,
        N.TENANCY_CONFIG]

  /** What is left of the delta without the excepted fields: architectures, package type, configuration. */
  lemma RestExact(a: FunctionSpec, b: Resource)
    ensures DifferentExcept(FunctionDelta(a, b), EXCEPTED) <==>
            || Architectures(a) != Architectures(b.spec)
            || a.packageType != b.spec.packageType
            || ConfigDiffers(a, b.spec)
  {
    hide FieldDifferences, FieldsOf, Reported, FieldTree;
    PrependedExcept(Reported(a, b), [N.SPEC], FIELDS, At(a), At(b.spec), EXCEPTED_NAMES, EXCEPTED);
    ReportedIsExcepted(a, b);
    RestByName(a, b.spec);
  }

  ghost predicate ConfigDiffers(a: FunctionSpec, b: FunctionSpec) {
    exists n :: IsConfigField(n) && Entry(a.config, n) != Entry(b.config, n)
  }

  lemma ReportedIsExcepted(a: FunctionSpec, b: Resource)
    ensures !DifferentExcept(Reported(a, b), EXCEPTED)
  {
    assert EXCEPTED[0] == CODE && CODE in EXCEPTED && CODE <= CODE_SHA256;
    assert !Outside(CODE, EXCEPTED) && !Outside(CODE_SHA256, EXCEPTED);
  }

  lemma RestByName(a: FunctionSpec, b: FunctionSpec)
    ensures (exists n :: n in FIELDS && n !in EXCEPTED_NAMES && At(a)(n) != At(b)(n)) <==>
            || Architectures(a) != Architectures(b)
            || a.packageType != b.packageType
            || ConfigDiffers(a, b)
  {
    hide Entry;
    assert FIELDS[0] == N.ARCHITECTURES && FIELDS[19] == N.PACKAGE_TYPE;
    if ConfigDiffers(a, b) {
      var n :| IsConfigField(n) && Entry(a.config, n) != Entry(b.config, n);
      ConfigFieldByName(a, b, n);
    }
    if Architectures(a) != Architectures(b) { assert At(a)(N.ARCHITECTURES) != At(b)(N.ARCHITECTURES); }
    if a.packageType != b.packageType { assert At(a)(N.PACKAGE_TYPE) != At(b)(N.PACKAGE_TYPE); }
    if n :| n in FIELDS && n !in EXCEPTED_NAMES && At(a)(n) != At(b)(n) {
      NotExcepted(n);
      if IsConfigField(n) { ConfigFieldByName(a, b, n); }
    }
  }

  lemma NotExcepted(n: N.Name)
    requires n in FIELDS && n !in EXCEPTED_NAMES
    ensures n == N.ARCHITECTURES || n == N.PACKAGE_TYPE || IsConfigField(n)
  {
  }

  lemma ConfigFieldByName(a: FunctionSpec, b: FunctionSpec, n: N.Name)
    requires IsConfigField(n)
    ensures n in FIELDS && n !in EXCEPTED_NAMES
    ensures FieldTree(a, n) == Entry(a.config, n) && FieldTree(b, n) == Entry(b.config, n)
    ensures At(a)(n) == FieldTree(a, n) && At(b)(n) == FieldTree(b, n)
  {
  }

  /** The fields the delta is asked about by name. */
  lemma NamedFieldsExact(a: FunctionSpec, b: Resource)
    ensures DifferentAt(FunctionDelta(a, b), [N.SPEC, N.TAGS]) <==> a.tags != b.spec.tags
    ensures DifferentAt(FunctionDelta(a, b), [N.SPEC, N.RESERVED_CONCURRENT_EXECUTIONS]) <==>
            a.concurrency != b.spec.concurrency
    ensures DifferentAt(FunctionDelta(a, b), [N.SPEC, N.FUNCTION_EVENT_INVOKE_CONFIG]) <==> a.invoke != b.spec.invoke
    ensures DifferentAt(FunctionDelta(a, b), [N.SPEC, N.CODE_SIGNING_CONFIG_ARN]) <==> a.signing != b.spec.signing
    ensures DifferentAt(FunctionDelta(a, b), [N.SPEC, N.TENANCY_CONFIG]) <==> a.tenancy != b.spec.tenancy
    ensures DifferentAt(FunctionDelta(a, b), ARCHITECTURES) <==> Architectures(a) != Architectures(b.spec)
  {
    hide FunctionDelta, DifferentAt, FieldTree;
    NamedFieldsListed();
    FieldExact(a, b, N.TAGS);
    FieldExact(a, b, N.RESERVED_CONCURRENT_EXECUTIONS);
    FieldExact(a, b, N.FUNCTION_EVENT_INVOKE_CONFIG);
    FieldExact(a, b, N.CODE_SIGNING_CONFIG_ARN);
    FieldExact(a, b, N.TENANCY_CONFIG);
    FieldExact(a, b, N.ARCHITECTURES);
    SingleFieldsByName(a, b.spec);
  }

  lemma NamedFieldsListed()
    ensures N.TAGS in FIELDS && N.RESERVED_CONCURRENT_EXECUTIONS in FIELDS && N.FUNCTION_EVENT_INVOKE_CONFIG in FIELDS
    ensures N.CODE_SIGNING_CONFIG_ARN in FIELDS && N.TENANCY_CONFIG in FIELDS && N.ARCHITECTURES in FIELDS
    ensures N.CODE in FIELDS && N.PACKAGE_TYPE in FIELDS
  {
    assert FIELDS[26] == N.TAGS && FIELDS[21] == N.RESERVED_CONCURRENT_EXECUTIONS
           && FIELDS[10] == N.FUNCTION_EVENT_INVOKE_CONFIG;
    assert FIELDS[2] == N.CODE_SIGNING_CONFIG_ARN && FIELDS[27] == N.TENANCY_CONFIG && FIELDS[0] == N.ARCHITECTURES;
    assert FIELDS[1] == N.CODE && FIELDS[19] == N.PACKAGE_TYPE;
  }

  /** A configuration field is reported exactly when it differs. */
  lemma ConfigFieldExact(a: FunctionSpec, b: Resource, n: N.Name)
    requires IsConfigField(n)
    ensures DifferentAt(FunctionDelta(a, b), [N.SPEC, n]) <==> Entry(a.config, n) != Entry(b.spec.config, n)
  {
    hide FunctionDelta, DifferentAt, FieldTree, Entry;
    FieldExact(a, b, n);
    ConfigFieldByName(a, b.spec, n);
  }

  /** Code is equal as far as it is compared: everything but the hash. */
  ghost predicate SameSource(a: Option<Code>, b: Option<Code>) {
    a.Some? == b.Some? && (a.Some? ==> a.value.(sha256 := None) == b.value.(sha256 := None))
  }

  /** An empty delta, field by field. */
  lemma FunctionDeltaEmpty(a: FunctionSpec, b: Resource)
    ensures FunctionDelta(a, b) == [] <==>
            && SameSource(a.code, b.spec.code) && !HashDiffers(a, b)
            && Architectures(a) == Architectures(b.spec)
            && a.signing == b.spec.signing && a.invoke == b.spec.invoke && a.packageType == b.spec.packageType
            && a.concurrency == b.spec.concurrency && a.tags == b.spec.tags && a.tenancy == b.spec.tenancy
            && !ConfigDiffers(a, b.spec)
  {
    hide FieldDifferences, FieldsOf, FieldTree, HashDiffers;
    PrependedEmpty(Reported(a, b), [N.SPEC], FIELDS, At(a), At(b.spec));
    AllFieldsByName(a, b.spec);
  }

  lemma AllFieldsByName(a: FunctionSpec, b: FunctionSpec)
    ensures (forall n :: n in FIELDS ==> At(a)(n) == At(b)(n)) <==>
            && SameSource(a.code, b.code)
            && Architectures(a) == Architectures(b)
            && a.signing == b.signing && a.invoke == b.invoke && a.packageType == b.packageType
            && a.concurrency == b.concurrency && a.tags == b.tags && a.tenancy == b.tenancy
            && !ConfigDiffers(a, b)
  {
    hide At, IsConfigField, ConfigDiffers, SameSource, FIELDS;
    NamedFieldsListed();
    SingleFieldsByName(a, b);
    ConfigFieldsByName(a, b);
    FieldKinds();
  }

  lemma FieldKinds()
    ensures forall n :: n in FIELDS <==>
              || n == N.CODE || n == N.ARCHITECTURES || n == N.CODE_SIGNING_CONFIG_ARN
              || n == N.FUNCTION_EVENT_INVOKE_CONFIG
              || n == N.PACKAGE_TYPE || n == N.RESERVED_CONCURRENT_EXECUTIONS || n == N.TAGS || n == N.TENANCY_CONFIG
              || IsConfigField(n)
  {
  }

  lemma ConfigFieldsByName(a: FunctionSpec, b: FunctionSpec)
    ensures (forall n :: IsConfigField(n) ==> At(a)(n) == At(b)(n)) <==> !ConfigDiffers(a, b)
  {
  }

  lemma SingleFieldsByName(a: FunctionSpec, b: FunctionSpec)
    ensures At(a)(N.CODE) == At(b)(N.CODE) <==> SameSource(a.code, b.code)
    ensures At(a)(N.ARCHITECTURES) == At(b)(N.ARCHITECTURES) <==> Architectures(a) == Architectures(b)
    ensures At(a)(N.CODE_SIGNING_CONFIG_ARN) == At(b)(N.CODE_SIGNING_CONFIG_ARN) <==> a.signing == b.signing
    ensures At(a)(N.FUNCTION_EVENT_INVOKE_CONFIG) == At(b)(N.FUNCTION_EVENT_INVOKE_CONFIG) <==> a.invoke == b.invoke
    ensures At(a)(N.PACKAGE_TYPE) == At(b)(N.PACKAGE_TYPE) <==> a.packageType == b.packageType
    ensures At(a)(N.RESERVED_CONCURRENT_EXECUTIONS) == At(b)(N.RESERVED_CONCURRENT_EXECUTIONS) <==>
            a.concurrency == b.concurrency
    ensures At(a)(N.TAGS) == At(b)(N.TAGS) <==> a.tags == b.tags
    ensures At(a)(N.TENANCY_CONFIG) == At(b)(N.TENANCY_CONFIG) <==> a.tenancy == b.tenancy
  {
    hide ConfigTree, CodeTree, SameSource;
    ConfigTreeInjective(a.invoke, b.invoke);
    CodeTreeInjective(a.code, b.code);
  }

  lemma CodeTreeInjective(a: Option<Code>, b: Option<Code>)
    ensures CodeTree(a) == CodeTree(b) <==> SameSource(a, b)
  {
    if a.Some? && b.Some? {
      ListedFieldsEqual(CODE_FIELDS, CodeAt(a.value), CodeAt(b.value));
      CodeFieldsByName(a.value, b.value);
    }
  }

  lemma CodeFieldsByName(a: Code, b: Code)
    ensures (forall n :: n in CODE_FIELDS ==> CodeAt(a)(n) == CodeAt(b)(n)) <==>
            a.(sha256 := None) == b.(sha256 := None)
  {
    assert CODE_FIELDS[0] == N.IMAGE_URI && CODE_FIELDS[1] == N.S3_BUCKET && CODE_FIELDS[2] == N.S3_KEY;
    assert CODE_FIELDS[3] == N.S3_OBJECT_VERSION && CODE_FIELDS[4] == N.ZIP_FILE;
    if forall n :: n in CODE_FIELDS ==> CodeAt(a)(n) == CodeAt(b)(n) {
      assert CodeAt(a)(N.IMAGE_URI) == CodeAt(b)(N.IMAGE_URI);
      assert CodeAt(a)(N.S3_BUCKET) == CodeAt(b)(N.S3_BUCKET);
      assert CodeAt(a)(N.S3_KEY) == CodeAt(b)(N.S3_KEY);
      assert CodeAt(a)(N.S3_OBJECT_VERSION) == CodeAt(b)(N.S3_OBJECT_VERSION);
      assert CodeAt(a)(N.ZIP_FILE) == CodeAt(b)(N.ZIP_FILE);
    }
  }
}
