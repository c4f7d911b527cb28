/** A Lambda function as the service keeps it, and the calls that change it. */
module FunctionService {
  import opened Common
  import opened Deltas
  import opened FunctionSpecs
  import EventInvoke
  import TagService
  import N = FieldNames

  /** What a function's code can be deployed from. */
  datatype Package =
    | ImagePackage(uri: string)
    | ZipPackage(bucket: Option<string>, key: Option<string>, version: Option<string>, zipFile: string)

  /** The fields of an UpdateFunctionCode request; a nil field leaves what it names alone. */
  datatype CodeRequest = CodeRequest(
    architectures: Option<seq<string>>,
    imageURI: Option<string>,
    s3Bucket: Option<string>,
    s3Key: Option<string>,
    s3ObjectVersion: Option<string>,
    zipFile: string)

  function Requested(r: CodeRequest): Option<Package> {
    if r.imageURI.Some? then Some(ImagePackage(r.imageURI.value))
    else if r.s3Bucket.Some? || r.s3Key.Some? || r.zipFile != "" then
      Some(ZipPackage(r.s3Bucket, r.s3Key, r.s3ObjectVersion, r.zipFile))
    else None
  }

  /**
    `hashes` are the packages that can be deployed, each with its hash; `dropsCleared` the fields
    that the service shows as absent once they are cleared, rather than as empty.
   */
  datatype State = State(
    tags: TagService.Tags,
    concurrency: Option<int>,
    invoke: Option<EventInvoke.Wire>,
    signing: Option<string>,
    tenancy: Option<Tenancy>,
    packageType: string,
    imageURI: Option<string>,
    codeSHA256: string,
    architectures: seq<string>,
    config: map<N.Name, Tree>,
    hashes: map<Package, string>,
    dropsCleared: set<N.Name>)

  datatype Call =
    | ChangeTags(change: TagService.Call)
    | PutConcurrency(executions: int)
    | DeleteConcurrency
    | PutInvoke(invoke: EventInvoke.Wire)
    | DeleteInvoke
    | PutSigning(arn: string)
    | DeleteSigning
    | UpdateCode(code: CodeRequest)
    | UpdateConfiguration(fields: map<N.Name, Tree>)

  /** A known package of the kind the function was created with. */
  predicate Deployable(s: State, r: CodeRequest) {
    && Requested(r).Some? && Requested(r).value in s.hashes
    && s.packageType == if Requested(r).value.ImagePackage? then IMAGE else ZIP
  }

  /** What a request sends to clear a field: an empty string, zero, or a structure with nothing in it. */
  function Clearing(n: N.Name): Tree {
    if n == N.DEAD_LETTER_CONFIG then Node(Field(N.TARGET_ARN, Absent, NoFields))
    else if n == N.ENVIRONMENT then Node(Field(N.VARIABLES, Leaf(Texts(map[])), NoFields))
    else if n == N.EPHEMERAL_STORAGE then Node(Field(N.SIZE, Absent, NoFields))
    else if n == N.SNAP_START then Node(Field(N.APPLY_ON, Absent, NoFields))
    else if n == N.TRACING_CONFIG then Node(Field(N.MODE, Absent, NoFields))
    else if n == N.VPC_CONFIG then
      Node(Field(N.SECURITY_GROUP_IDS, Leaf(List([])), Field(N.SUBNET_IDS, Leaf(List([])), NoFields)))
    else if n == N.MEMORY_SIZE || n == N.TIMEOUT then Leaf(Number(0))
    else Leaf(Text(""))
  }

  /** A field as the service holds it once sent. */
  function Held(drops: set<N.Name>, n: N.Name, sent: Tree): Tree {
    if n in drops && sent == Clearing(n) then Absent else sent
  }

  function Apply(s: State, c: Call): State {
    match c
    case ChangeTags(change) => s.(tags := TagService.Apply(s.tags, change))
    case PutConcurrency(n) => s.(concurrency := Some(n))
    case DeleteConcurrency => s.(concurrency := None)
    case PutInvoke(w) => s.(invoke := Some(w))
    case DeleteInvoke => s.(invoke := None)
    case PutSigning(arn) => s.(signing := Some(arn))
    case DeleteSigning => s.(signing := None)
    case UpdateCode(r) => if Deployable(s, r) then Deployed(s, r) else s
    case UpdateConfiguration(fields) => s.(config := Configured(s.config, s.dropsCleared, fields))
  }

  function Deployed(s: State, r: CodeRequest): State
    requires Deployable(s, r)
  {
    s.(codeSHA256 := s.hashes[Requested(r).value],
       imageURI := if r.imageURI.Some? then r.imageURI else s.imageURI,
       architectures := if r.architectures.Some? && r.architectures.value != [] then r.architectures.value
           else s.architectures)
  }

  function Configured(config: map<N.Name, Tree>, drops: set<N.Name>, fields: map<N.Name, Tree>): map<N.Name, Tree> {
    map n | n in config.Keys + fields.Keys :: if n in fields then Held(drops, n, fields[n]) else config[n]
  }

  function ApplyAll(s: State, calls: seq<Call>): State {
    if calls == [] then s else Apply(ApplyAll(s, calls[..|calls| - 1]), calls[|calls| - 1])
  }

  lemma {:induction false} ApplyAllConcat(s: State, a: seq<Call>, b: seq<Call>)
    ensures ApplyAll(s, a + b) == ApplyAll(ApplyAll(s, a), b)
  {
    hide Apply;
    if b == [] {
      assert a + b == a;
    } else {
      var n := |b| - 1;
      assert (a + b)[..|a| + n] == a + b[..n];
      ApplyAllConcat(s, a, b[..n]);
    }
  }

  lemma OneCall(s: State, c: Call)
    ensures ApplyAll(s, [c]) == Apply(s, c) && ApplyAll(s, []) == s
  {
  }

  function Wrap(changes: seq<TagService.Call>): seq<Call> {
    seq(|changes|, i requires 0 <= i < |changes| => ChangeTags(changes[i]))
  }

  /** Tag calls change the tags alone. */
  lemma {:induction false} TagCallsOnly(s: State, changes: seq<TagService.Call>)
    ensures ApplyAll(s, Wrap(changes)) == s.(tags := TagService.ApplyAll(s.tags, changes))
  {
    hide TagService.Apply;
    if changes != [] {
      var n := |changes| - 1;
      TagCallsOnly(s, changes[..n]);
      assert Wrap(changes)[..n] == Wrap(changes[..n]);
    }
  }

  /** How a call ends; deploying code fails in one way that the controller tells apart. */
  datatype Answer = Accepted | NoSourceImage | Failed

  class Server {
    const tagServer: TagService.Server
    var others: State
    ghost var log: seq<Call>

    constructor (tagServer: TagService.Server, state: State)
      ensures this.tagServer == tagServer && others == state && log == []
    {
      this.tagServer, others, log := tagServer, state, [];
    }

    /** The tags are kept by the tag service; everything else is here. */
    function Current(): State
      reads this, tagServer
    {
      others.(tags := tagServer.tags)
    }

    /** Any call may fail; one that fails changes nothing. */
    method Do(c: Call) returns (answer: Answer)
      requires !c.ChangeTags?
      modifies this
      ensures answer.Accepted? ==> Current() == Apply(old(Current()), c) && log == old(log) + [c]
      ensures !answer.Accepted? ==> Current() == old(Current()) && log == old(log)
      ensures answer.NoSourceImage? ==> c.UpdateCode?
      ensures c.UpdateCode? && !Deployable(old(Current()), c.code) ==> !answer.Accepted?
    {
      hide Configured, Requested;
      var faulty: bool := *;
      if faulty {
        var sourceImage: bool := *;
        return if c.UpdateCode? && sourceImage then NoSourceImage else Failed;
      }
      if c.UpdateCode? && !Deployable(others, c.code) {
        return Failed;
      }
      others := Apply(others, c);
      log := log + [c];
      return Accepted;
    }
  }
}
