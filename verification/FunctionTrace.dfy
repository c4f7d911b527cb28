/** What one pass of a function's update may do, whatever the delta. */
module FunctionTrace {
  import opened Common
  import opened Deltas
  import opened Int32
  import opened FunctionSpecs
  import opened FunctionService
  import opened FunctionUpdate
  import TagService
  import TagSync
  import EventInvoke
  import N = FieldNames

  /** The place of a call in the order of a pass. */
  function Stage(c: Call): nat {
    match c
    case ChangeTags(Untag(_)) => 0
    case ChangeTags(Tag(_)) => 1
    case PutConcurrency(_) => 2
    case DeleteConcurrency => 2
    case PutInvoke(_) => 3
    case DeleteInvoke => 3
    case PutSigning(_) => 4
    case DeleteSigning => 4
    case UpdateCode(_) => 5
    case UpdateConfiguration(_) => 5
  }

  /** The call is one the delta asks for, and nothing ends the pass before it. */
  ghost predicate Due(d: FunctionSpec, latest: Resource, ds: seq<Path>, c: Call) {
    && latest.state != Some("Pending")
    && match c
       case ChangeTags(Untag(keys)) =>
         DifferentAt(ds, [N.SPEC, N.TAGS])
         && keys != {} && keys == TagSync.Outdated(latest.spec.tags, d.tags)
       case ChangeTags(Tag(entries)) =>
         DifferentAt(ds, [N.SPEC, N.TAGS])
         && entries != map[] && entries == TagSync.Wanted(latest.spec.tags, d.tags)
       case PutConcurrency(n) =>
         DifferentAt(ds, [N.SPEC, N.RESERVED_CONCURRENT_EXECUTIONS]) && d.concurrency.Some?
             && n == Narrow(d.concurrency.value)
       case DeleteConcurrency => DifferentAt(ds, [N.SPEC, N.RESERVED_CONCURRENT_EXECUTIONS]) && d.concurrency.None?
       case PutInvoke(w) =>
         DifferentAt(ds, [N.SPEC, N.FUNCTION_EVENT_INVOKE_CONFIG]) && d.invoke.Some?
             && w == EventInvoke.PutPayload(d.invoke.value)
       case DeleteInvoke => DifferentAt(ds, [N.SPEC, N.FUNCTION_EVENT_INVOKE_CONFIG]) && d.invoke.None?
       case PutSigning(arn) =>
         DifferentAt(ds, [N.SPEC, N.CODE_SIGNING_CONFIG_ARN]) && arn != "" && d.signing == Some(arn)
             && d.packageType != Some("Image")
       case DeleteSigning => DifferentAt(ds, [N.SPEC, N.CODE_SIGNING_CONFIG_ARN]) && !NonEmpty(d.signing)
       case UpdateCode(r) =>
         && !(DifferentAt(ds, [N.SPEC, N.CODE_SIGNING_CONFIG_ARN]) && d.packageType == Some("Image")
              && d.signing.Some? && d.signing.value != "")
         && !DifferentAt(ds, [N.SPEC, N.TENANCY_CONFIG])
         && (DifferentAt(ds, [N.SPEC, N.CODE, N.IMAGE_URI]) || DifferentAt(ds, [N.SPEC, N.CODE, N.SHA256])
             || DifferentAt(ds, [N.SPEC, N.ARCHITECTURES]))
         && !CodePanics(d, latest, ds) && r == CodeUpdate(d, latest, ds)
       case UpdateConfiguration(fields) =>
         && !(DifferentAt(ds, [N.SPEC, N.CODE_SIGNING_CONFIG_ARN]) && d.packageType == Some("Image")
              && d.signing.Some? && d.signing.value != "")
         && !DifferentAt(ds, [N.SPEC, N.TENANCY_CONFIG])
         && !DifferentAt(ds, [N.SPEC, N.CODE, N.IMAGE_URI]) && !DifferentAt(ds, [N.SPEC, N.CODE, N.SHA256])
         && !DifferentAt(ds, [N.SPEC, N.ARCHITECTURES])
         && DifferentExcept(ds, [
              [N.SPEC, N.CODE], [N.SPEC, N.TAGS], [N.SPEC, N.RESERVED_CONCURRENT_EXECUTIONS],
              [N.SPEC, N.FUNCTION_EVENT_INVOKE_CONFIG], [N.SPEC, N.CODE_SIGNING_CONFIG_ARN],
              [N.SPEC, N.TENANCY_CONFIG]])
         && !DurationOutOfRange(d, ds) && !FieldsPanic(d, ds) && fields == ConfigRequest(d, ds)
  }

  ghost predicate Increasing(calls: seq<Call>, low: nat, high: nat) {
    && (forall i :: 0 <= i < |calls| ==> low <= Stage(calls[i]) < high)
    && (forall i, j :: 0 <= i < j < |calls| ==> Stage(calls[i]) < Stage(calls[j]))
  }

  lemma IncreasingConcat(a: seq<Call>, b: seq<Call>, low: nat, middle: nat, high: nat)
    requires Increasing(a, low, middle) && Increasing(b, middle, high) && low <= middle <= high
    ensures Increasing(a + b, low, high)
  {
  }

  /**
    For every delta: a pass makes each call that is due and no other, in the order tags, concurrency,
    event-invoke, code signing, then code or configuration. So it makes no call at all while the
    function is pending, none twice, never both of the last two, and neither after a terminal error.
   */
  lemma TraceSafety(d: FunctionSpec, latest: Resource, ds: seq<Path>)
    ensures Increasing(Plan(d, latest, ds), 0, 6)
    ensures forall c :: c in Plan(d, latest, ds) <==> Due(d, latest, ds, c)
  {
    hide Increasing, Due, TagCalls, SettingCalls, SigningCalls, LastCall, IsPending;
    var tags, settings, signing, last := TagCalls(d, latest, ds), SettingCalls(d, ds), SigningCalls(d, ds),
        LastCall(d, latest, ds);
    TagStages(d, latest, ds);
    SettingStages(d, latest, ds);
    SigningStage(d, latest, ds);
    LastStage(d, latest, ds);
    IncreasingConcat(tags, settings, 0, 2, 4);
    IncreasingConcat(tags + settings, signing, 0, 4, 5);
    IncreasingConcat(tags + settings + signing, last, 0, 5, 6);
    NotWhilePending(d, latest, ds);
    InAnyStage(tags, settings, signing, last);
  }

  lemma InAnyStage(a: seq<Call>, b: seq<Call>, c: seq<Call>, e: seq<Call>)
    ensures forall x :: x in a + b + c + e <==> x in a || x in b || x in c || x in e
  {
  }

  lemma NotWhilePending(d: FunctionSpec, latest: Resource, ds: seq<Path>)
    ensures IsPending(latest) ==> Increasing([], 0, 6) && forall c :: !Due(d, latest, ds, c)
    ensures forall c :: Stage(c) < 2 || 2 <= Stage(c) < 4 || Stage(c) == 4 || Stage(c) == 5
  {
  }

  lemma TagStages(d: FunctionSpec, latest: Resource, ds: seq<Path>)
    ensures Increasing(TagCalls(d, latest, ds), 0, 2)
    ensures !IsPending(latest) ==> forall c :: c in TagCalls(d, latest, ds) <==> Due(d, latest, ds, c) && Stage(c) < 2
  {
    hide DifferentAt, DifferentExcept, CodePanics;
    hide DurationOutOfRange, FieldsPanic, CodeUpdate, ConfigRequest;
    hide TagSync.Outdated, TagSync.Wanted;
    var gone := TagSync.Outdated(latest.spec.tags, d.tags);
    var due := TagSync.Wanted(latest.spec.tags, d.tags);
    WrappedCalls(gone, due);
  }

  lemma WrappedCalls(gone: set<string>, due: TagService.Tags)
    ensures Increasing(Wrap(TagSync.Calls(gone, due)), 0, 2)
    ensures forall c :: c in Wrap(TagSync.Calls(gone, due)) <==>
              (gone != {} && c == ChangeTags(TagService.Untag(gone)))
                  || (due != map[] && c == ChangeTags(TagService.Tag(due)))
  {
    var calls := TagSync.Calls(gone, due);
    if gone != {} { assert Wrap(calls)[0] == ChangeTags(TagService.Untag(gone)); }
    if due != map[] { assert Wrap(calls)[|calls| - 1] == ChangeTags(TagService.Tag(due)); }
  }

  lemma SettingStages(d: FunctionSpec, latest: Resource, ds: seq<Path>)
    ensures Increasing(SettingCalls(d, ds), 2, 4)
    ensures !IsPending(latest) ==> forall c :: c in SettingCalls(d, ds) <==> Due(d, latest, ds, c) && 2 <= Stage(c) < 4
  {
  }

  lemma SigningStage(d: FunctionSpec, latest: Resource, ds: seq<Path>)
    ensures Increasing(SigningCalls(d, ds), 4, 5)
    ensures !IsPending(latest) ==> forall c :: c in SigningCalls(d, ds) <==> Due(d, latest, ds, c) && Stage(c) == 4
  {
  }

  lemma LastStage(d: FunctionSpec, latest: Resource, ds: seq<Path>)
    ensures Increasing(LastCall(d, latest, ds), 5, 6)
    ensures !IsPending(latest) ==> forall c :: c in LastCall(d, latest, ds) <==> Due(d, latest, ds, c) && Stage(c) == 5
  {
    hide DifferentAt, DifferentExcept, CodePanics;
    hide DurationOutOfRange, FieldsPanic, CodeUpdate, ConfigRequest;
    hide Narrow, EventInvoke.PutPayload, TagSync.Outdated, TagSync.Wanted;
  }
}
