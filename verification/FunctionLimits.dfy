/** Where the update of a function falls short: specs it never reaches, and losses it never notices. */
module FunctionLimits {
  import opened Common
  import opened Deltas
  import opened FunctionSpecs
  import opened FunctionService
  import opened FunctionUpdate
  import opened FunctionTrace
  import opened FunctionConvergence
  import TagService
  import TagSync
  import N = FieldNames

  // ----- what a run leaves alone

  predicate SignsCode(c: Call) {
    c.PutSigning? || c.DeleteSigning?
  }

  /** Each part of a function changes only by the calls meant for it. */
  lemma {:induction false} PartsKept(s: State, calls: seq<Call>)
    ensures (forall i :: 0 <= i < |calls| ==> !calls[i].ChangeTags?) ==> ApplyAll(s, calls).tags == s.tags
    ensures (forall i :: 0 <= i < |calls| ==> !calls[i].UpdateConfiguration?) ==> ApplyAll(s, calls).config == s.config
    ensures (forall i :: 0 <= i < |calls| ==> !SignsCode(calls[i])) ==> ApplyAll(s, calls).signing == s.signing
  {
    hide Apply, SignsCode;
    if calls != [] {
      var n := |calls| - 1;
      PartsKept(s, calls[..n]);
      OneCallKeeps(ApplyAll(s, calls[..n]), calls[n]);
    }
  }

  lemma OneCallKeeps(s: State, c: Call)
    ensures !c.ChangeTags? ==> Apply(s, c).tags == s.tags
    ensures !c.UpdateConfiguration? ==> Apply(s, c).config == s.config
    ensures !SignsCode(c) ==> Apply(s, c).signing == s.signing
  {
  }

  // ----- tags that are all gone

  lemma PassLeavesNoTags(d: FunctionSpec, s: State, t: State, clean: bool)
    requires Pass(d, s, t, clean) && s.tags == map[]
    ensures t.tags == map[]
  {
    hide FunctionDelta, IsFunctionRead, Plan, ApplyAll, Increasing, IsPending, DifferentAt;
    var r, k :|
      && IsFunctionRead(r, d, s)
      && 0 <= k <= |Plan(d, r, FunctionDelta(d, r))|
      && t == ApplyAll(s, Plan(d, r, FunctionDelta(d, r))[..k])
      && (clean <==> !IsPending(r) && k == |Plan(d, r, FunctionDelta(d, r))|);
    NoTagCall(d, r, s);
    PartsKept(s, Plan(d, r, FunctionDelta(d, r))[..k]);
  }

  lemma NoTagCall(d: FunctionSpec, r: Resource, s: State)
    requires IsFunctionRead(r, d, s) && s.tags == map[]
    ensures forall c :: c in Plan(d, r, FunctionDelta(d, r)) ==> !c.ChangeTags?
  {
    hide FunctionDelta, IsFunctionRead, Plan, DifferentAt, DifferentExcept, Increasing;
    hide CodeOutstanding, ConfigOutstanding, ReadInvoke, ReadSigning, TagSync.Outdated, TagSync.Wanted;
    ReadDelta(d, r, s);
    TraceSafety(d, r, FunctionDelta(d, r));
  }

  /** Once the service has no tags for the function, no run of updates ever adds one, whatever is desired. */
  lemma {:induction false} LostTagsStayLost(d: FunctionSpec, states: seq<State>, clean: seq<bool>)
    requires Run(d, states, clean) && states[0].tags == map[]
    ensures states[|clean|].tags == map[]
  {
    hide Pass;
    if clean != [] {
      var n := |clean| - 1;
      assert Run(d, states[..n + 1], clean[..n]);
      LostTagsStayLost(d, states[..n + 1], clean[..n]);
      assert Pass(d, states[n], states[n + 1], clean[n]);
      PassLeavesNoTags(d, states[n], states[n + 1], clean[n]);
    }
  }

  /**
    A pass cut off between untagging and tagging is repaired by the next pass exactly when the
    untagging left some tag behind: only then are the tags still to be added missed, and its tag calls
    then make the tags the desired ones.
   */
  lemma CutOffTaggingRepaired(d: FunctionSpec, r: Resource, s: State, next: Resource)
    requires IsFunctionRead(r, d, s) && !IsPending(r) && |TagCalls(d, r, FunctionDelta(d, r))| == 2
    requires IsFunctionRead(next, d, ApplyAll(s, Plan(d, r, FunctionDelta(d, r))[..1]))
    ensures var t := ApplyAll(s, Plan(d, r, FunctionDelta(d, r))[..1]);
            && t.tags == s.tags - TagSync.Outdated(s.tags, d.tags)
            && t.tags != d.tags
            && (DifferentAt(FunctionDelta(d, next), [N.SPEC, N.TAGS]) <==> t.tags != map[])
            && (ApplyAll(t, TagCalls(d, next, FunctionDelta(d, next))).tags == d.tags <==> t.tags != map[])
  {
    hide FunctionDelta, IsFunctionRead, DifferentAt, DifferentExcept, ApplyAll, SettingCalls, SigningCalls, LastCall;
    hide CodeOutstanding, ConfigOutstanding, ReadInvoke, ReadSigning, TagSync.Outdated, TagSync.Wanted;
    var ds := FunctionDelta(d, r);
    ReadDelta(d, r, s);
    ReadShowsTags(d, r, s);
    var gone, due := TagSync.Outdated(s.tags, d.tags), TagSync.Wanted(s.tags, d.tags);
    assert Plan(d, r, ds)[..1] == [ChangeTags(TagService.Untag(gone))];
    OneCall(s, ChangeTags(TagService.Untag(gone)));
    StillWanted(s.tags, d.tags);
    ReadDelta(d, next, ApplyAll(s, Plan(d, r, ds)[..1]));
    TagsEffect(d, next, ApplyAll(s, Plan(d, r, ds)[..1]));
  }

  /** One such loss: the only tag changes its value, and the pass is cut off once the old value is removed. */
  lemma OnlyTagLost() returns (d: FunctionSpec, s: State, r: Resource)
    ensures ValidState(s) && Typed(d) && IsFunctionRead(r, d, s) && !IsPending(r)
    ensures |TagCalls(d, r, FunctionDelta(d, r))| == 2
    ensures ApplyAll(s, Plan(d, r, FunctionDelta(d, r))[..1]).tags == map[] && d.tags == map["a" := "1"]
  {
    hide FunctionDelta, IsFunctionRead, Typed, DifferentAt, DifferentExcept, ApplyAll, SettingCalls, SigningCalls;
    hide LastCall;
    hide CodeOutstanding, ConfigOutstanding, ReadInvoke, ReadSigning, TagSync.Outdated, TagSync.Wanted;
    d, s := Sample(["x86_64"], Some(ZIP), map["a" := "1"], map[], map["a" := "2"]);
    r := SomeRead(d, s);
    ReadDelta(d, r, s);
    ReadShowsTags(d, r, s);
    OneTagChanges();
    OneCall(s, ChangeTags(TagService.Untag({"a"})));
    assert Plan(d, r, FunctionDelta(d, r))[..1] == [ChangeTags(TagService.Untag({"a"}))];
  }

  lemma OneTagChanges()
    ensures TagSync.Outdated(map["a" := "2"], map["a" := "1"]) == {"a"}
    ensures TagSync.Wanted(map["a" := "2"], map["a" := "1"]) == map["a" := "1"]
    ensures map["a" := "2"] - {"a"} == map[]
  {
  }

  /**
    A zip function on x86_64 that was deployed from the location of the spec, with this and nothing else to be
    compared.
   */
  lemma Sample(architectures: seq<string>, packageType: Option<string>, tags: TagService.Tags,
               config: map<N.Name, Tree>,
               held: TagService.Tags) returns (d: FunctionSpec, s: State)
    requires forall n :: n in config ==> HasType(n, config[n])
    ensures ValidState(s) && Typed(d) && Readable(d, s)
    ensures var code := Code(None, Some("b"), Some("k"), None, None, "");
            d == FunctionSpec(Some(architectures), Some(code), None, None, packageType, None, tags, None, config)
    ensures s == State(held, None, None, None, None, ZIP, None, "h", ["x86_64"], map[], map[], {})
  {
    hide FIELDS;
    var code := Code(None, Some("b"), Some("k"), None, None, "");
    d := FunctionSpec(Some(architectures), Some(code), None, None, packageType, None, tags, None, config);
    s := State(held, None, None, None, None, ZIP, None, "h", ["x86_64"], map[], map[], {});
  }

  lemma ReadShowsTags(d: FunctionSpec, r: Resource, s: State)
    requires IsFunctionRead(r, d, s)
    ensures s.tags != map[] ==> r.spec.tags == s.tags
  {
  }

  lemma StillWanted(s: TagService.Tags, desired: TagService.Tags)
    ensures TagSync.Wanted(s, desired) != map[] ==> s - TagSync.Outdated(s, desired) != desired
  {
  }

  // ----- code that never settles

  lemma NotReadyIsOutstanding(d: FunctionSpec, s: State)
    requires ValidState(s) && d.code.Some?
    ensures !CodeReady(d, s) ==> CodeOutstanding(d, s)
  {
  }

  lemma CoreDecidesCode(d: FunctionSpec, s: State, t: State)
    requires SameCore(s, t)
    ensures CodeReady(d, t) <==> CodeReady(d, s)
    ensures t.config == s.config && t.packageType == s.packageType
  {
  }

  lemma PassBlocked(d: FunctionSpec, s: State, t: State, clean: bool)
    requires Pass(d, s, t, clean) && ValidState(s)
    requires d.code.Some? && d.packageType == Some(s.packageType) && !CodeReady(d, s)
    ensures ValidState(t) && t.packageType == s.packageType && !CodeReady(d, t) && t.config == s.config
  {
    hide FunctionDelta, IsFunctionRead, Plan, ApplyAll, Settings, CodeReady, ValidState, IsPending;
    var r, k :|
      && IsFunctionRead(r, d, s)
      && 0 <= k <= |Plan(d, r, FunctionDelta(d, r))|
      && t == ApplyAll(s, Plan(d, r, FunctionDelta(d, r))[..k])
      && (clean <==> !IsPending(r) && k == |Plan(d, r, FunctionDelta(d, r))|);
    var ds := FunctionDelta(d, r);
    if IsPending(r) {
      PendingPlan(d, r, s, k);
    } else {
      CutPlan(d, r, s, k);
      SettingsAreSettings(d, r, ds);
      SettingsKeepCore(d, s, Settings(d, r, ds));
      CoreDecidesCode(d, s, ApplyAll(s, Settings(d, r, ds)));
      if k < |Plan(d, r, ds)| {
        SettingsKeepCore(d, s, Settings(d, r, ds)[..k]);
        CoreDecidesCode(d, s, t);
      } else {
        BlockedLast(d, r, s, ApplyAll(s, Settings(d, r, ds)));
      }
    }
  }

  lemma BlockedLast(d: FunctionSpec, r: Resource, s: State, u: State)
    requires IsFunctionRead(r, d, s) && ValidState(s) && SameCore(s, u) && ValidState(u)
    requires d.code.Some? && d.packageType == Some(s.packageType) && !CodeReady(d, s)
    ensures var t := ApplyAll(u, LastCall(d, r, FunctionDelta(d, r)));
            ValidState(t) && t.packageType == s.packageType && !CodeReady(d, t) && t.config == s.config
  {
    hide FunctionDelta, IsFunctionRead, ApplyAll, Apply, CodeReady, ValidState, CodeUpdate, ConfigRequest, DifferentAt;
    hide DifferentExcept;
    hide CodeOutstanding, ConfigOutstanding, CodeDiffers, SigningForbidden;
    var c := UpdateCode(CodeUpdate(d, r, FunctionDelta(d, r)));
    ReadDelta(d, r, s);
    NotReadyIsOutstanding(d, s);
    CodeStep(d, r, s);
    OneCall(u, c);
    LastIgnoresSettings(s, u, c);
    CoreDecidesCode(d, Apply(s, c), Apply(u, c));
    CoreDecidesCode(d, s, u);
    UpdateKeepsKind(u, c);
  }

  /**
    Code goes first: a spec whose code cannot settle, such as one that lists no architecture, never has
    its configuration updated, in any run.
   */
  lemma {:induction false} CodeBlocksConfiguration(d: FunctionSpec, states: seq<State>, clean: seq<bool>)
    requires Run(d, states, clean) && ValidState(states[0])
    requires d.code.Some? && d.packageType == Some(states[0].packageType) && !CodeReady(d, states[0])
    ensures var last := states[|clean|];
            && last.config == states[0].config
            && ValidState(last) && last.packageType == states[0].packageType && !CodeReady(d, last)
  {
    hide Pass, ValidState, CodeReady;
    if clean != [] {
      var n := |clean| - 1;
      assert Run(d, states[..n + 1], clean[..n]);
      CodeBlocksConfiguration(d, states[..n + 1], clean[..n]);
      assert Pass(d, states[n], states[n + 1], clean[n]);
      PassBlocked(d, states[n], states[n + 1], clean[n]);
    }
  }

  /** Such a spec: one that lists no architecture. */
  lemma NoArchitectureListed() returns (d: FunctionSpec, s: State)
    ensures ValidState(s) && Typed(d) && Architectures(d) == []
    ensures d.code.Some? && d.packageType == Some(s.packageType) && !CodeReady(d, s)
  {
    hide Typed;
    d, s := Sample([], Some(ZIP), map[], map[], map[]);
  }

  // ----- requests that panic

  /** When a pass panics, in terms of the spec and the service. */
  ghost predicate PanicDue(d: FunctionSpec, s: State) {
    && d.tenancy == s.tenancy && !ForbidsSigning(d, s) && !CodeOutstanding(d, s)
    && !(FieldOutstanding(d, s, N.DURABLE_CONFIG) && !InRange(Entry(d.config, N.DURABLE_CONFIG)))
    && exists n :: HoldsPointer(n) && FieldOutstanding(d, s, n) && Entry(d.config, n) == Clearing(n)
  }

  /** The pass ends in the terminal error about code signing. */
  ghost predicate ForbidsSigning(d: FunctionSpec, s: State) {
    d.signing != ReadSigning(d, s) && d.packageType == Some(IMAGE) && NonEmpty(d.signing)
  }

  lemma PointersPanic(d: FunctionSpec, r: Resource, s: State)
    requires IsFunctionRead(r, d, s)
    ensures FieldsPanic(d, FunctionDelta(d, r)) <==>
            exists n :: HoldsPointer(n) && FieldOutstanding(d, s, n) && Entry(d.config, n) == Clearing(n)
  {
    hide FunctionDelta, IsFunctionRead, DifferentAt, IsConfigField, Clearing, Entry;
    ComparedFields();
    FieldRead(d, r, s, N.EPHEMERAL_STORAGE);
    FieldRead(d, r, s, N.SNAP_START);
    FieldRead(d, r, s, N.TRACING_CONFIG);
    FieldRead(d, r, s, N.IMAGE_CONFIG);
  }

  /**
    A pass panics exactly when it reaches the configuration case, no duration is out of range, and a
    field that differs is a structure with a nil pointer inside.
   */
  lemma PanicsExactly(d: FunctionSpec, r: Resource, s: State)
    requires IsFunctionRead(r, d, s)
    ensures Verdict(d, r, FunctionDelta(d, r)) == Panicked <==> !IsPending(r) && PanicDue(d, s)
  {
    hide FunctionDelta, IsFunctionRead, DifferentAt, DifferentExcept, CodeOutstanding, FieldOutstanding, IsConfigField;
    hide FieldsPanic, InRange, CodePanics, ReadSigning;
    ComparedFields();
    ReadDelta(d, r, s);
    ReadHasCode(d, r, s);
    PointersPanic(d, r, s);
    ArchitecturesAgree(d, s);
    FieldRead(d, r, s, N.DURABLE_CONFIG);
  }

  lemma PassUnsent(d: FunctionSpec, s: State, t: State, clean: bool, n: N.Name)
    requires Pass(d, s, t, clean)
    requires HoldsPointer(n) && FieldOutstanding(d, s, n) && Entry(d.config, n) == Clearing(n)
    ensures t.config == s.config
  {
    hide FunctionDelta, IsFunctionRead, Plan, ApplyAll, Increasing, IsPending, DifferentAt, FieldOutstanding;
    var r, k :|
      && IsFunctionRead(r, d, s)
      && 0 <= k <= |Plan(d, r, FunctionDelta(d, r))|
      && t == ApplyAll(s, Plan(d, r, FunctionDelta(d, r))[..k])
      && (clean <==> !IsPending(r) && k == |Plan(d, r, FunctionDelta(d, r))|);
    NoConfigCall(d, r, s, n);
    PartsKept(s, Plan(d, r, FunctionDelta(d, r))[..k]);
  }

  lemma NoConfigCall(d: FunctionSpec, r: Resource, s: State, n: N.Name)
    requires IsFunctionRead(r, d, s)
    requires HoldsPointer(n) && FieldOutstanding(d, s, n) && Entry(d.config, n) == Clearing(n)
    ensures forall c :: c in Plan(d, r, FunctionDelta(d, r)) ==> !c.UpdateConfiguration?
  {
    hide FunctionDelta, IsFunctionRead, Plan, DifferentAt, DifferentExcept, Increasing, FieldOutstanding, FieldsPanic;
    PointersPanic(d, r, s);
    TraceSafety(d, r, FunctionDelta(d, r));
  }

  /**
    A spec with such a structure, where the service holds another value, never has its configuration updated,
    in any run.
   */
  lemma {:induction false} PanicBlocksConfiguration(d: FunctionSpec, states: seq<State>, clean: seq<bool>, n: N.Name)
    requires Run(d, states, clean)
    requires HoldsPointer(n) && FieldOutstanding(d, states[0], n) && Entry(d.config, n) == Clearing(n)
    ensures states[|clean|].config == states[0].config
  {
    hide Pass;
    if clean != [] {
      var m := |clean| - 1;
      assert Run(d, states[..m + 1], clean[..m]);
      PanicBlocksConfiguration(d, states[..m + 1], clean[..m], n);
      assert Pass(d, states[m], states[m + 1], clean[m]);
      PassUnsent(d, states[m], states[m + 1], clean[m], n);
    }
  }

  /** One such spec: a tracing configuration without a mode. Every pass that is not pending panics. */
  lemma EmptyTracingPanics() returns (d: FunctionSpec, s: State)
    ensures ValidState(s) && Typed(d)
    ensures forall r :: IsFunctionRead(r, d, s) && !IsPending(r) ==> Verdict(d, r, FunctionDelta(d, r)) == Panicked
  {
    hide FunctionDelta, IsFunctionRead, Verdict, Typed, IsConfigField;
    var code := Code(None, Some("b"), Some("k"), None, None, "");
    d := FunctionSpec(Some(["x86_64"]), Some(code), None, None, Some(ZIP), None, map[], None,
                      map[N.TRACING_CONFIG := Node(Field(N.MODE, Absent, NoFields))]);
    s := State(map[], None, None, None, None, ZIP, None, "h", ["x86_64"],
               map[N.TRACING_CONFIG := Node(Field(N.MODE, Leaf(Text("PassThrough")), NoFields))], map[], {});
    TypedAlone(d, N.TRACING_CONFIG);
    assert FieldOutstanding(d, s, N.TRACING_CONFIG) && Entry(d.config, N.TRACING_CONFIG) == Clearing(N.TRACING_CONFIG);
    assert HoldsPointer(N.TRACING_CONFIG);
    assert PanicDue(d, s);
    forall r | IsFunctionRead(r, d, s) && !IsPending(r) ensures Verdict(d, r, FunctionDelta(d, r)) == Panicked {
      PanicsExactly(d, r, s);
    }
  }

  lemma TypedAlone(d: FunctionSpec, n: N.Name)
    requires d.config.Keys == {n} && HasType(n, d.config[n])
    ensures Typed(d)
  {
    hide IsConfigField;
  }

  // ----- updates with nothing in them

  /** Some field differs that the configuration case answers for, and none of those has anything to send. */
  ghost predicate EmptyUpdateDue(d: FunctionSpec, s: State) {
    && d.tenancy == s.tenancy && !ForbidsSigning(d, s) && !CodeOutstanding(d, s)
    && (d.packageType != Some(s.packageType) || ConfigOutstanding(d, s))
    && (forall n :: IsConfigField(n) && FieldOutstanding(d, s, n) ==> Sent(d, n).None?)
  }

  /** A pass ends in an update with nothing in it exactly then. */
  lemma EmptyUpdateExact(d: FunctionSpec, r: Resource, s: State)
    requires IsFunctionRead(r, d, s)
    ensures LastCall(d, r, FunctionDelta(d, r)) == [UpdateConfiguration(map[])] <==> EmptyUpdateDue(d, s)
  {
    hide FunctionDelta, IsFunctionRead, DifferentAt, DifferentExcept, CodeOutstanding, FieldOutstanding, IsConfigField;
    hide CodeUpdate, CodePanics;
    hide FieldsPanic, DurationOutOfRange, ReadSigning, ConfigRequest, Sent;
    ReadDelta(d, r, s);
    ReadHasCode(d, r, s);
    ArchitecturesAgree(d, s);
    EmptyRequest(d, r, s);
  }

  lemma EmptyRequest(d: FunctionSpec, r: Resource, s: State)
    requires IsFunctionRead(r, d, s)
    ensures (forall n :: IsConfigField(n) && FieldOutstanding(d, s, n) ==> Sent(d, n).None?)
            <==> ConfigCalls(d, FunctionDelta(d, r)) == [UpdateConfiguration(map[])]
  {
    hide FunctionDelta, IsFunctionRead, DifferentAt, FieldOutstanding, IsConfigField, FieldsPanic, InRange, Entry;
    hide SENT_FIELDS, Sent, HoldsPointer, ConfigRequest, Clearing;
    var ds := FunctionDelta(d, r);
    forall n ensures Sent(d, n).Some? ==> n in SENT_FIELDS && IsConfigField(n) {
      SentListed(d, n);
    }
    forall n | IsConfigField(n) ensures DifferentAt(ds, [N.SPEC, n]) <==> FieldOutstanding(d, s, n) {
      FieldRead(d, r, s, n);
    }
    ComparedFields();
    PointersPanic(d, r, s);
    PanickingIsSent(d);
    NothingInRequest(d, ds);
  }

  lemma NothingInRequest(d: FunctionSpec, ds: seq<Path>)
    ensures ConfigRequest(d, ds) == map[] <==>
            forall n :: n in SENT_FIELDS && DifferentAt(ds, [N.SPEC, n]) ==> Sent(d, n).None?
  {
    hide DifferentAt, Sent, SENT_FIELDS;
    if n :| n in SENT_FIELDS && DifferentAt(ds, [N.SPEC, n]) && Sent(d, n).Some? {
      assert n in ConfigRequest(d, ds);
    }
  }

  /** A field that can keep a request from being filled in has something to send. */
  lemma PanickingIsSent(d: FunctionSpec)
    ensures !InRange(Entry(d.config, N.DURABLE_CONFIG)) ==> Sent(d, N.DURABLE_CONFIG).Some?
    ensures forall n :: HoldsPointer(n) ==> Sent(d, n).Some?
  {
    hide Entry, Clearing, Narrowed;
    SentFieldAt();
  }

  /** Such a spec: one that leaves the package type out. */
  lemma NoPackageType() returns (d: FunctionSpec, s: State)
    ensures ValidState(s) && Typed(d) && d.packageType.None? && EmptyUpdateDue(d, s)
  {
    hide Typed, IsConfigField;
    d, s := Sample(["x86_64"], None, map[], map[], map[]);
    forall n ensures !FieldOutstanding(d, s, n) {
    }
  }

  lemma CoreDecidesEmptyUpdate(d: FunctionSpec, s: State, t: State)
    requires SameCore(s, t) && (ForbidsSigning(d, t) ==> ForbidsSigning(d, s))
    ensures EmptyUpdateDue(d, s) ==> EmptyUpdateDue(d, t)
  {
    hide Sent, Entry, Shown, IsConfigField;
    assert forall n :: FieldOutstanding(d, s, n) <==> FieldOutstanding(d, t, n);
  }

  lemma SigningUnasked(d: FunctionSpec, r: Resource, s: State)
    requires IsFunctionRead(r, d, s) && d.signing == ReadSigning(d, s)
    ensures forall c :: c in Plan(d, r, FunctionDelta(d, r)) ==> !SignsCode(c)
  {
    hide FunctionDelta, IsFunctionRead, Plan, DifferentAt, DifferentExcept, Increasing, FieldOutstanding, FieldsPanic;
    hide ReadSigning;
    ReadDelta(d, r, s);
    TraceSafety(d, r, FunctionDelta(d, r));
  }

  lemma NothingConfigured(s: State)
    ensures ApplyAll(s, [UpdateConfiguration(map[])]) == s
  {
    OneCall(s, UpdateConfiguration(map[]));
    assert Configured(s.config, s.dropsCleared, map[]) == s.config;
  }

  lemma PassKeepsEmptyUpdate(d: FunctionSpec, s: State, t: State, clean: bool)
    requires Pass(d, s, t, clean) && EmptyUpdateDue(d, s)
    ensures EmptyUpdateDue(d, t)
  {
    hide FunctionDelta, IsFunctionRead, Plan, ApplyAll, Settings, LastCall, IsPending, EmptyUpdateDue, SignsCode;
    hide IsSettingFor, ReadSigning;
    var r, k :|
      && IsFunctionRead(r, d, s)
      && 0 <= k <= |Plan(d, r, FunctionDelta(d, r))|
      && t == ApplyAll(s, Plan(d, r, FunctionDelta(d, r))[..k])
      && (clean <==> !IsPending(r) && k == |Plan(d, r, FunctionDelta(d, r))|);
    var ds := FunctionDelta(d, r);
    if IsPending(r) {
      PendingPlan(d, r, s, k);
    } else {
      CutPlan(d, r, s, k);
      SettingsAreSettings(d, r, ds);
      SettingsKeepCore(d, s, Settings(d, r, ds));
      if k < |Plan(d, r, ds)| {
        SettingsKeepCore(d, s, Settings(d, r, ds)[..k]);
      } else {
        EmptyUpdateExact(d, r, s);
        NothingConfigured(ApplyAll(s, Settings(d, r, ds)));
      }
    }
    PartsKept(s, Plan(d, r, ds)[..k]);
    StillAllowed(d, r, s, t, k);
    CoreDecidesEmptyUpdate(d, s, t);
  }

  /** The code signing error cannot come up in a later pass. */
  lemma StillAllowed(d: FunctionSpec, r: Resource, s: State, t: State, k: nat)
    requires IsFunctionRead(r, d, s) && SameCore(s, t) && k <= |Plan(d, r, FunctionDelta(d, r))|
    requires (forall i :: 0 <= i < k ==> !SignsCode(Plan(d, r, FunctionDelta(d, r))[..k][i])) ==> t.signing == s.signing
    ensures ForbidsSigning(d, t) ==> ForbidsSigning(d, s)
  {
    hide FunctionDelta, IsFunctionRead, Plan, SignsCode;
    if d.signing == ReadSigning(d, s) { SigningUnasked(d, r, s); }
  }

  /**
    So it is in every later state of any run: each pass that is not pending and not cut off ends in
    such an update, and the delta never empties.
   */
  lemma {:induction false} EmptyUpdatesForEver(d: FunctionSpec, states: seq<State>, clean: seq<bool>, r: Resource)
    requires Run(d, states, clean) && EmptyUpdateDue(d, states[0])
    requires IsFunctionRead(r, d, states[|clean|])
    ensures EmptyUpdateDue(d, states[|clean|])
    ensures LastCall(d, r, FunctionDelta(d, r)) == [UpdateConfiguration(map[])]
    ensures FunctionDelta(d, r) != []
  {
    hide Pass, EmptyUpdateDue, IsFunctionRead, FunctionDelta, LastCall;
    EmptyUpdateStaysDue(d, states, clean);
    EmptyUpdateExact(d, r, states[|clean|]);
    NoDeltaNoCall(d, r);
  }

  lemma {:induction false} EmptyUpdateStaysDue(d: FunctionSpec, states: seq<State>, clean: seq<bool>)
    requires Run(d, states, clean) && EmptyUpdateDue(d, states[0])
    ensures EmptyUpdateDue(d, states[|clean|])
  {
    hide Pass, EmptyUpdateDue;
    if clean != [] {
      var n := |clean| - 1;
      assert Run(d, states[..n + 1], clean[..n]);
      EmptyUpdateStaysDue(d, states[..n + 1], clean[..n]);
      assert Pass(d, states[n], states[n + 1], clean[n]);
      PassKeepsEmptyUpdate(d, states[n], states[n + 1], clean[n]);
    }
  }

  lemma NoDeltaNoCall(d: FunctionSpec, r: Resource)
    ensures FunctionDelta(d, r) == [] ==> LastCall(d, r, FunctionDelta(d, r)) == []
  {
    hide FunctionDelta, CodeUpdate, ConfigRequest;
  }

  // ----- a third pass

  /**
    Two passes are not always enough: a change of architecture redeploys the object's current version,
    which a spec that pins an older version must then undo before its configuration gets its turn.
   */
  lemma ThirdPassNeeded() returns (d: FunctionSpec, s: State)
    ensures ValidState(s) && Ready(d, s) && Passes(d, s) == 3
  {
    hide IsConfigField, ConfigReady;
    var code := Code(None, Some("b"), Some("k"), Some("v1"), Some("h1"), "");
    d := FunctionSpec(Some(["arm64"]), Some(code), None, None, Some(ZIP), None, map[], None,
                      map[N.DESCRIPTION := Leaf(Text("new"))]);
    s := State(map[], None, None, None, None, ZIP, None, "h1", ["x86_64"], map[],
               map[ZipPackage(Some("b"), Some("k"), Some("v1"), "") := "h1",
                   ZipPackage(Some("b"), Some("k"), None, "") := "h2"],
               {});
    DescriptionIsCompared();
    assert FieldOutstanding(d, s, N.DESCRIPTION);
    assert Settable(d, {}, N.DESCRIPTION);
    OutstandingAlone(d, s, N.DESCRIPTION);
    ReadyAlone(d, s, N.DESCRIPTION);
  }

  lemma DescriptionIsCompared()
    ensures IsConfigField(N.DESCRIPTION)
  {
    assert FIELDS[5] == N.DESCRIPTION;
  }

  /** Only this field differs from a service that holds no configuration. */
  lemma OutstandingAlone(d: FunctionSpec, s: State, n: N.Name)
    requires d.config.Keys == {n} && s.config == map[]
    ensures forall m :: FieldOutstanding(d, s, m) ==> m == n
  {
  }

  lemma ReadyAlone(d: FunctionSpec, s: State, n: N.Name)
    requires (forall m :: FieldOutstanding(d, s, m) ==> m == n) && Settable(d, s.dropsCleared, n)
    ensures ConfigReady(d, s)
  {
  }
}
