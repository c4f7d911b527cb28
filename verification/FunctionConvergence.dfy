/** Reading a function back, and where any run of update passes ends. */
module FunctionConvergence {
  import opened Common
  import opened Deltas
  import opened Int32
  import opened FunctionSpecs
  import opened FunctionService
  import opened FunctionUpdate
  import TagService
  import TagSync
  import opened EventInvoke
  import N = FieldNames

  // ----- sdkFind

  /** Fields that the read copies from the spec it was made for. */
  predicate CopiedFromSpec(n: N.Name) {
    n == N.IMAGE_CONFIG || n == N.PUBLISH || n == N.CODE_SIGNING_CONFIG_REF || n == N.KMS_KEY_REF || n == N.ROLE_REF
  }

  /** A configuration field as read, given what was wanted and what the service holds. */
  function Shown(n: N.Name, wanted: Tree, held: Tree): Tree {
    if CopiedFromSpec(n) || (n == N.LAYERS && held == Blank(n)) then wanted
    else if n == N.VPC_CONFIG && wanted != Absent && held == Absent then Clearing(n)
    else held
  }

  ghost function ReadInvoke(s: State): Option<Config> {
    if s.invoke.Some? then Some(FunctionRead(Served(s.invoke.value))) else None
  }

  /** No tags in the answer leaves the tags of the spec in place. */
  ghost function ReadTags(d: FunctionSpec, s: State): TagService.Tags {
    if s.tags == map[] then d.tags else s.tags
  }

  /** Code signing is read for zip packages only, and no configuration leaves the spec's in place. */
  ghost function ReadSigning(d: FunctionSpec, s: State): Option<string> {
    if s.packageType == ZIP && s.signing.Some? then s.signing else d.signing
  }

  ghost function ReadCode(d: FunctionSpec, s: State): Code {
    var code := if d.code.Some? then d.code.value else Code(None, None, None, None, None, "");
    if s.imageURI.Some? then code.(imageURI := s.imageURI) else code
  }

  /** The read ends in an error for a container image whose spec asks for code signing. */
  predicate Readable(d: FunctionSpec, s: State) {
    !(s.packageType == IMAGE && NonEmpty(d.signing))
  }

  /** What a successful read for the spec `d` gives. Whether the function is pending is up to the service. */
  ghost predicate IsFunctionRead(r: Resource, d: FunctionSpec, s: State) {
    && Readable(d, s)
    && Architectures(r.spec) == s.architectures
    && r.spec.code == Some(ReadCode(d, s))
    && r.spec.signing == ReadSigning(d, s)
    && r.spec.invoke == ReadInvoke(s)
    && r.spec.packageType == Some(s.packageType)
    && r.spec.concurrency == s.concurrency
    && r.spec.tags == ReadTags(d, s)
    && r.spec.tenancy == s.tenancy
    && r.codeSHA256 == Some(s.codeSHA256)
    && forall n :: IsConfigField(n) ==> Entry(r.spec.config, n) == Shown(n, Entry(d.config, n), Entry(s.config, n))
  }

  /** There is such a read whenever the service can be read. */
  lemma SomeRead(d: FunctionSpec, s: State) returns (r: Resource)
    requires Readable(d, s)
    ensures IsFunctionRead(r, d, s) && !IsPending(r)
  {
    hide FIELDS;
    var config := map n | n in FIELDS && IsConfigField(n) :: Shown(n, Entry(d.config, n), Entry(s.config, n));
    var spec := FunctionSpec(Some(s.architectures), Some(ReadCode(d, s)), ReadSigning(d, s), ReadInvoke(s),
                             Some(s.packageType), s.concurrency, ReadTags(d, s), s.tenancy, config);
    r := Resource(spec, Some("Active"), Some(s.codeSHA256));
  }

  // ----- what is outstanding

  predicate ImageOutstanding(d: FunctionSpec, s: State) {
    d.code.Some? && s.imageURI.Some? && d.code.value.imageURI != s.imageURI
  }

  predicate HashOutstanding(d: FunctionSpec, s: State) {
    d.code.Some? && d.packageType == Some(ZIP) && d.code.value.sha256.Some? && d.code.value.sha256 != Some(s.codeSHA256)
  }

  predicate CodeOutstanding(d: FunctionSpec, s: State) {
    ImageOutstanding(d, s) || HashOutstanding(d, s) || Architectures(d) != s.architectures
  }

  predicate FieldOutstanding(d: FunctionSpec, s: State, n: N.Name) {
    Entry(d.config, n) != Shown(n, Entry(d.config, n), Entry(s.config, n))
  }

  ghost predicate ConfigOutstanding(d: FunctionSpec, s: State) {
    exists n :: IsConfigField(n) && FieldOutstanding(d, s, n)
  }

  predicate SettingsAgree(d: FunctionSpec, s: State)
  {
    && (s.tags == map[] || s.tags == d.tags)
    && d.concurrency == s.concurrency
    && d.invoke == (if s.invoke.Some? then Some(FunctionRead(Served(s.invoke.value))) else None)
    && (s.packageType == ZIP && s.signing.Some? ==> d.signing == s.signing)
  }

  /** The questions a pass asks of the delta, answered from what the service holds. */
  lemma ReadDelta(d: FunctionSpec, r: Resource, s: State)
    requires IsFunctionRead(r, d, s)
    ensures var ds := FunctionDelta(d, r);
            && (DifferentAt(ds, [N.SPEC, N.TAGS]) <==> s.tags != map[] && s.tags != d.tags)
            && (DifferentAt(ds, [N.SPEC, N.RESERVED_CONCURRENT_EXECUTIONS]) <==> d.concurrency != s.concurrency)
            && (DifferentAt(ds, [N.SPEC, N.FUNCTION_EVENT_INVOKE_CONFIG]) <==> d.invoke != ReadInvoke(s))
            && (DifferentAt(ds, [N.SPEC, N.CODE_SIGNING_CONFIG_ARN]) <==> d.signing != ReadSigning(d, s))
            && (TenancyDiffers(ds) <==> d.tenancy != s.tenancy)
            && (DifferentAt(ds, CODE_SHA256) <==> HashOutstanding(d, s))
            && (DifferentAt(ds, CODE_IMAGE_URI) <==> ImageOutstanding(d, s))
            && (CodeDiffers(ds) <==> CodeOutstanding(d, s))
            && (DifferentExcept(ds, EXCEPTED) <==>
                  || Architectures(d) != s.architectures
                  || d.packageType != Some(s.packageType)
                  || ConfigOutstanding(d, s))
  {
    hide FunctionDelta, DifferentAt, DifferentExcept, FunctionRead, Served, Shown, Entry, IsConfigField;
    NamedFieldsExact(d, r);
    ImageExact(d, r);
    HashExact(d, r);
    RestExact(d, r);
    ConfigRead(d, r, s);
  }

  lemma ConfigRead(d: FunctionSpec, r: Resource, s: State)
    requires IsFunctionRead(r, d, s)
    ensures ConfigDiffers(d, r.spec) <==> ConfigOutstanding(d, s)
  {
  }

  lemma FieldRead(d: FunctionSpec, r: Resource, s: State, n: N.Name)
    requires IsFunctionRead(r, d, s) && IsConfigField(n)
    ensures DifferentAt(FunctionDelta(d, r), [N.SPEC, n]) <==> FieldOutstanding(d, s, n)
  {
    hide FunctionDelta, DifferentAt, Shown, Entry, IsConfigField;
    ConfigFieldExact(d, r, n);
  }

  /**
    Exactly when nothing is reported. Tags and code signing configuration that the service has none
    of are not missed, whatever the spec asks for.
   */
  lemma ReadDeltaEmpty(d: FunctionSpec, r: Resource, s: State)
    requires IsFunctionRead(r, d, s)
    ensures FunctionDelta(d, r) == [] <==>
            && d.code.Some? && d.packageType == Some(s.packageType) && d.tenancy == s.tenancy
            && SettingsAgree(d, s) && !CodeOutstanding(d, s) && !ConfigOutstanding(d, s)
  {
    hide FunctionDelta, FunctionRead, Served, Shown, Entry, IsConfigField;
    FunctionDeltaEmpty(d, r);
    ConfigRead(d, r, s);
  }

  // ----- when configuration settles

  /** The field can be sent and, once held, reads back as the field desired. */
  predicate Settable(d: FunctionSpec, drops: set<N.Name>, n: N.Name) {
    !FieldPanics(d, n) && Sent(d, n).Some?
        && Shown(n, Entry(d.config, n), Held(drops, n, Sent(d, n).value)) == Entry(d.config, n)
  }

  ghost predicate ConfigReady(d: FunctionSpec, s: State) {
    forall n :: IsConfigField(n) && FieldOutstanding(d, s, n) ==> Settable(d, s.dropsCleared, n)
  }

  /** Nothing in the value is lost on the way to the service. */
  predicate Carried(n: N.Name, t: Tree) {
    (HoldsNumbers(n) ==> InRange(t)) && (HoldsEnums(n) && t.Node? ==> NoEmptyEnum(t.fields))
  }

  /**
    Settable in the user's terms: among the fields sent at all, a field that is cleared settles if the
    service shows it absent once cleared; a field with a value settles if its numbers fit, no enumerated
    field in it is empty, and the value is not itself the cleared one that the service drops or that
    panics; layers, file systems, logging, durations and the runtime settle only with a value.
   */
  lemma SettableExact(d: FunctionSpec, drops: set<N.Name>, n: N.Name)
    requires !CopiedFromSpec(n)
    ensures var t := Entry(d.config, n);
            Settable(d, drops, n) <==>
              && n in SENT_FIELDS
              && if ClearedWhenAbsent(n) then
                   if t == Absent then n in drops
                   else Carried(n, t)
                        && (t == Clearing(n) ==> !HoldsPointer(n) && (n in drops ==> n == N.VPC_CONFIG))
                 else
                   && t != Blank(n)
                   && (n == N.RUNTIME ==> t != Leaf(Text("")))
                   && Carried(n, t)
                   && (n in drops ==> t != Clearing(n))
  {
    hide SENT_FIELDS, Entry;
    SentListed(d, n);
    NarrowedExact(Entry(d.config, n));
    SerializedExact(Entry(d.config, n));
  }

  /** Whatever is sent is one of the listed fields, each of which is compared. */
  lemma SentListed(d: FunctionSpec, n: N.Name)
    ensures Sent(d, n).Some? ==> n in SENT_FIELDS
    ensures n in SENT_FIELDS ==> IsConfigField(n)
  {
    hide Entry, Narrowed, Clearing, IsConfigField;
    SentFieldAt();
    SentIsCompared();
  }

  lemma SentIsCompared()
    ensures forall n :: n in SENT_FIELDS ==> IsConfigField(n)
  {
    hide FIELDS, SENT_FIELDS;
    FieldAt();
    SentFieldAt();
    forall n | n in SENT_FIELDS ensures IsConfigField(n) {
      var i :| 0 <= i < |SENT_FIELDS| && SENT_FIELDS[i] == n;
    }
  }

  /**
    The configuration case settles exactly the outstanding fields that are settable, and touches no
    other; if its request cannot be filled in it settles none.
   */
  lemma ConfigStep(d: FunctionSpec, r: Resource, s: State, n: N.Name)
    requires IsFunctionRead(r, d, s) && IsConfigField(n)
    ensures var calls := ConfigCalls(d, FunctionDelta(d, r));
            var t := ApplyAll(s, calls);
            && (FieldOutstanding(d, t, n) <==>
                FieldOutstanding(d, s, n) && (calls == [] || !Settable(d, s.dropsCleared, n)))
            && t == s.(config := t.config)
  {
    hide FunctionDelta, DifferentAt, IsFunctionRead, Sent, Shown, Held, IsConfigField, SENT_FIELDS, DurationOutOfRange;
    hide FieldsPanic, FieldPanics;
    var ds := FunctionDelta(d, r);
    FieldRead(d, r, s, n);
    SentListed(d, n);
    PanicsNowhere(d, ds, n);
    ConfiguredEntry(s.config, s.dropsCleared, ConfigRequest(d, ds), n);
    OneCall(s, UpdateConfiguration(ConfigRequest(d, ds)));
  }

  /** A request that is filled in panics at no field that the delta names. */
  lemma PanicsNowhere(d: FunctionSpec, ds: seq<Path>, n: N.Name)
    ensures !FieldsPanic(d, ds) && DifferentAt(ds, [N.SPEC, n]) ==> !FieldPanics(d, n)
  {
  }

  lemma ConfiguredEntry(config: map<N.Name, Tree>, drops: set<N.Name>, fields: map<N.Name, Tree>, n: N.Name)
    ensures Entry(Configured(config, drops, fields), n) == if n in fields then Held(drops, n, fields[n])
            else Entry(config, n)
  {
  }

  // ----- when code settles

  function DesiredZip(d: FunctionSpec): Option<Package> {
    if d.code.None? then None
    else
      var c := d.code.value;
      Requested(CodeRequest(None, None, c.s3Bucket, c.s3Key, c.s3ObjectVersion, c.zipFile))
  }

  /** What a change of architecture alone deploys again: the object's current version, not the desired one. */
  function RedeployedZip(d: FunctionSpec): Option<Package> {
    if d.code.None? then None
        else Requested(CodeRequest(None, None, d.code.value.s3Bucket, d.code.value.s3Key, None, ""))
  }

  /** The package is known and, where a hash is declared, has it. */
  predicate Delivers(d: FunctionSpec, s: State, p: Option<Package>)
    requires d.code.Some?
  {
    p.Some? && p.value in s.hashes && (d.code.value.sha256.Some? ==> d.code.value.sha256 == Some(s.hashes[p.value]))
  }

  predicate Known(s: State, p: Option<Package>) {
    p.Some? && p.value in s.hashes
  }

  /** The service keeps one kind of package and at least one architecture, and its numbers are int32. */
  predicate ValidState(s: State) {
    && (s.packageType == ZIP || s.packageType == IMAGE)
    && (s.packageType == IMAGE <==> s.imageURI.Some?)
    && s.architectures != []
    && FitsOption(s.concurrency)
    && (s.invoke.Some? ==> FitsOption(s.invoke.value.maximumAge) && FitsOption(s.invoke.value.maximumRetries))
  }

  /** Code calls can make the code what is desired. */
  predicate CodeReady(d: FunctionSpec, s: State)
  {
    && d.code.Some? && Architectures(d) != []
    && if s.packageType == IMAGE then
         if ImageOutstanding(d, s) then d.code.value.imageURI.Some?
             && ImagePackage(d.code.value.imageURI.value) in s.hashes
         else Architectures(d) != s.architectures ==> s.imageURI.Some? && ImagePackage(s.imageURI.value) in s.hashes
       else if HashOutstanding(d, s) then Delivers(d, s, DesiredZip(d))
       else Architectures(d) != s.architectures ==>
         Delivers(d, s, RedeployedZip(d)) || (Known(s, RedeployedZip(d)) && Delivers(d, s, DesiredZip(d)))
  }

  /** How many code calls it takes: one more when redeploying brings a version that was not asked for. */
  function CodePasses(d: FunctionSpec, s: State): nat {
    if !CodeOutstanding(d, s) then 0
    else if s.packageType == ZIP && d.code.Some? && !HashOutstanding(d, s) && !Delivers(d, s, RedeployedZip(d)) then 2
    else 1
  }

  /** The request of a code pass, in terms of what is outstanding. */
  lemma CodeRequestFor(d: FunctionSpec, r: Resource, s: State)
    requires IsFunctionRead(r, d, s) && ValidState(s) && d.code.Some? && d.packageType == Some(s.packageType)
    ensures var q := CodeUpdate(d, r, FunctionDelta(d, r));
            && q.architectures == d.architectures
            && (s.packageType == ZIP ==>
                  Requested(q) == (if HashOutstanding(d, s) then DesiredZip(d) else RedeployedZip(d))
                      && q.imageURI.None?)
            && (s.packageType == IMAGE ==>
                  q.imageURI == (if ImageOutstanding(d, s) && d.code.value.imageURI.Some? then d.code.value.imageURI
                                 else s.imageURI)
                  && Requested(q) == Some(ImagePackage(q.imageURI.value)))
  {
    hide FunctionDelta, DifferentAt, DifferentExcept, Shown, Entry, IsConfigField, ConfigOutstanding;
    ReadDelta(d, r, s);
  }

  /**
    One code call brings the code one call closer if it can settle at all, and otherwise leaves it
    outstanding and no more able to settle than before.
   */
  lemma CodeStep(d: FunctionSpec, r: Resource, s: State)
    requires IsFunctionRead(r, d, s) && ValidState(s) && d.code.Some? && d.packageType == Some(s.packageType)
    requires CodeOutstanding(d, s)
    ensures var t := Apply(s, UpdateCode(CodeUpdate(d, r, FunctionDelta(d, r))));
            && (CodeReady(d, t) <==> CodeReady(d, s))
            && (CodeReady(d, s) ==> CodePasses(d, t) == CodePasses(d, s) - 1)
            && (CodeReady(d, s) ==> Deployable(s, CodeUpdate(d, r, FunctionDelta(d, r))))
            && ValidState(t)
            && t == s.(codeSHA256 := t.codeSHA256, imageURI := t.imageURI, architectures := t.architectures)
  {
    hide FunctionDelta, CodeUpdate, IsFunctionRead, Requested;
    CodeRequestFor(d, r, s);
    ZipKinds(d);
  }

  lemma ZipKinds(d: FunctionSpec)
    ensures DesiredZip(d).Some? ==> DesiredZip(d).value.ZipPackage?
    ensures RedeployedZip(d).Some? ==> RedeployedZip(d).value.ZipPackage?
  {
  }

  // ----- when the other settings settle

  /** Concurrency and event-invoke configuration that can be read back as they were put. */
  predicate SettingsReady(d: FunctionSpec) {
    FitsOption(d.concurrency) && (d.invoke.Some? ==> FunctionCanonical(d.invoke.value))
  }

  /** The two states differ in settings alone, not in code or configuration. */
  predicate SameCore(s: State, t: State) {
    t == s.(tags := t.tags, concurrency := t.concurrency, invoke := t.invoke, signing := t.signing)
  }

  predicate IsSettingFor(d: FunctionSpec, c: Call) {
    c.ChangeTags? || c == ConcurrencyCall(d) || c == InvokeCall(d) || c == SigningCall(d)
  }

  lemma {:induction false} SettingsKeepCore(d: FunctionSpec, s: State, calls: seq<Call>)
    requires forall i :: 0 <= i < |calls| ==> IsSettingFor(d, calls[i])
    ensures SameCore(s, ApplyAll(s, calls))
    ensures ValidState(s) ==> ValidState(ApplyAll(s, calls))
  {
    hide Apply, IsSettingFor, ValidState;
    if calls != [] {
      var n := |calls| - 1;
      SettingsKeepCore(d, s, calls[..n]);
      OneSettingKeepsCore(d, ApplyAll(s, calls[..n]), calls[n]);
    }
  }

  lemma OneSettingKeepsCore(d: FunctionSpec, s: State, c: Call)
    requires IsSettingFor(d, c)
    ensures SameCore(s, Apply(s, c))
    ensures ValidState(s) ==> ValidState(Apply(s, c))
  {
    hide TagService.Apply, Narrow, Fits;
    RoundTrip(d.concurrency);
    if d.invoke.Some? {
      RoundTrip(d.invoke.value.maximumAge);
      RoundTrip(d.invoke.value.maximumRetries);
    }
  }

  lemma SettingsAreSettings(d: FunctionSpec, latest: Resource, ds: seq<Path>)
    ensures forall i :: 0 <= i < |Settings(d, latest, ds)| ==> IsSettingFor(d, Settings(d, latest, ds)[i])
  {
  }

  /** The settings once all their calls are made. */
  lemma SettingsEffect(d: FunctionSpec, r: Resource, s: State)
    requires IsFunctionRead(r, d, s)
    ensures var ds := FunctionDelta(d, r);
            var t := ApplyAll(s, Settings(d, r, ds));
            && t.tags == (if s.tags == map[] then s.tags else d.tags)
            && t.concurrency == (if d.concurrency != s.concurrency then Apply(s, ConcurrencyCall(d)).concurrency
                                 else s.concurrency)
            && t.invoke == (if d.invoke != ReadInvoke(s) then Apply(s, InvokeCall(d)).invoke else s.invoke)
            && (!SigningForbidden(d, ds) ==>
                  t.signing == if d.signing != ReadSigning(d, s) then Apply(s, SigningCall(d)).signing else s.signing)
  {
    hide FunctionDelta, DifferentAt, DifferentExcept, ApplyAll, SigningForbidden, TagSync.Plan;
    hide IsFunctionRead, TagCalls, SettingCalls, ReadInvoke, ConfigOutstanding, CodeOutstanding, ReadSigning, Apply;
    hide SigningCall, ConcurrencyCall, InvokeCall;
    var ds := FunctionDelta(d, r);
    ReadDelta(d, r, s);
    var tags, settings, signing := TagCalls(d, r, ds), SettingCalls(d, ds), SigningCalls(d, ds);
    ApplyAllConcat(s, tags + settings, signing);
    ApplyAllConcat(s, tags, settings);
    TagsEffect(d, r, s);
    var u := ApplyAll(s, tags);
    SettingCallsEffect(d, ds, u);
    ConcurrencyEffect(d, s, u);
    InvokeEffect(d, s, u);
    SigningEffect(d, s, ApplyAll(u, settings));
    OneCall(ApplyAll(u, settings), SigningCall(d));
  }

  /** What a setting becomes does not depend on the state, and nothing else changes. */
  lemma ConcurrencyEffect(d: FunctionSpec, s: State, t: State)
    ensures Apply(t, ConcurrencyCall(d)) == t.(concurrency := Apply(s, ConcurrencyCall(d)).concurrency)
  {
    hide Narrow, Configured, Deployable, Deployed, TagService.Apply;
  }

  lemma InvokeEffect(d: FunctionSpec, s: State, t: State)
    ensures Apply(t, InvokeCall(d)) == t.(invoke := Apply(s, InvokeCall(d)).invoke)
  {
    hide PutPayload, Configured, Deployable, Deployed, TagService.Apply;
  }

  lemma SigningEffect(d: FunctionSpec, s: State, t: State)
    ensures Apply(t, SigningCall(d)) == t.(signing := Apply(s, SigningCall(d)).signing)
  {
    hide NonEmpty, Configured, Deployable, Deployed, TagService.Apply;
  }

  lemma TagsEffect(d: FunctionSpec, r: Resource, s: State)
    requires IsFunctionRead(r, d, s)
    ensures ApplyAll(s, TagCalls(d, r, FunctionDelta(d, r))) == s.(tags := if s.tags == map[] then s.tags else d.tags)
  {
    hide FunctionDelta, DifferentAt, DifferentExcept, TagSync.Plan, Shown, Entry, IsConfigField, TagService.ApplyAll;
    ReadDelta(d, r, s);
    TagSync.PlanConverges(s.tags, d.tags);
    TagCallsOnly(s, TagSync.Plan(s.tags, d.tags));
    OneCall(s, DeleteInvoke);
  }

  lemma SettingCallsEffect(d: FunctionSpec, ds: seq<Path>, s: State)
    ensures ApplyAll(s, SettingCalls(d, ds)) ==
            s.(concurrency := if DifferentAt(ds, [N.SPEC, N.RESERVED_CONCURRENT_EXECUTIONS])
               then Apply(s, ConcurrencyCall(d)).concurrency else s.concurrency,
               invoke := if DifferentAt(ds, [N.SPEC, N.FUNCTION_EVENT_INVOKE_CONFIG])
                   then Apply(s, InvokeCall(d)).invoke else s.invoke)
  {
    hide DifferentAt, Apply, ApplyAll, ConcurrencyCall, InvokeCall;
    var first := if DifferentAt(ds, [N.SPEC, N.RESERVED_CONCURRENT_EXECUTIONS]) then [ConcurrencyCall(d)] else [];
    var second := if DifferentAt(ds, [N.SPEC, N.FUNCTION_EVENT_INVOKE_CONFIG]) then [InvokeCall(d)] else [];
    ApplyAllConcat(s, first, second);
    OneCall(s, ConcurrencyCall(d));
    OneCall(ApplyAll(s, first), InvokeCall(d));
    ConcurrencyEffect(d, s, s);
    InvokeEffect(d, s, ApplyAll(s, first));
  }

  /** Complete settings agree with the spec exactly when they can be read back as they were put. */
  lemma SettingsSettle(d: FunctionSpec, r: Resource, s: State)
    requires IsFunctionRead(r, d, s) && ValidState(s) && d.packageType == Some(s.packageType)
    ensures SettingsAgree(d, ApplyAll(s, Settings(d, r, FunctionDelta(d, r)))) <==> SettingsReady(d)
    ensures !SigningForbidden(d, FunctionDelta(d, r))
  {
    hide FunctionDelta, ApplyAll, Apply, Settings, SigningForbidden, IsFunctionRead, ReadInvoke, ReadSigning;
    hide FunctionRead, Served;
    hide FunctionCanonical, FitsOption, ConcurrencyCall, InvokeCall, SigningCall, ValidState;
    var ds := FunctionDelta(d, r);
    SigningAllowed(d, r, s);
    SettingsEffect(d, r, s);
    SettingsAreSettings(d, r, ds);
    SettingsKeepCore(d, s, Settings(d, r, ds));
    ConcurrencySettles(d, s);
    InvokeSettles(d, s);
    SigningSettles(d, s);
  }

  lemma ConcurrencySettles(d: FunctionSpec, s: State)
    requires ValidState(s)
    ensures var t := if d.concurrency != s.concurrency then Apply(s, ConcurrencyCall(d)).concurrency else s.concurrency;
            d.concurrency == t <==> FitsOption(d.concurrency)
  {
    RoundTrip(d.concurrency);
  }

  lemma InvokeSettles(d: FunctionSpec, s: State)
    requires ValidState(s)
    ensures var t := if d.invoke != ReadInvoke(s) then Apply(s, InvokeCall(d)).invoke else s.invoke;
            d.invoke == (if t.Some? then Some(FunctionRead(Served(t.value))) else None)
            <==> (d.invoke.Some? ==> FunctionCanonical(d.invoke.value))
  {
    hide FunctionRead, Served, PutPayload, FunctionCanonical;
    if d.invoke.Some? { FunctionPutRead(d.invoke.value); }
    if s.invoke.Some? { ReadIsCanonical(s.invoke.value); }
  }

  lemma SigningSettles(d: FunctionSpec, s: State)
    ensures var t := if d.signing != ReadSigning(d, s) then Apply(s, SigningCall(d)).signing else s.signing;
            s.packageType == ZIP && t.Some? ==> d.signing == t
  {
  }

  lemma SigningAllowed(d: FunctionSpec, r: Resource, s: State)
    requires IsFunctionRead(r, d, s) && d.packageType == Some(s.packageType)
    ensures !SigningForbidden(d, FunctionDelta(d, r))
  {
  }

  lemma ReadIsCanonical(w: Wire)
    requires FitsOption(w.maximumAge) && FitsOption(w.maximumRetries)
    ensures FunctionCanonical(FunctionRead(Served(w)))
  {
  }

  // ----- one pass

  /** Nothing that the update cannot change stands between the service and the spec. */
  ghost predicate Ready(d: FunctionSpec, s: State) {
    && d.packageType == Some(s.packageType) && d.tenancy == s.tenancy && Readable(d, s)
    && SettingsReady(d) && CodeReady(d, s) && ConfigReady(d, s)
  }

  /** The code calls and the configuration call that are outstanding. */
  ghost function Passes(d: FunctionSpec, s: State): nat {
    CodePasses(d, s) + if ConfigOutstanding(d, s) then 1 else 0
  }

  lemma CoreDecides(d: FunctionSpec, s: State, t: State)
    requires SameCore(s, t)
    ensures Ready(d, t) <==> Ready(d, s)
    ensures Passes(d, t) == Passes(d, s)
  {
  }

  /** Code and configuration calls do not look at the settings. */
  lemma LastIgnoresSettings(s: State, u: State, c: Call)
    requires SameCore(s, u) && (c.UpdateCode? || c.UpdateConfiguration?)
    ensures Apply(u, c) == Apply(s, c).(tags := u.tags, concurrency := u.concurrency, invoke := u.invoke,
                                        signing := u.signing)
  {
  }

  /** The last call of a pass, made in whatever state the settings left. */
  lemma LastStep(d: FunctionSpec, r: Resource, s: State, u: State)
    requires IsFunctionRead(r, d, s) && SameCore(s, u) && ValidState(s) && ValidState(u)
    requires d.packageType == Some(s.packageType) && d.tenancy == s.tenancy && d.code.Some?
    requires !SigningForbidden(d, FunctionDelta(d, r))
    ensures var t := ApplyAll(u, LastCall(d, r, FunctionDelta(d, r)));
            && (Ready(d, t) <==> Ready(d, s))
            && (Ready(d, s) ==> Passes(d, t) == if Passes(d, s) > 0 then Passes(d, s) - 1 else 0)
            && ValidState(t)
            && t.packageType == s.packageType && t.tenancy == s.tenancy
            && t.tags == u.tags && t.concurrency == u.concurrency && t.invoke == u.invoke && t.signing == u.signing
  {
    hide FunctionDelta, DifferentAt, DifferentExcept, IsFunctionRead, CodeUpdate, CodePanics, ConfigRequest;
    hide CodeDiffers, TenancyDiffers, SigningForbidden;
    hide Apply, ApplyAll, Ready, Passes, CodeOutstanding, ConfigOutstanding, DurationOutOfRange, FieldsPanic;
    var ds := FunctionDelta(d, r);
    ReadDelta(d, r, s);
    OneCall(u, UpdateCode(CodeUpdate(d, r, ds)));
    ArchitecturesAgree(d, s);
    ReadHasCode(d, r, s);
    if CodeOutstanding(d, s) {
      CodeLast(d, r, s);
      var c := UpdateCode(CodeUpdate(d, r, ds));
      LastIgnoresSettings(s, u, c);
      CoreDecides(d, Apply(s, c), Apply(u, c));
    } else if ConfigOutstanding(d, s) && ConfigCalls(d, ds) != [] {
      ConfigLast(d, r, s);
      var c := UpdateConfiguration(ConfigRequest(d, ds));
      LastIgnoresSettings(s, u, c);
      CoreDecides(d, Apply(s, c), Apply(u, c));
      OneCall(u, c);
    } else {
      CoreDecides(d, s, u);
      NothingLast(d, r, s);
    }
  }

  lemma ReadHasCode(d: FunctionSpec, r: Resource, s: State)
    requires IsFunctionRead(r, d, s)
    ensures !CodePanics(d, r, FunctionDelta(d, r))
  {
  }

  lemma ArchitecturesAgree(d: FunctionSpec, s: State)
    ensures !CodeOutstanding(d, s) ==> Architectures(d) == s.architectures
  {
  }

  lemma CodeLast(d: FunctionSpec, r: Resource, s: State)
    requires IsFunctionRead(r, d, s) && ValidState(s)
    requires d.packageType == Some(s.packageType) && d.code.Some? && CodeOutstanding(d, s)
    ensures var t := Apply(s, UpdateCode(CodeUpdate(d, r, FunctionDelta(d, r))));
            && (Ready(d, t) <==> Ready(d, s))
            && (Ready(d, s) ==> Passes(d, t) == Passes(d, s) - 1)
            && ValidState(t) && t.packageType == s.packageType && t.tenancy == s.tenancy
  {
    hide FunctionDelta, IsFunctionRead, CodeUpdate, Apply, CodeReady, CodePasses, CodeOutstanding, Settable, ValidState;
    CodeStep(d, r, s);
    ConfigDecides(d, s, Apply(s, UpdateCode(CodeUpdate(d, r, FunctionDelta(d, r)))));
  }

  lemma ConfigDecides(d: FunctionSpec, s: State, t: State)
    requires s.config == t.config && s.dropsCleared == t.dropsCleared
    ensures ConfigReady(d, s) <==> ConfigReady(d, t)
    ensures ConfigOutstanding(d, s) <==> ConfigOutstanding(d, t)
  {
  }

  lemma ConfigLast(d: FunctionSpec, r: Resource, s: State)
    requires IsFunctionRead(r, d, s) && ValidState(s) && d.code.Some? && !CodeOutstanding(d, s)
             && ConfigOutstanding(d, s)
    requires ConfigCalls(d, FunctionDelta(d, r)) != []
    ensures var t := Apply(s, UpdateConfiguration(ConfigRequest(d, FunctionDelta(d, r))));
            && (Ready(d, t) <==> Ready(d, s))
            && (Ready(d, s) ==> Passes(d, t) == Passes(d, s) - 1)
            && ValidState(t) && t.packageType == s.packageType && t.tenancy == s.tenancy
  {
    hide FunctionDelta, IsFunctionRead, ConfigRequest, Apply, Settable, FieldOutstanding, IsConfigField;
    hide DurationOutOfRange, FieldsPanic;
    var t := Apply(s, UpdateConfiguration(ConfigRequest(d, FunctionDelta(d, r))));
    OneCall(s, UpdateConfiguration(ConfigRequest(d, FunctionDelta(d, r))));
    forall n | IsConfigField(n)
      ensures FieldOutstanding(d, t, n) <==> FieldOutstanding(d, s, n) && !Settable(d, s.dropsCleared, n)
      ensures t == s.(config := t.config)
    {
      ConfigStep(d, r, s, n);
    }
    var m :| IsConfigField(m) && FieldOutstanding(d, s, m);
    assert t == s.(config := t.config);
  }

  /**
    No last call: nothing is outstanding, or a duration out of range or a field that panics keeps the
    spec from ever settling.
   */
  lemma NothingLast(d: FunctionSpec, r: Resource, s: State)
    requires IsFunctionRead(r, d, s) && !CodeOutstanding(d, s)
    ensures ConfigOutstanding(d, s) && ConfigCalls(d, FunctionDelta(d, r)) == [] ==> !Ready(d, s)
    ensures !ConfigOutstanding(d, s) ==> Passes(d, s) == 0
  {
    hide FunctionDelta, IsFunctionRead, CodeReady, Entry, Shown, SettingsReady, Sent, FieldPanics, DifferentAt;
    var ds := FunctionDelta(d, r);
    SentFieldAt();
    if DurationOutOfRange(d, ds) {
      SentListed(d, N.DURABLE_CONFIG);
      FieldRead(d, r, s, N.DURABLE_CONFIG);
      SettableExact(d, s.dropsCleared, N.DURABLE_CONFIG);
    } else if FieldsPanic(d, ds) {
      var n := if PanicsAt(d, ds, N.EPHEMERAL_STORAGE) then N.EPHEMERAL_STORAGE
               else if PanicsAt(d, ds, N.IMAGE_CONFIG) then N.IMAGE_CONFIG
               else if PanicsAt(d, ds, N.SNAP_START) then N.SNAP_START else N.TRACING_CONFIG;
      SentListed(d, n);
      FieldRead(d, r, s, n);
    }
  }

  /**
    A pass over state `s` that ends in state `t`: a read, pending or not, and as many calls of its plan
    as were made before one failed. It is clean if the function was not pending and no call failed; it
    may still have ended in an error of the controller's own.
   */
  ghost predicate Pass(d: FunctionSpec, s: State, t: State, clean: bool) {
    exists r, k ::
      && IsFunctionRead(r, d, s)
      && 0 <= k <= |Plan(d, r, FunctionDelta(d, r))|
      && t == ApplyAll(s, Plan(d, r, FunctionDelta(d, r))[..k])
      && (clean <==> !IsPending(r) && k == |Plan(d, r, FunctionDelta(d, r))|)
  }

  predicate MadeFor(d: FunctionSpec, c: Call) {
    IsSettingFor(d, c) || c.UpdateCode? || c.UpdateConfiguration?
  }

  /** No call of any pass changes the kind of package or the tenancy. */
  lemma {:induction false} CallsKeepKind(d: FunctionSpec, s: State, calls: seq<Call>)
    requires forall i :: 0 <= i < |calls| ==> MadeFor(d, calls[i])
    ensures ApplyAll(s, calls).packageType == s.packageType && ApplyAll(s, calls).tenancy == s.tenancy
    ensures ValidState(s) ==> ValidState(ApplyAll(s, calls))
  {
    hide Apply, IsSettingFor, ValidState;
    if calls != [] {
      var n := |calls| - 1;
      CallsKeepKind(d, s, calls[..n]);
      var u := ApplyAll(s, calls[..n]);
      if IsSettingFor(d, calls[n]) {
        OneSettingKeepsCore(d, u, calls[n]);
      } else {
        UpdateKeepsKind(u, calls[n]);
      }
    }
  }

  lemma UpdateKeepsKind(s: State, c: Call)
    requires c.UpdateCode? || c.UpdateConfiguration?
    ensures Apply(s, c).packageType == s.packageType && Apply(s, c).tenancy == s.tenancy
    ensures ValidState(s) ==> ValidState(Apply(s, c))
  {
  }

  lemma PlanMadeFor(d: FunctionSpec, latest: Resource, ds: seq<Path>)
    ensures forall i :: 0 <= i < |Plan(d, latest, ds)| ==> MadeFor(d, Plan(d, latest, ds)[i])
  {
    hide DifferentAt, DifferentExcept, Settings, IsSettingFor, CodeUpdate, ConfigRequest, DurationOutOfRange;
    SettingsAreSettings(d, latest, ds);
  }

  /** Settings that agree need no call. */
  lemma NoSettings(d: FunctionSpec, r: Resource, s: State)
    requires IsFunctionRead(r, d, s) && SettingsAgree(d, s)
    ensures Settings(d, r, FunctionDelta(d, r)) == []
  {
    hide FunctionDelta, DifferentAt, DifferentExcept, Shown, Entry, IsConfigField, FunctionRead, Served;
    ReadDelta(d, r, s);
  }

  /** A cut-off pass has made some of the settings, a complete one all of them and then the last call. */
  lemma CutPlan(d: FunctionSpec, r: Resource, s: State, k: nat)
    requires !IsPending(r) && k <= |Plan(d, r, FunctionDelta(d, r))|
    ensures var settings, last := Settings(d, r, FunctionDelta(d, r)), LastCall(d, r, FunctionDelta(d, r));
            var plan := Plan(d, r, FunctionDelta(d, r));
            && (k < |plan| ==> k <= |settings| && plan[..k] == settings[..k])
            && (k == |plan| ==> ApplyAll(s, plan[..k]) == ApplyAll(ApplyAll(s, settings), last))
  {
    hide FunctionDelta, Settings, LastCall, ApplyAll;
    var settings, last := Settings(d, r, FunctionDelta(d, r)), LastCall(d, r, FunctionDelta(d, r));
    ExitsCut(d, r, FunctionDelta(d, r));
    ApplyAllConcat(s, settings, last);
    assert (settings + last)[..|settings + last|] == settings + last;
  }

  /**
    One pass never changes whether the spec can be reached. If it can, a clean pass makes one of the
    outstanding code and configuration calls and brings every setting into agreement; any other pass
    leaves both as they are, or closer.
   */
  lemma PassStep(d: FunctionSpec, s: State, t: State, clean: bool)
    requires Pass(d, s, t, clean) && ValidState(s)
    ensures ValidState(t) && (Ready(d, t) <==> Ready(d, s))
    ensures Ready(d, s) ==> Passes(d, t) == if clean && Passes(d, s) > 0 then Passes(d, s) - 1 else Passes(d, s)
    ensures Ready(d, s) && (clean || SettingsAgree(d, s)) ==> SettingsAgree(d, t)
  {
    hide FunctionDelta, IsFunctionRead, Plan, Settings, LastCall, ApplyAll, Ready, Passes, SettingsAgree, ValidState;
    hide MadeFor, IsSettingFor, SigningForbidden;
    var r, k :|
      && IsFunctionRead(r, d, s)
      && 0 <= k <= |Plan(d, r, FunctionDelta(d, r))|
      && t == ApplyAll(s, Plan(d, r, FunctionDelta(d, r))[..k])
      && (clean <==> !IsPending(r) && k == |Plan(d, r, FunctionDelta(d, r))|);
    PassFrom(d, s, t, r, k);
  }

  lemma PassFrom(d: FunctionSpec, s: State, t: State, r: Resource, k: nat)
    requires IsFunctionRead(r, d, s) && ValidState(s)
    requires k <= |Plan(d, r, FunctionDelta(d, r))| && t == ApplyAll(s, Plan(d, r, FunctionDelta(d, r))[..k])
    ensures var clean := !IsPending(r) && k == |Plan(d, r, FunctionDelta(d, r))|;
            && ValidState(t) && (Ready(d, t) <==> Ready(d, s))
            && (Ready(d, s) ==> Passes(d, t) == if clean && Passes(d, s) > 0 then Passes(d, s) - 1 else Passes(d, s))
            && (Ready(d, s) && (clean || SettingsAgree(d, s)) ==> SettingsAgree(d, t))
  {
    hide FunctionDelta, IsFunctionRead, Plan, Settings, LastCall, ApplyAll, Ready, Passes, SettingsAgree, ValidState;
    hide MadeFor, IsSettingFor, SigningForbidden;
    var ds := FunctionDelta(d, r);
    var plan, settings := Plan(d, r, ds), Settings(d, r, ds);
    PlanMadeFor(d, r, ds);
    CallsKeepKind(d, s, plan[..k]);
    ReadyKind(d, s, t);
    if IsPending(r) {
      PendingPlan(d, r, s, k);
    } else if d.packageType == Some(s.packageType) && d.tenancy == s.tenancy && d.code.Some? {
      CutPlan(d, r, s, k);
      SettingsSettle(d, r, s);
      SettingsAreSettings(d, r, ds);
      SettingsKeepCore(d, s, settings);
      if k < |plan| {
        SettingsKeepCore(d, s, settings[..k]);
        CoreDecides(d, s, t);
        CutAgrees(d, r, s, k);
      } else {
        var u := ApplyAll(s, settings);
        LastStep(d, r, s, u);
        AgreeBySettings(d, u, t);
        ReadyAgrees(d, s);
      }
    }
  }

  lemma CutAgrees(d: FunctionSpec, r: Resource, s: State, k: nat)
    requires IsFunctionRead(r, d, s) && k <= |Settings(d, r, FunctionDelta(d, r))|
    ensures SettingsAgree(d, s) ==> ApplyAll(s, Settings(d, r, FunctionDelta(d, r))[..k]) == s
  {
    hide FunctionDelta, IsFunctionRead, Settings, SettingsAgree;
    if SettingsAgree(d, s) { NoSettings(d, r, s); }
  }

  lemma ReadyKind(d: FunctionSpec, s: State, t: State)
    requires t.packageType == s.packageType && t.tenancy == s.tenancy
    ensures !(d.packageType == Some(s.packageType) && d.tenancy == s.tenancy && d.code.Some?) ==>
            !Ready(d, s) && !Ready(d, t)
  {
  }

  lemma ReadyAgrees(d: FunctionSpec, s: State)
    ensures Ready(d, s) ==> SettingsReady(d)
  {
  }

  lemma PendingPlan(d: FunctionSpec, r: Resource, s: State, k: nat)
    requires IsPending(r) && k <= |Plan(d, r, FunctionDelta(d, r))|
    ensures ApplyAll(s, Plan(d, r, FunctionDelta(d, r))[..k]) == s
  {
  }

  lemma AgreeBySettings(d: FunctionSpec, u: State, t: State)
    requires t.tags == u.tags && t.concurrency == u.concurrency && t.invoke == u.invoke && t.signing == u.signing
    requires t.packageType == u.packageType
    ensures SettingsAgree(d, t) <==> SettingsAgree(d, u)
  {
  }

  // ----- runs

  ghost predicate Run(d: FunctionSpec, states: seq<State>, clean: seq<bool>) {
    |states| == |clean| + 1 && forall i :: 0 <= i < |clean| ==> Pass(d, states[i], states[i + 1], clean[i])
  }

  ghost function CleanPasses(clean: seq<bool>): nat {
    if clean == [] then 0 else CleanPasses(clean[..|clean| - 1]) + if clean[|clean| - 1] then 1 else 0
  }

  /** The measure falls by one with every clean pass of a run and with no other, until it is zero. */
  lemma {:induction false} RunMeasure(d: FunctionSpec, states: seq<State>, clean: seq<bool>)
    requires Run(d, states, clean) && ValidState(states[0])
    ensures var last := states[|clean|];
            && ValidState(last) && (Ready(d, last) <==> Ready(d, states[0]))
            && (Ready(d, last) ==>
                  && (Passes(d, last) == if Passes(d, states[0]) > CleanPasses(clean)
                      then Passes(d, states[0]) - CleanPasses(clean) else 0)
                  && (CleanPasses(clean) > 0 ==> SettingsAgree(d, last)))
  {
    hide Ready, Passes, Pass, ValidState, SettingsAgree;
    if clean != [] {
      var n := |clean| - 1;
      assert Run(d, states[..n + 1], clean[..n]);
      RunMeasure(d, states[..n + 1], clean[..n]);
      assert Pass(d, states[n], states[n + 1], clean[n]);
      PassStep(d, states[n], states[n + 1], clean[n]);
    }
  }

  /** A silent delta is read exactly from a state that is ready with nothing left to do. */
  lemma SilentExactly(d: FunctionSpec, r: Resource, s: State)
    requires IsFunctionRead(r, d, s) && ValidState(s)
    ensures FunctionDelta(d, r) == [] <==> Ready(d, s) && SettingsAgree(d, s) && Passes(d, s) == 0
  {
    hide FunctionDelta, FunctionRead, Served, Shown, Entry, IsConfigField, Settable, Delivers, Known, FunctionCanonical;
    hide Fits;
    ReadDeltaEmpty(d, r, s);
    if s.invoke.Some? { ReadIsCanonical(s.invoke.value); }
  }

  /**
    After any run with a clean pass in it, whatever failed or was pending, the next read shows no
    difference exactly when the spec could be reached from the first state and the run had as many
    clean passes as it needed.
   */
  lemma FunctionConverges(d: FunctionSpec, states: seq<State>, clean: seq<bool>, r: Resource)
    requires Run(d, states, clean) && ValidState(states[0]) && CleanPasses(clean) > 0
    requires IsFunctionRead(r, d, states[|clean|])
    ensures FunctionDelta(d, r) == [] <==> Ready(d, states[0]) && CleanPasses(clean) >= Passes(d, states[0])
  {
    hide Ready, Passes, Pass, ValidState, SettingsAgree, IsFunctionRead, FunctionDelta;
    RunMeasure(d, states, clean);
    SilentExactly(d, r, states[|clean|]);
  }

  /** The code is the same, as far as a pass asks. */
  ghost predicate SameCode(d: FunctionSpec, latest: Resource) {
    && (d.code.Some? && latest.spec.code.Some? ==>
          && d.code.value.imageURI == latest.spec.code.value.imageURI
          && (d.packageType == Some("Zip") && d.code.value.sha256.Some? ==> d.code.value.sha256 == latest.codeSHA256))
    && Architectures(d) == Architectures(latest.spec)
  }

  /** A duration that is to be changed does not fit. */
  ghost predicate Misfits(d: FunctionSpec, latest: Resource) {
    && SameCode(d, latest)
    && Entry(d.config, N.DURABLE_CONFIG) != Entry(latest.spec.config, N.DURABLE_CONFIG)
    && !InRange(Entry(d.config, N.DURABLE_CONFIG))
  }

  /** A field that is to be changed has nil inside, or needs code that is not there. */
  ghost predicate Dereferences(d: FunctionSpec, latest: Resource) {
    && SameCode(d, latest) && !Misfits(d, latest)
    && exists n :: Entry(d.config, n) != Entry(latest.spec.config, n)
                   && ((n == N.EPHEMERAL_STORAGE && Entry(d.config, n) == Node(Field(N.SIZE, Absent, NoFields)))
                       || (n == N.SNAP_START && Entry(d.config, n) == Node(Field(N.APPLY_ON, Absent, NoFields)))
                       || (n == N.TRACING_CONFIG && Entry(d.config, n) == Node(Field(N.MODE, Absent, NoFields)))
                       || (n == N.IMAGE_CONFIG && Entry(d.config, n) != Absent && d.code.None?))
  }

  /** The exits of a pass in terms of the two specs. */
  lemma ExitsExact(d: FunctionSpec, latest: Resource)
    requires latest.spec.code.Some?
    ensures var v := Verdict(d, latest, FunctionDelta(d, latest));
            var active := latest.state != Some("Pending");
            var signing := d.signing != latest.spec.signing && d.packageType == Some("Image")
                           && d.signing.Some? && d.signing.value != "";
            && (v == Pending <==> !active)
            && (v == SigningImpossible <==> active && signing)
            && (v == TenancyImmutable <==> active && !signing && d.tenancy != latest.spec.tenancy)
            && (v == OutOfRange <==> active && !signing && d.tenancy == latest.spec.tenancy && Misfits(d, latest))
            && (v == Panicked <==> active && !signing && d.tenancy == latest.spec.tenancy && Dereferences(d, latest))
            && v in {Pending, SigningImpossible, TenancyImmutable, OutOfRange, Panicked, Done}
  {
    hide FunctionDelta, DifferentAt, DifferentExcept, Verdict, FieldsPanic, HashDiffers, InRange, Entry;
    hide IsConfigField, Dereferences;
    var ds := FunctionDelta(d, latest);
    VerdictExact(d, latest, ds);
    NamedFieldsExact(d, latest);
    ImageExact(d, latest);
    HashExact(d, latest);
    RestExact(d, latest);
    ComparedFields();
    ConfigFieldExact(d, latest, N.DURABLE_CONFIG);
    PanicsByField(d, latest);
  }

  lemma PanicsByField(d: FunctionSpec, latest: Resource)
    ensures FieldsPanic(d, FunctionDelta(d, latest)) && SameCode(d, latest) && !Misfits(d, latest) <==>
            Dereferences(d, latest)
    ensures FieldsPanic(d, FunctionDelta(d, latest)) ==> ConfigDiffers(d, latest.spec)
  {
    hide FunctionDelta, DifferentAt, FieldsPanic, Entry, IsConfigField, SameCode, Misfits;
    ComparedFields();
    FieldsPanicExact(d, FunctionDelta(d, latest));
    ConfigFieldExact(d, latest, N.EPHEMERAL_STORAGE);
    ConfigFieldExact(d, latest, N.SNAP_START);
    ConfigFieldExact(d, latest, N.TRACING_CONFIG);
    ConfigFieldExact(d, latest, N.IMAGE_CONFIG);
  }

  lemma ComparedFields()
    ensures IsConfigField(N.DURABLE_CONFIG) && IsConfigField(N.IMAGE_CONFIG)
    ensures forall n :: HoldsPointer(n) ==> IsConfigField(n)
  {
    hide FIELDS;
    FieldAt();
  }

  /**
    Comparing a current read and updating by the delta is one pass, clean unless the function is pending or a
    call fails.
   */
  method UpdateOnce(server: Server, d: FunctionSpec, latest: Resource) returns (outcome: Outcome, ghost clean: bool)
    requires IsFunctionRead(latest, d, server.Current())
    requires Typed(d) && Typed(latest.spec)
    modifies server, server.tagServer
    ensures Pass(d, old(server.Current()), server.Current(), clean)
    ensures clean <==> outcome != Pending && outcome != CallFailed && outcome != SourceImageMissing
    ensures outcome == Pending <==> latest.state == Some("Pending")
    ensures outcome !in {Pending, CallFailed, SourceImageMissing, ReadFailed} ==>
              var signing := d.signing != latest.spec.signing && d.packageType == Some("Image")
                             && d.signing.Some? && d.signing.value != "";
              && (outcome == SigningImpossible <==> signing)
              && (outcome == TenancyImmutable <==> !signing && d.tenancy != latest.spec.tenancy)
              && (outcome == OutOfRange <==> !signing && d.tenancy == latest.spec.tenancy && Misfits(d, latest))
              && (outcome == Panicked <==> !signing && d.tenancy == latest.spec.tenancy && Dereferences(d, latest))
              && outcome in {SigningImpossible, TenancyImmutable, OutOfRange, Panicked, Done}
  {
    hide FunctionDelta, IsPending, Plan, ApplyAll, DifferentAt, DifferentExcept, Typed;
    hide Verdict, Misfits, Dereferences, InRange, Entry;
    var delta := NewResourceDelta(d, latest);
    PendingOutcome(d, latest, delta.differences);
    ExitsExact(d, latest);
    var made;
    outcome, made := CustomUpdateFunction(server, d, latest, delta.differences);
    clean := !IsPending(latest) && made == |Plan(d, latest, delta.differences)|;
  }

  lemma PendingOutcome(d: FunctionSpec, latest: Resource, ds: seq<Path>)
    ensures IsPending(latest) ==> Plan(d, latest, ds) == []
    ensures Verdict(d, latest, ds) == Pending <==> IsPending(latest)
    ensures Verdict(d, latest, ds) != CallFailed && Verdict(d, latest, ds) != SourceImageMissing
  {
  }
}
