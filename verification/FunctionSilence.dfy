/** What an empty delta says of the service, and what it does not: the fields that a read copies from the spec. */
module FunctionSilence {
  import opened Common
  import opened Deltas
  import opened FunctionSpecs
  import opened FunctionService
  import opened FunctionUpdate
  import opened FunctionTrace
  import opened FunctionConvergence
  import opened FunctionLimits
  import N = FieldNames

  /** The service holds what is wanted, or a read would not show that it does not. */
  predicate FieldUnmissed(n: N.Name, wanted: Tree, held: Tree) {
    || wanted == held
    || CopiedFromSpec(n)
    || (n == N.LAYERS && held == Blank(n))
    || (n == N.VPC_CONFIG && wanted == Clearing(n) && held == Absent)
  }

  lemma UnmissedExact(d: FunctionSpec, s: State, n: N.Name)
    ensures FieldOutstanding(d, s, n) <==> !FieldUnmissed(n, Entry(d.config, n), Entry(s.config, n))
  {
    hide Entry, Clearing;
    ClearingIsPresent(n);
  }

  /**
    An empty delta means exactly this of the service. Package type, tenancy, concurrency, event-invoke
    configuration and architectures are as desired; so is the hash where one is declared for a zip package,
    and the image where there is one. So is every configuration field but the image configuration, the
    publish flag and the references, of which nothing is said, and layers and an empty network
    configuration, which may be missing altogether. Tags may all be missing too, and so may the code
    signing configuration, of which nothing is said for an image.
   */
  lemma SilenceMeans(d: FunctionSpec, r: Resource, s: State)
    requires IsFunctionRead(r, d, s)
    ensures FunctionDelta(d, r) == [] <==>
            && d.code.Some? && d.packageType == Some(s.packageType) && d.tenancy == s.tenancy
            && d.concurrency == s.concurrency && d.invoke == ReadInvoke(s) && Architectures(d) == s.architectures
            && !HashOutstanding(d, s) && !ImageOutstanding(d, s)
            && (s.tags == d.tags || s.tags == map[])
            && (s.packageType == ZIP ==> s.signing == d.signing || s.signing.None?)
            && (forall n :: IsConfigField(n) ==> FieldUnmissed(n, Entry(d.config, n), Entry(s.config, n)))
  {
    hide FunctionDelta, IsFunctionRead, FieldOutstanding, FieldUnmissed, IsConfigField, HashOutstanding;
    hide ImageOutstanding;
    ReadDeltaEmpty(d, r, s);
    forall n ensures FieldOutstanding(d, s, n) <==> !FieldUnmissed(n, Entry(d.config, n), Entry(s.config, n)) {
      UnmissedExact(d, s, n);
    }
  }

  // ----- what is not missed stays as it is

  /** A read shows this field as wanted, whatever is wanted. */
  ghost predicate Unseen(n: N.Name, s: State) {
    CopiedFromSpec(n) || (n == N.LAYERS && Entry(s.config, n) == Blank(n))
  }

  ghost predicate LeavesField(c: Call, n: N.Name) {
    c.UpdateConfiguration? ==> n !in c.fields
  }

  lemma {:induction false} EntryKept(s: State, calls: seq<Call>, n: N.Name)
    requires forall i :: 0 <= i < |calls| ==> LeavesField(calls[i], n)
    ensures Entry(ApplyAll(s, calls).config, n) == Entry(s.config, n)
  {
    hide Apply, LeavesField, Entry;
    if calls != [] {
      var m := |calls| - 1;
      EntryKept(s, calls[..m], n);
      OneCallLeaves(ApplyAll(s, calls[..m]), calls[m], n);
    }
  }

  lemma OneCallLeaves(s: State, c: Call, n: N.Name)
    requires LeavesField(c, n)
    ensures Entry(Apply(s, c).config, n) == Entry(s.config, n)
  {
    hide Entry;
    OneCallKeeps(s, c);
    if c.UpdateConfiguration? { ConfiguredEntry(s.config, s.dropsCleared, c.fields, n); }
  }

  lemma UnseenUnsent(d: FunctionSpec, r: Resource, s: State, n: N.Name)
    requires IsFunctionRead(r, d, s) && IsConfigField(n) && Unseen(n, s)
    ensures forall c :: c in Plan(d, r, FunctionDelta(d, r)) ==> LeavesField(c, n)
  {
    hide FunctionDelta, IsFunctionRead, Plan, DifferentAt, DifferentExcept, Increasing, Sent, SENT_FIELDS;
    FieldRead(d, r, s, n);
    TraceSafety(d, r, FunctionDelta(d, r));
  }

  lemma PassLeavesUnseen(d: FunctionSpec, s: State, t: State, clean: bool, n: N.Name)
    requires Pass(d, s, t, clean) && IsConfigField(n) && Unseen(n, s)
    ensures Entry(t.config, n) == Entry(s.config, n)
  {
    hide FunctionDelta, IsFunctionRead, Plan, ApplyAll, IsPending, Unseen, LeavesField, Entry, IsConfigField;
    var r, k :|
      && IsFunctionRead(r, d, s)
      && 0 <= k <= |Plan(d, r, FunctionDelta(d, r))|
      && t == ApplyAll(s, Plan(d, r, FunctionDelta(d, r))[..k])
      && (clean <==> !IsPending(r) && k == |Plan(d, r, FunctionDelta(d, r))|);
    UnseenUnsent(d, r, s, n);
    EntryKept(s, Plan(d, r, FunctionDelta(d, r))[..k], n);
  }

  /**
    Whatever is desired, no run of updates changes the image configuration of a function, or gives it
    layers when it has none: both are sent only when they differ, and a read never shows that they do.
   */
  lemma {:induction false} UnseenStays(d: FunctionSpec, states: seq<State>, clean: seq<bool>, n: N.Name)
    requires Run(d, states, clean) && IsConfigField(n) && Unseen(n, states[0])
    ensures Entry(states[|clean|].config, n) == Entry(states[0].config, n)
  {
    hide Pass, Entry, IsConfigField;
    if clean != [] {
      var m := |clean| - 1;
      assert Run(d, states[..m + 1], clean[..m]);
      UnseenStays(d, states[..m + 1], clean[..m], n);
      assert Pass(d, states[m], states[m + 1], clean[m]);
      PassLeavesUnseen(d, states[m], states[m + 1], clean[m], n);
    }
  }

  lemma PassLeavesUnsigned(d: FunctionSpec, s: State, t: State, clean: bool)
    requires Pass(d, s, t, clean) && s.signing.None?
    ensures t.signing.None?
  {
    hide FunctionDelta, IsFunctionRead, Plan, ApplyAll, IsPending, SignsCode;
    var r, k :|
      && IsFunctionRead(r, d, s)
      && 0 <= k <= |Plan(d, r, FunctionDelta(d, r))|
      && t == ApplyAll(s, Plan(d, r, FunctionDelta(d, r))[..k])
      && (clean <==> !IsPending(r) && k == |Plan(d, r, FunctionDelta(d, r))|);
    SigningUnasked(d, r, s);
    PartsKept(s, Plan(d, r, FunctionDelta(d, r))[..k]);
  }

  /** Nor does any run give a function the code signing configuration it lacks. */
  lemma {:induction false} UnsignedStaysUnsigned(d: FunctionSpec, states: seq<State>, clean: seq<bool>)
    requires Run(d, states, clean) && states[0].signing.None?
    ensures states[|clean|].signing.None?
  {
    hide Pass;
    if clean != [] {
      var m := |clean| - 1;
      assert Run(d, states[..m + 1], clean[..m]);
      UnsignedStaysUnsigned(d, states[..m + 1], clean[..m]);
      assert Pass(d, states[m], states[m + 1], clean[m]);
      PassLeavesUnsigned(d, states[m], states[m + 1], clean[m]);
    }
  }

  /** A layer and a code signing configuration added to a function without either: there is nothing to report. */
  lemma AddedLayerUnsent() returns (d: FunctionSpec, s: State)
    ensures ValidState(s) && Typed(d)
    ensures Entry(d.config, N.LAYERS) == Leaf(List(["layer"])) && Entry(s.config, N.LAYERS) == Leaf(List([]))
    ensures d.signing == Some("arn") && s.signing.None?
    ensures forall r :: IsFunctionRead(r, d, s) ==> FunctionDelta(d, r) == []
  {
    hide Typed, IsConfigField, IsFunctionRead, FunctionDelta;
    d, s := Sample(["x86_64"], Some(ZIP), map[], map[N.LAYERS := Leaf(List(["layer"]))], map[]);
    SignedStaysTyped(d);
    d := d.(signing := Some("arn"));
    forall n ensures FieldUnmissed(n, Entry(d.config, n), Entry(s.config, n)) {
    }
    forall r | IsFunctionRead(r, d, s) ensures FunctionDelta(d, r) == [] {
      SilenceMeans(d, r, s);
    }
  }

  lemma SignedStaysTyped(d: FunctionSpec)
    requires Typed(d)
    ensures Typed(d.(signing := Some("arn")))
  {
    hide IsConfigField;
  }
}
