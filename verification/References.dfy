/** Spec fields that hold either a concrete value or a reference to another resource. */
module ReferenceSlots {
  import opened Common

  datatype From = From(name: Option<string>, namespace: Option<string>)

  datatype Ref = Ref(from: Option<From>)

  /** The kinds of resource that can be referred to. */
  datatype Kind =
    | Bucket | CodeSigningConfig | Key | Role | SecurityGroup | Subnet | Secret | Cluster | Function | Broker

  datatype Error = EmptyName | Unresolved(reason: string) | BothGiven | NoneGiven

  /**
    What the cluster answers for a reference: the target's field, or why it cannot be had (absent,
    terminal, not synced, field missing, namespace not allowed).
   */
  type Reader = (Kind, string, Option<string>) -> Result<string, string>

  /** A concrete field and its reference field. */
  datatype Slot = Slot(value: Option<string>, ref: Option<Ref>)

  /** A list of values and its list of references; nil and empty lists are one value. */
  datatype ListSlot = ListSlot(values: seq<string>, refs: seq<Option<Ref>>)

  /** The value a reference stands for; nothing when it refers to nothing. */
  function Lookup(reader: Reader, kind: Kind, ref: Option<Ref>): Result<Option<string>, Error> {
    if ref.None? || ref.value.from.None? then Ok(None)
    else
      var from := ref.value.from.value;
      if from.name.None? || from.name.value == "" then Err(EmptyName)
      else
        match reader(kind, from.name.value, from.namespace)
        case Ok(v) => Ok(Some(v))
        case Err(e) => Err(Unresolved(e))
  }

  // ----- what resolving is for, in terms of the cluster's answers alone

  /** The cluster answers a named reference with this value. */
  predicate Answers(reader: Reader, kind: Kind, from: From, value: string) {
    from.name.Some? && from.name.value != "" && reader(kind, from.name.value, from.namespace) == Ok(value)
  }

  /** The reference has no name, or the cluster does not answer it. */
  predicate Unanswered(reader: Reader, kind: Kind, from: From) {
    from.name.None? || from.name.value == "" || reader(kind, from.name.value, from.namespace).Err?
  }

  /** The error says which of the two it is. */
  predicate ErrorFor(reader: Reader, kind: Kind, from: From, error: Error) {
    if from.name.None? || from.name.value == "" then error == EmptyName
    else match reader(kind, from.name.value, from.namespace)
         case Ok(_) => false
         case Err(reason) => error == Unresolved(reason)
  }

  /** The references that refer to something, in order. */
  function LiveRefs(refs: seq<Option<Ref>>): seq<From> {
    if refs == [] then []
    else (if refs[0].Some? && refs[0].value.from.Some? then [refs[0].value.from.value] else []) + LiveRefs(refs[1..])
  }

  predicate SlotFails(reader: Reader, kind: Kind, s: Slot) {
    s.ref.Some? && s.ref.value.from.Some? && Unanswered(reader, kind, s.ref.value.from.value)
  }

  /** A field holds what the cluster answers for its reference, or else what it held. */
  predicate SlotResolved(reader: Reader, kind: Kind, before: Slot, after: Slot) {
    && after.ref == before.ref
    && if before.ref.Some? && before.ref.value.from.Some? && !Unanswered(reader, kind, before.ref.value.from.value) then
         after.value.Some? && Answers(reader, kind, before.ref.value.from.value, after.value.value)
       else after.value == before.value
  }

  predicate ListFails(reader: Reader, kind: Kind, s: ListSlot) {
    exists i :: 0 <= i < |LiveRefs(s.refs)| && Unanswered(reader, kind, LiveRefs(s.refs)[i])
  }

  /** To what the list held, one answer is added for each live reference, up to the first that is not answered. */
  ghost predicate ListResolved(reader: Reader, kind: Kind, before: ListSlot, after: ListSlot) {
    var live, n := LiveRefs(before.refs), |before.values|;
    && after.refs == before.refs
    && n <= |after.values| <= n + |live| && after.values[..n] == before.values
    && (forall i :: 0 <= i < |after.values| - n ==> Answers(reader, kind, live[i], after.values[n + i]))
    && (|after.values| < n + |live| ==> Unanswered(reader, kind, live[|after.values| - n]))
  }

  predicate Live(ref: Option<Ref>) {
    ref.Some? && ref.value.from.Some?
  }

  /** A resolved slot; unchanged when there is nothing to resolve or it cannot be resolved. */
  function Resolved(reader: Reader, kind: Kind, s: Slot): Slot {
    match Lookup(reader, kind, s.ref)
    case Ok(Some(v)) => s.(value := Some(v))
    case _ => s
  }

  function Failure(reader: Reader, kind: Kind, ref: Option<Ref>): Option<Error> {
    match Lookup(reader, kind, ref)
    case Ok(_) => None
    case Err(e) => Some(e)
  }

  /** The values a list of references stands for, up to the first that cannot be resolved, and why that one cannot. */
  function Found(reader: Reader, kind: Kind, refs: seq<Option<Ref>>): (seq<string>, Option<Error>) {
    if refs == [] then ([], None)
    else
      match Lookup(reader, kind, refs[0])
      case Err(e) => ([], Some(e))
      case Ok(None) => Found(reader, kind, refs[1..])
      case Ok(Some(v)) => var rest := Found(reader, kind, refs[1..]); ([v] + rest.0, rest.1)
  }

  function ResolvedList(reader: Reader, kind: Kind, s: ListSlot): ListSlot {
    s.(values := s.values + Found(reader, kind, s.refs).0)
  }

  function Cleared(s: Slot): Slot {
    if s.ref.Some? then s.(value := None) else s
  }

  function ClearedList(s: ListSlot): ListSlot {
    if |s.refs| > 0 then s.(values := []) else s
  }

  predicate ClearedSlot(before: Slot, after: Slot) {
    after.ref == before.ref && after.value == if before.ref.Some? then None else before.value
  }

  predicate ClearedValues(before: ListSlot, after: ListSlot) {
    after.refs == before.refs && after.values == if before.refs != [] then [] else before.values
  }

  predicate BothSet(s: Slot) {
    s.ref.Some? && s.value.Some?
  }

  predicate BothListed(s: ListSlot) {
    |s.refs| > 0 && |s.values| > 0
  }

  /**
    Clearing forgets everything resolving did, and changes nothing exactly where reference and value exclude
    each other.
   */
  lemma ClearForgetsResolve(reader: Reader, kind: Kind, s: Slot)
    ensures Cleared(Resolved(reader, kind, s)) == Cleared(s)
    ensures Cleared(s) == s <==> !BothSet(s)
  {
  }

  lemma ClearForgetsResolveList(reader: Reader, kind: Kind, s: ListSlot)
    ensures ClearedList(ResolvedList(reader, kind, s)) == ClearedList(s)
    ensures ClearedList(s) == s <==> !BothListed(s)
  {
  }

  /** The number of references that refer to something. */
  function LiveCount(refs: seq<Option<Ref>>): nat {
    if refs == [] then 0 else (if Live(refs[0]) then 1 else 0) + LiveCount(refs[1..])
  }

  lemma {:induction false} FoundCount(reader: Reader, kind: Kind, refs: seq<Option<Ref>>)
    ensures |Found(reader, kind, refs).0| <= LiveCount(refs)
    ensures Found(reader, kind, refs).1.None? ==> |Found(reader, kind, refs).0| == LiveCount(refs)
  {
    if refs != [] { FoundCount(reader, kind, refs[1..]); }
  }

  /** Without clearing, resolving a list again adds its values again, unless no reference is live. */
  lemma ResolvingTwiceRepeats(reader: Reader, kind: Kind, s: ListSlot)
    requires Found(reader, kind, s.refs).1.None?
    ensures var once := ResolvedList(reader, kind, s);
            var twice := ResolvedList(reader, kind, once);
            && twice.values == s.values + Found(reader, kind, s.refs).0 + Found(reader, kind, s.refs).0
            && (twice == once <==> LiveCount(s.refs) == 0)
  {
    FoundCount(reader, kind, s.refs);
  }

  /** What is found are the answers to the live references, up to the first that is not answered. */
  lemma {:induction false} FoundExact(reader: Reader, kind: Kind, refs: seq<Option<Ref>>)
    ensures var live, found := LiveRefs(refs), Found(reader, kind, refs);
            && |found.0| <= |live|
            && (forall i :: 0 <= i < |found.0| ==> Answers(reader, kind, live[i], found.0[i]))
            && (found.1.None? <==> |found.0| == |live|)
            && (found.1.Some? ==> ErrorFor(reader, kind, live[|found.0|], found.1.value))
  {
    hide Found, LiveRefs, Lookup, Answers, ErrorFor;
    if refs == [] {
      NothingFound(reader, kind);
    } else {
      FoundExact(reader, kind, refs[1..]);
      FirstFound(reader, kind, refs);
      LookupExact(reader, kind, refs[0]);
    }
  }

  lemma NothingFound(reader: Reader, kind: Kind)
    ensures Found(reader, kind, []) == ([], None) && LiveRefs([]) == []
  {
  }

  lemma FirstFound(reader: Reader, kind: Kind, refs: seq<Option<Ref>>)
    requires refs != []
    ensures var rest := Found(reader, kind, refs[1..]);
            Found(reader, kind, refs) ==
            match Lookup(reader, kind, refs[0])
            case Err(e) => ([], Some(e))
            case Ok(None) => rest
            case Ok(Some(v)) => ([v] + rest.0, rest.1)
    ensures LiveRefs(refs) == (if Live(refs[0]) then [refs[0].value.from.value] else []) + LiveRefs(refs[1..])
  {
  }

  lemma LookupExact(reader: Reader, kind: Kind, ref: Option<Ref>)
    ensures match Lookup(reader, kind, ref)
            case Err(e) => Live(ref) && ErrorFor(reader, kind, ref.value.from.value, e)
            case Ok(None) => !Live(ref)
            case Ok(Some(v)) => Live(ref) && Answers(reader, kind, ref.value.from.value, v)
  {
  }

  lemma ListResolvedExact(reader: Reader, kind: Kind, s: ListSlot)
    ensures ListResolved(reader, kind, s, ResolvedList(reader, kind, s))
    ensures Found(reader, kind, s.refs).1.Some? <==> ListFails(reader, kind, s)
  {
    hide Found, Answers, Unanswered, LiveRefs, ErrorFor;
    FoundExact(reader, kind, s.refs);
    AnsweredOrNot(reader, kind);
  }

  lemma AnswersExact(reader: Reader, kind: Kind)
    ensures forall from, v :: Answers(reader, kind, from, v) ==>
              from.name.Some? && reader(kind, from.name.value, from.namespace) == Ok(v)
  {
  }

  /** The live references of a list are those of its parts, in order. */
  lemma {:induction false} LiveRefsExact(a: seq<Option<Ref>>, b: seq<Option<Ref>>)
    ensures LiveRefs(a + b) == LiveRefs(a) + LiveRefs(b)
  {
    hide LiveRefs;
    LiveRefsUnfolded(a);
    if a == [] {
      assert a + b == b;
    } else {
      LiveRefsUnfolded(a + b);
      assert (a + b)[1..] == a[1..] + b;
      LiveRefsExact(a[1..], b);
    }
  }

  lemma LiveRefsUnfolded(refs: seq<Option<Ref>>)
    ensures refs == [] ==> LiveRefs(refs) == []
    ensures refs != [] ==> LiveRefs(refs) == LiveRefs([refs[0]]) + LiveRefs(refs[1..])
  {
    if refs != [] { SingleLiveRef(refs[0]); }
  }

  /** An entry that refers to nothing has none. */
  lemma SingleLiveRef(ref: Option<Ref>)
    ensures LiveRefs([ref]) == if ref.Some? && ref.value.from.Some? then [ref.value.from.value] else []
  {
    assert [ref][1..] == [];
  }

  lemma {:induction false} LiveCountExact(refs: seq<Option<Ref>>)
    ensures LiveCount(refs) == |LiveRefs(refs)|
  {
    if refs != [] { LiveCountExact(refs[1..]); }
  }

  lemma AnsweredOrNot(reader: Reader, kind: Kind)
    ensures forall from, v :: Answers(reader, kind, from, v) ==> !Unanswered(reader, kind, from)
    ensures forall from, e :: ErrorFor(reader, kind, from, e) ==> Unanswered(reader, kind, from)
  {
  }

  lemma SlotResolvedExact(reader: Reader, kind: Kind, s: Slot)
    ensures SlotResolved(reader, kind, s, Resolved(reader, kind, s))
    ensures Failure(reader, kind, s.ref).Some? <==> SlotFails(reader, kind, s)
  {
  }

  /** The loop of a list resolver: values are appended as found, and stay when a later reference fails. */
  method ResolveList(reader: Reader, kind: Kind, s: ListSlot) returns (r: ListSlot, has: bool, err: Option<Error>)
    ensures r == ResolvedList(reader, kind, s)
    ensures |s.values| <= |r.values| <= |s.values| + |LiveRefs(s.refs)|
    ensures r.refs == s.refs && r.values[..|s.values|] == s.values
    ensures forall i :: 0 <= i < |r.values| - |s.values| ==>
              var from := LiveRefs(s.refs)[i];
              from.name.Some? && reader(kind, from.name.value, from.namespace) == Ok(r.values[|s.values| + i])
    ensures err.None? <==> |r.values| == |s.values| + |LiveRefs(s.refs)|
    ensures has <==> LiveRefs(s.refs) != []
    ensures ListResolved(reader, kind, s, r) && (err.Some? <==> ListFails(reader, kind, s))
    ensures err.Some? ==> var m := |r.values| - |s.values|;
              0 <= m < |LiveRefs(s.refs)| && ErrorFor(reader, kind, LiveRefs(s.refs)[m], err.value)
    ensures err == Found(reader, kind, s.refs).1
    ensures has <==> LiveCount(s.refs) > 0
    ensures err.Some? ==> has
  {
    hide Found, LiveCount, ListResolved, ListFails, LiveRefs, ErrorFor, Answers;
    ListResolvedExact(reader, kind, s);
    FoundExact(reader, kind, s.refs);
    AnswersExact(reader, kind);
    LiveCountExact(s.refs);
    r, has, err := s, false, None;
    NothingMore(reader, kind, s.refs);
    for i := 0 to |s.refs|
      invariant err.None? && r.refs == s.refs
      invariant Found(reader, kind, s.refs).1 == Found(reader, kind, s.refs[i..]).1
      invariant s.values + Found(reader, kind, s.refs).0 == r.values + Found(reader, kind, s.refs[i..]).0
      invariant LiveCount(s.refs) == LiveCount(s.refs[..i]) + LiveCount(s.refs[i..])
      invariant has <==> LiveCount(s.refs[..i]) > 0
    {
      var ref := s.refs[i];
      FoundStep(reader, kind, s.refs, i);
      CountOneMore(s.refs, i);
      if ref.Some? && ref.value.from.Some? {
        has := true;
        var from := ref.value.from.value;
        if from.name.None? || from.name.value == "" {
          err := Some(EmptyName);
          return;
        }
        var answer := reader(kind, from.name.value, from.namespace);
        if answer.Err? {
          err := Some(Unresolved(answer.error));
          return;
        }
        r := r.(values := r.values + [answer.value]);
      }
    }
  }

  /** What the reference at `i` contributes to what is found from there on. */
  lemma FoundStep(reader: Reader, kind: Kind, refs: seq<Option<Ref>>, i: nat)
    requires i < |refs|
    ensures var rest := Found(reader, kind, refs[i + 1..]);
            Found(reader, kind, refs[i..]) ==
            match Lookup(reader, kind, refs[i])
            case Err(e) => ([], Some(e))
            case Ok(None) => rest
            case Ok(Some(v)) => ([v] + rest.0, rest.1)
  {
  }

  lemma NothingMore(reader: Reader, kind: Kind, refs: seq<Option<Ref>>)
    ensures refs[0..] == refs && Found(reader, kind, refs[|refs|..]) == ([], None)
    ensures LiveCount(refs[..0]) == 0 && refs[..|refs|] == refs && LiveCount(refs[|refs|..]) == 0
  {
  }

  lemma {:induction false} CountOneMore(refs: seq<Option<Ref>>, i: nat)
    requires i < |refs|
    ensures LiveCount(refs[..i + 1]) == LiveCount(refs[..i]) + (if Live(refs[i]) then 1 else 0)
    ensures LiveCount(refs[i..]) == (if Live(refs[i]) then 1 else 0) + LiveCount(refs[i + 1..])
    decreases i
  {
    assert refs[i..][1..] == refs[i + 1..];
    if i > 0 {
      CountOneMore(refs[1..], i - 1);
      assert refs[..i + 1][1..] == refs[1..][..i] && refs[..i][1..] == refs[1..][..i - 1];
    } else {
      assert refs[..1][1..] == [];
    }
  }

  /** The body of a single-field resolver. */
  method ResolveSlot(reader: Reader, kind: Kind, s: Slot) returns (r: Slot, has: bool, err: Option<Error>)
    ensures r == Resolved(reader, kind, s)
    ensures s.ref.None? || s.ref.value.from.None? ==> r == s && err.None? && !has
    ensures s.ref.Some? && s.ref.value.from.Some? ==>
              var from := s.ref.value.from.value;
              && has
              && (from.name in {None, Some("")} ==> r == s && err == Some(EmptyName))
              && (from.name !in {None, Some("")} ==>
                    match reader(kind, from.name.value, from.namespace)
                    case Ok(v) => r == s.(value := Some(v)) && err.None?
                    case Err(e) => r == s && err == Some(Unresolved(e)))
    ensures SlotResolved(reader, kind, s, r) && (err.Some? <==> SlotFails(reader, kind, s))
    ensures err.Some? ==> ErrorFor(reader, kind, s.ref.value.from.value, err.value)
    ensures err == Failure(reader, kind, s.ref)
    ensures has <==> Live(s.ref)
    ensures err.Some? ==> has
  {
    r, has, err := s, false, None;
    if s.ref.Some? && s.ref.value.from.Some? {
      has := true;
      var from := s.ref.value.from.value;
      if from.name.None? || from.name.value == "" {
        return r, has, Some(EmptyName);
      }
      var answer := reader(kind, from.name.value, from.namespace);
      if answer.Err? {
        return r, has, Some(Unresolved(answer.error));
      }
      r := r.(value := Some(answer.value));
    }
  }
}

/** The references of a function, resolved one field after another in place. */
module FunctionReferences {
  import opened Common
  import opened ReferenceSlots

  datatype VPC = VPC(securityGroups: ListSlot, subnets: ListSlot)

  /** The fields of a function spec that have references. */
  datatype Spec = Spec(
    bucket: Option<Slot>,
    codeSigning: Slot,
    kmsKey: Slot,
    role: Slot,
    vpc: Option<VPC>)

  // ----- ClearResolvedReferences

  function Clear(s: Spec): Spec {
    Spec(
      if s.bucket.Some? then Some(Cleared(s.bucket.value)) else None,
      Cleared(s.codeSigning),
      Cleared(s.kmsKey),
      Cleared(s.role),
      if s.vpc.Some? then Some(VPC(ClearedList(s.vpc.value.securityGroups), ClearedList(s.vpc.value.subnets)))
          else None)
  }

  // ----- validateReferenceFields

  predicate NoneHasBoth(s: Spec) {
    && (s.bucket.Some? ==> !BothSet(s.bucket.value))
    && !BothSet(s.codeSigning) && !BothSet(s.kmsKey) && !BothSet(s.role)
    && (s.vpc.Some? ==> !BothListed(s.vpc.value.securityGroups) && !BothListed(s.vpc.value.subnets))
  }

  function Validate(s: Spec): Option<Error> {
    if s.bucket.Some? && BothSet(s.bucket.value) then Some(BothGiven)
    else if BothSet(s.codeSigning) then Some(BothGiven)
    else if BothSet(s.kmsKey) then Some(BothGiven)
    else if BothSet(s.role) then Some(BothGiven)
    else if s.role.ref.None? && s.role.value.None? then Some(NoneGiven)
    else if s.vpc.Some? && BothListed(s.vpc.value.securityGroups) then Some(BothGiven)
    else if s.vpc.Some? && BothListed(s.vpc.value.subnets) then Some(BothGiven)
    else None
  }

  /** A role that is not given is complained of only after bucket, code signing, key and role have been checked. */
  lemma ValidMeans(s: Spec)
    ensures Validate(s).None? <==> NoneHasBoth(s) && (s.role.ref.Some? || s.role.value.Some?)
    ensures Validate(s) == Some(NoneGiven) <==>
              && s.role.ref.None? && s.role.value.None?
              && (s.bucket.Some? ==> s.bucket.value.ref.None? || s.bucket.value.value.None?)
              && (s.codeSigning.ref.None? || s.codeSigning.value.None?)
              && (s.kmsKey.ref.None? || s.kmsKey.value.None?)
    ensures Validate(s) in {None, Some(NoneGiven), Some(BothGiven)}
  {
  }

  /** No field has both a reference and a value, a list of references and a list of values. */
  lemma NoneHasBothExact(s: Spec)
    ensures NoneHasBoth(s) <==>
              && (s.bucket.Some? ==> s.bucket.value.ref.None? || s.bucket.value.value.None?)
              && (s.codeSigning.ref.None? || s.codeSigning.value.None?)
              && (s.kmsKey.ref.None? || s.kmsKey.value.None?) && (s.role.ref.None? || s.role.value.None?)
              && (s.vpc.Some? ==> s.vpc.value.securityGroups.refs == [] || s.vpc.value.securityGroups.values == [])
              && (s.vpc.Some? ==> s.vpc.value.subnets.refs == [] || s.vpc.value.subnets.values == [])
  {
  }

  // ----- ResolveReferences, field by field

  /** The spec so far and the error that stopped resolving, if any. */
  datatype Progress = Progress(spec: Spec, error: Option<Error>)

  function Bucketed(r: Reader, p: Progress): Progress {
    if p.error.Some? || p.spec.bucket.None? then p
    else Progress(p.spec.(bucket := Some(Resolved(r, Bucket, p.spec.bucket.value))),
                  Failure(r, Bucket, p.spec.bucket.value.ref))
  }

  function Signed(r: Reader, p: Progress): Progress {
    if p.error.Some? then p
    else Progress(p.spec.(codeSigning := Resolved(r, CodeSigningConfig, p.spec.codeSigning)),
                  Failure(r, CodeSigningConfig, p.spec.codeSigning.ref))
  }

  function Keyed(r: Reader, p: Progress): Progress {
    if p.error.Some? then p
    else Progress(p.spec.(kmsKey := Resolved(r, Key, p.spec.kmsKey)), Failure(r, Key, p.spec.kmsKey.ref))
  }

  function Roled(r: Reader, p: Progress): Progress {
    if p.error.Some? then p
    else Progress(p.spec.(role := Resolved(r, Role, p.spec.role)), Failure(r, Role, p.spec.role.ref))
  }

  function Grouped(r: Reader, p: Progress): Progress {
    if p.error.Some? || p.spec.vpc.None? then p
    else
      var v := p.spec.vpc.value;
      Progress(p.spec.(vpc := Some(v.(securityGroups := ResolvedList(r, SecurityGroup, v.securityGroups)))),
               Found(r, SecurityGroup, v.securityGroups.refs).1)
  }

  function Netted(r: Reader, p: Progress): Progress {
    if p.error.Some? || p.spec.vpc.None? then p
    else
      var v := p.spec.vpc.value;
      Progress(p.spec.(vpc := Some(v.(subnets := ResolvedList(r, Subnet, v.subnets)))),
               Found(r, Subnet, v.subnets.refs).1)
  }

  /** All six resolvers in order; once one fails, the rest change nothing. */
  function Resolve(r: Reader, s: Spec): Progress {
    Netted(r, Grouped(r, Roled(r, Keyed(r, Signed(r, Bucketed(r, Progress(s, None)))))))
  }

  predicate HasReferences(s: Spec) {
    || (s.bucket.Some? && Live(s.bucket.value.ref))
    || Live(s.codeSigning.ref) || Live(s.kmsKey.ref) || Live(s.role.ref)
    || (s.vpc.Some? && (LiveCount(s.vpc.value.securityGroups.refs) > 0 || LiveCount(s.vpc.value.subnets.refs) > 0))
  }

  /**
    Field by field, in terms of the cluster's answers: each field is resolved as the kind it refers to,
    unless a field before it has failed, and then it is as it was.
   */
  ghost predicate ResolvedFrom(reader: Reader, before: Spec, after: Spec) {
    var bucketFails := before.bucket.Some? && SlotFails(reader, Bucket, before.bucket.value);
    var signingFails := bucketFails || SlotFails(reader, CodeSigningConfig, before.codeSigning);
    var keyFails := signingFails || SlotFails(reader, Key, before.kmsKey);
    var roleFails := keyFails || SlotFails(reader, Role, before.role);
    && before.bucket.Some? == after.bucket.Some? && before.vpc.Some? == after.vpc.Some?
    && (before.bucket.Some? ==> SlotResolved(reader, Bucket, before.bucket.value, after.bucket.value))
    && (if bucketFails then after.codeSigning == before.codeSigning
        else SlotResolved(reader, CodeSigningConfig, before.codeSigning, after.codeSigning))
    && (if signingFails then after.kmsKey == before.kmsKey else SlotResolved(reader, Key, before.kmsKey, after.kmsKey))
    && (if keyFails then after.role == before.role else SlotResolved(reader, Role, before.role, after.role))
    && (before.vpc.Some? ==>
          var groups, subnets := before.vpc.value.securityGroups, before.vpc.value.subnets;
          && (if roleFails then after.vpc.value.securityGroups == groups
              else ListResolved(reader, SecurityGroup, groups, after.vpc.value.securityGroups))
          && (if roleFails || ListFails(reader, SecurityGroup, groups) then after.vpc.value.subnets == subnets
              else ListResolved(reader, Subnet, subnets, after.vpc.value.subnets)))
  }

  /** Some reference of the spec is not answered. */
  predicate SomeFails(reader: Reader, s: Spec) {
    || (s.bucket.Some? && SlotFails(reader, Bucket, s.bucket.value))
    || SlotFails(reader, CodeSigningConfig, s.codeSigning)
    || SlotFails(reader, Key, s.kmsKey)
    || SlotFails(reader, Role, s.role)
    || (s.vpc.Some? && (ListFails(reader, SecurityGroup, s.vpc.value.securityGroups)
                        || ListFails(reader, Subnet, s.vpc.value.subnets)))
  }

  lemma ResolveExact(r: Reader, s: Spec)
    ensures ResolvedFrom(r, s, Resolve(r, s).spec)
    ensures Resolve(r, s).error.Some? <==> SomeFails(r, s)
  {
    hide Resolved, ResolvedList, Failure, Found, SlotFails, SlotResolved, ListFails, ListResolved;
    if s.bucket.Some? { SlotResolvedExact(r, Bucket, s.bucket.value); }
    SlotResolvedExact(r, CodeSigningConfig, s.codeSigning);
    SlotResolvedExact(r, Key, s.kmsKey);
    SlotResolvedExact(r, Role, s.role);
    if s.vpc.Some? {
      ListResolvedExact(r, SecurityGroup, s.vpc.value.securityGroups);
      ListResolvedExact(r, Subnet, s.vpc.value.subnets);
    }
  }

  /** After an error the network configuration is left alone. */
  lemma NothingAfterFailure(r: Reader)
    ensures forall p: Progress :: p.error.Some? ==> Netted(r, Grouped(r, p)) == p
  {
  }

  class FunctionObject {
    var spec: Spec

    constructor (spec: Spec)
      ensures this.spec == spec
    {
      this.spec := spec;
    }

    /** Works on a copy: this object keeps its values. */
    method ClearResolvedReferences() returns (copy: FunctionObject)
      ensures fresh(copy) && copy.spec == Clear(spec)
    {
      copy := new FunctionObject(spec);
      if copy.spec.bucket.Some? {
        if copy.spec.bucket.value.ref.Some? {
          copy.spec := copy.spec.(bucket := Some(copy.spec.bucket.value.(value := None)));
        }
      }
      if copy.spec.codeSigning.ref.Some? {
        copy.spec := copy.spec.(codeSigning := copy.spec.codeSigning.(value := None));
      }
      if copy.spec.kmsKey.ref.Some? {
        copy.spec := copy.spec.(kmsKey := copy.spec.kmsKey.(value := None));
      }
      if copy.spec.role.ref.Some? {
        copy.spec := copy.spec.(role := copy.spec.role.(value := None));
      }
      if copy.spec.vpc.Some? {
        var v := copy.spec.vpc.value;
        if |v.securityGroups.refs| > 0 {
          copy.spec := copy.spec.(vpc := Some(v.(securityGroups := v.securityGroups.(values := []))));
        }
      }
      if copy.spec.vpc.Some? {
        var v := copy.spec.vpc.value;
        if |v.subnets.refs| > 0 {
          copy.spec := copy.spec.(vpc := Some(v.(subnets := v.subnets.(values := []))));
        }
      }
    }

    /** The two resolvers of the network configuration. */
    method ResolveNetwork(reader: Reader) returns (has: bool, err: Option<Error>)
      modifies this
      ensures var p := Netted(reader, Grouped(reader, Progress(old(spec), None))); spec == p.spec && err == p.error
      ensures has <==> old(spec).vpc.Some? && (LiveCount(old(spec).vpc.value.securityGroups.refs) > 0
                                               || LiveCount(old(spec).vpc.value.subnets.refs) > 0)
    {
      hide ResolvedList, Found, LiveCount, ListResolved, ListFails, ErrorFor, LiveRefs;
      has, err := false, None;
      var fieldHas;
      if spec.vpc.Some? {
        var list;
        list, fieldHas, err := ResolveList(reader, SecurityGroup, spec.vpc.value.securityGroups);
        spec := spec.(vpc := Some(spec.vpc.value.(securityGroups := list)));
        has := has || fieldHas;
        if err.Some? { return; }
      }
      if spec.vpc.Some? {
        var list;
        list, fieldHas, err := ResolveList(reader, Subnet, spec.vpc.value.subnets);
        spec := spec.(vpc := Some(spec.vpc.value.(subnets := list)));
        has := has || fieldHas;
      }
    }

    /**
      Resolves in place. The validation error is only returned when no resolver fails: a spec that
      gives both a value and a reference is resolved all the same.
     */
    method ResolveReferences(reader: Reader) returns (has: bool, err: Option<Error>)
      modifies this
      ensures ResolvedFrom(reader, old(spec), spec)
      ensures SomeFails(reader, old(spec)) ==> err.Some?
      ensures !SomeFails(reader, old(spec)) ==> err == Validate(old(spec))
      ensures spec == Resolve(reader, old(spec)).spec
      ensures err == (if Resolve(reader, old(spec)).error.Some? then Resolve(reader, old(spec)).error
                      else Validate(old(spec)))
      ensures has <==> HasReferences(old(spec))
    {
      hide Resolved, Failure, ResolvedList, Found, LiveCount, Live, Validate, ResolvedFrom, SomeFails;
      hide SlotResolved, SlotFails, ListResolved, ListFails, ErrorFor, LiveRefs, Grouped, Netted;
      ResolveExact(reader, spec);
      NothingAfterFailure(reader);
      has := false;
      var validation := Validate(spec);
      var fieldHas;
      if spec.bucket.Some? {
        var slot;
        slot, fieldHas, err := ResolveSlot(reader, Bucket, spec.bucket.value);
        spec := spec.(bucket := Some(slot));
        has := has || fieldHas;
        if err.Some? { return; }
      }
      var slot;
      slot, fieldHas, err := ResolveSlot(reader, CodeSigningConfig, spec.codeSigning);
      spec := spec.(codeSigning := slot);
      has := has || fieldHas;
      if err.Some? { return; }
      slot, fieldHas, err := ResolveSlot(reader, Key, spec.kmsKey);
      spec := spec.(kmsKey := slot);
      has := has || fieldHas;
      if err.Some? { return; }
      slot, fieldHas, err := ResolveSlot(reader, Role, spec.role);
      spec := spec.(role := slot);
      has := has || fieldHas;
      if err.Some? { return; }
      fieldHas, err := ResolveNetwork(reader);
      has := has || fieldHas;
      if err.Some? { return; }
      err := validation;
    }
  }

  // ----- the main results

  /** One resolver never changes what clearing leaves. */
  lemma StepsForgotten(r: Reader, p: Progress)
    ensures Clear(Bucketed(r, p).spec) == Clear(p.spec)
    ensures Clear(Signed(r, p).spec) == Clear(p.spec)
    ensures Clear(Keyed(r, p).spec) == Clear(p.spec)
    ensures Clear(Roled(r, p).spec) == Clear(p.spec)
    ensures Clear(Grouped(r, p).spec) == Clear(p.spec)
    ensures Clear(Netted(r, p).spec) == Clear(p.spec)
  {
    hide Resolved, ResolvedList, Cleared, ClearedList;
    var s := p.spec;
    if s.bucket.Some? { ClearForgetsResolve(r, Bucket, s.bucket.value); }
    ClearForgetsResolve(r, CodeSigningConfig, s.codeSigning);
    ClearForgetsResolve(r, Key, s.kmsKey);
    ClearForgetsResolve(r, Role, s.role);
    if s.vpc.Some? {
      ClearForgetsResolveList(r, SecurityGroup, s.vpc.value.securityGroups);
      ClearForgetsResolveList(r, Subnet, s.vpc.value.subnets);
    }
  }

  /** Whatever the cluster answered, and wherever resolving stopped, clearing leaves what it would have left before. */
  lemma ClearUndoesResolve(r: Reader, s: Spec)
    ensures Clear(Resolve(r, s).spec) == Clear(s)
  {
    hide Clear, Bucketed, Signed, Keyed, Roled, Grouped, Netted;
    var p0 := Progress(s, None);
    var p1 := Bucketed(r, p0);
    var p2 := Signed(r, p1);
    var p3 := Keyed(r, p2);
    var p4 := Roled(r, p3);
    var p5 := Grouped(r, p4);
    StepsForgotten(r, p0);
    StepsForgotten(r, p1);
    StepsForgotten(r, p2);
    StepsForgotten(r, p3);
    StepsForgotten(r, p4);
    StepsForgotten(r, p5);
  }

  /** Clearing restores the original spec exactly when it gave no field both a value and a reference. */
  lemma ClearRestores(r: Reader, s: Spec)
    ensures Clear(Resolve(r, s).spec) == s <==> NoneHasBoth(s)
    ensures Clear(Clear(s)) == Clear(s)
  {
    hide Cleared, ClearedList, Resolve, BothSet, BothListed;
    ClearUndoesResolve(r, s);
    ClearsOnly(s);
    ClearsOnly(Clear(s));
  }

  /** Field by field: a value goes exactly where there is a reference, and nothing else changes. */
  lemma ClearExact(s: Spec)
    ensures Clear(s).bucket.Some? == s.bucket.Some? && Clear(s).vpc.Some? == s.vpc.Some?
    ensures s.bucket.Some? ==> ClearedSlot(s.bucket.value, Clear(s).bucket.value)
    ensures ClearedSlot(s.codeSigning, Clear(s).codeSigning) && ClearedSlot(s.kmsKey, Clear(s).kmsKey)
    ensures ClearedSlot(s.role, Clear(s).role)
    ensures s.vpc.Some? ==> ClearedValues(s.vpc.value.securityGroups, Clear(s).vpc.value.securityGroups)
    ensures s.vpc.Some? ==> ClearedValues(s.vpc.value.subnets, Clear(s).vpc.value.subnets)
  {
  }

  lemma ClearsOnly(s: Spec)
    ensures Clear(s) == s <==> NoneHasBoth(s)
    ensures NoneHasBoth(Clear(s))
  {
  }

  /**
    Retrying is safe: after clearing, a second attempt under any later answers of the cluster gives
    what a first attempt under those answers would have given, although the lists are appended to.
   */
  lemma RetryAfterClear(r1: Reader, r2: Reader, s: Spec)
    ensures Resolve(r2, Clear(Resolve(r1, s).spec)) == Resolve(r2, Clear(s))
    ensures NoneHasBoth(s) ==> Resolve(r2, Clear(Resolve(r1, s).spec)) == Resolve(r2, s)
  {
    ClearUndoesResolve(r1, s);
    ClearsOnly(s);
  }

  /** When no resolver fails, every live reference has become the value it stands for, and nothing else has changed. */
  lemma ResolvedCompletely(r: Reader, s: Spec)
    requires Resolve(r, s).error.None?
    ensures Resolve(r, s).spec == Spec(
              if s.bucket.Some? then Some(Resolved(r, Bucket, s.bucket.value)) else None,
              Resolved(r, CodeSigningConfig, s.codeSigning),
              Resolved(r, Key, s.kmsKey),
              Resolved(r, Role, s.role),
              if s.vpc.Some? then Some(VPC(ResolvedList(r, SecurityGroup, s.vpc.value.securityGroups),
                                           ResolvedList(r, Subnet, s.vpc.value.subnets))) else None)
    ensures s.vpc.Some? ==> Found(r, SecurityGroup, s.vpc.value.securityGroups.refs).1.None?
                            && Found(r, Subnet, s.vpc.value.subnets.refs).1.None?
  {
  }

  /**
    When no resolver fails, each field with a live reference holds what the cluster answers for it, asked
    for the kind the field refers to; the lists hold the answers after what they held, in order.
   */
  lemma FieldsAnswered(r: Reader, s: Spec, from: From)
    requires Resolve(r, s).error.None?
    ensures var t := Resolve(r, s).spec;
            var ref := Some(Ref(Some(from)));
            var name, namespace := if from.name.Some? then from.name.value else "", from.namespace;
            && (s.bucket.Some? && s.bucket.value.ref == ref ==>
                  t.bucket.Some? && t.bucket.value.value.Some?
                      && r(Bucket, name, namespace) == Ok(t.bucket.value.value.value))
            && (s.codeSigning.ref == ref ==>
                  t.codeSigning.value.Some? && r(CodeSigningConfig, name, namespace) == Ok(t.codeSigning.value.value))
            && (s.kmsKey.ref == ref ==> t.kmsKey.value.Some? && r(Key, name, namespace) == Ok(t.kmsKey.value.value))
            && (s.role.ref == ref ==> t.role.value.Some? && r(Role, name, namespace) == Ok(t.role.value.value))
  {
    hide Resolve, ListResolved, ListFails;
    ResolveExact(r, s);
  }

  lemma ListsAnswered(r: Reader, s: Spec)
    requires Resolve(r, s).error.None? && s.vpc.Some?
    ensures var t := Resolve(r, s).spec;
            var groups, subnets := s.vpc.value.securityGroups, s.vpc.value.subnets;
            && t.vpc.Some?
            && |t.vpc.value.securityGroups.values| == |groups.values| + |LiveRefs(groups.refs)|
            && (forall i :: 0 <= i < |LiveRefs(groups.refs)| ==>
                  var from := LiveRefs(groups.refs)[i];
                  from.name.Some? && r(SecurityGroup, from.name.value, from.namespace)
                                     == Ok(t.vpc.value.securityGroups.values[|groups.values| + i]))
            && |t.vpc.value.subnets.values| == |subnets.values| + |LiveRefs(subnets.refs)|
            && (forall i :: 0 <= i < |LiveRefs(subnets.refs)| ==>
                  var from := LiveRefs(subnets.refs)[i];
                  from.name.Some? && r(Subnet, from.name.value, from.namespace)
                                     == Ok(t.vpc.value.subnets.values[|subnets.values| + i]))
  {
    hide Resolve, SlotResolved, SlotFails, LiveRefs, Unanswered, Answers;
    ResolveExact(r, s);
    AnswersExact(r, SecurityGroup);
    AnswersExact(r, Subnet);
  }

  /** Whether the spec has references at all. */
  lemma HasReferencesExact(s: Spec)
    ensures HasReferences(s) <==>
              || (s.bucket.Some? && s.bucket.value.ref.Some? && s.bucket.value.ref.value.from.Some?)
              || (s.codeSigning.ref.Some? && s.codeSigning.ref.value.from.Some?)
              || (s.kmsKey.ref.Some? && s.kmsKey.ref.value.from.Some?)
              || (s.role.ref.Some? && s.role.ref.value.from.Some?)
              || (s.vpc.Some? && (LiveRefs(s.vpc.value.securityGroups.refs) != []
                                  || LiveRefs(s.vpc.value.subnets.refs) != []))
  {
    if s.vpc.Some? {
      LiveCountExact(s.vpc.value.securityGroups.refs);
      LiveCountExact(s.vpc.value.subnets.refs);
    }
  }

}

/** The references of an event source mapping: URIs inside a list of structures, single fields, and queues. */
module EventSourceReferences {
  import opened Common
  import opened ReferenceSlots

  datatype Spec = Spec(accessConfigs: seq<Slot>, eventSource: Slot, function_: Slot, queues: ListSlot)

  function ClearedEach(slots: seq<Slot>): seq<Slot> {
    seq(|slots|, i requires 0 <= i < |slots| => Cleared(slots[i]))
  }

  function Clear(s: Spec): Spec {
    Spec(ClearedEach(s.accessConfigs), Cleared(s.eventSource), Cleared(s.function_), ClearedList(s.queues))
  }

  /** Elements before the first failing one are resolved, the others are as they were. */
  function ResolvedEach(r: Reader, slots: seq<Slot>): (seq<Slot>, Option<Error>) {
    if slots == [] then ([], None)
    else if Failure(r, Secret, slots[0].ref).Some? then (slots, Failure(r, Secret, slots[0].ref))
    else var rest := ResolvedEach(r, slots[1..]); ([Resolved(r, Secret, slots[0])] + rest.0, rest.1)
  }

  function Resolve(r: Reader, s: Spec): (Spec, Option<Error>) {
    var uris := ResolvedEach(r, s.accessConfigs);
    var s1 := s.(accessConfigs := uris.0);
    if uris.1.Some? then (s1, uris.1)
    else
      var s2 := s1.(eventSource := Resolved(r, Cluster, s1.eventSource));
      if Failure(r, Cluster, s.eventSource.ref).Some? then (s2, Failure(r, Cluster, s.eventSource.ref))
      else
        var s3 := s2.(function_ := Resolved(r, Function, s2.function_));
        if Failure(r, Function, s.function_.ref).Some? then (s3, Failure(r, Function, s.function_.ref))
        else (s3.(queues := ResolvedList(r, Broker, s3.queues)), Found(r, Broker, s.queues.refs).1)
  }

  predicate NoneHasBoth(s: Spec) {
    && (forall i :: 0 <= i < |s.accessConfigs| ==> !BothSet(s.accessConfigs[i]))
    && !BothSet(s.eventSource) && !BothSet(s.function_) && !BothListed(s.queues)
  }

  ghost predicate AnyLive(slots: seq<Slot>) {
    exists i :: 0 <= i < |slots| && Live(slots[i].ref)
  }

  /** The elements are structures shared through a slice: the loop assigns into them. */
  method ResolveAccessConfigs(configs: array<Slot>, reader: Reader) returns (has: bool, err: Option<Error>)
    modifies configs
    ensures configs[..] == ResolvedEach(reader, old(configs[..])).0
    ensures err == ResolvedEach(reader, old(configs[..])).1
    ensures has <==> AnyLive(old(configs[..]))
    ensures err.Some? ==> has
  {
    hide ResolvedEach, Failure, Resolved, Live, AnyLive;
    ghost var before := configs[..];
    var i := 0;
    has, err := false, None;
    NoElement(reader);
    while i < configs.Length
      invariant i <= configs.Length && err.None?
      invariant configs[i..] == before[i..]
      invariant has <==> AnyLive(before[..i])
      invariant ResolvedEach(reader, before).0 == configs[..i] + ResolvedEach(reader, before[i..]).0
      invariant ResolvedEach(reader, before).1 == ResolvedEach(reader, before[i..]).1
    {
      assert configs[i] == before[i..][0] == before[i];
      assert before[i..][1..] == before[i + 1..];
      FirstElement(reader, before[i..]);
      OneMoreLive(before, i);
      ghost var done := configs[..i];
      var slot, elementHas;
      slot, elementHas, err := ResolveSlot(reader, Secret, configs[i]);
      has := has || elementHas;
      if err.Some? {
        assert configs[..] == done + before[i..];
        return;
      }
      configs[i] := slot;
      assert configs[..i + 1] == done + [slot];
      assert configs[i + 1..] == before[i + 1..];
      i := i + 1;
    }
    assert configs[..] == configs[..i] + [] && before[..i] == before;
  }

  lemma OneMoreLive(slots: seq<Slot>, i: nat)
    requires i < |slots|
    ensures AnyLive(slots[..i + 1]) <==> AnyLive(slots[..i]) || Live(slots[i].ref)
    ensures Live(slots[i].ref) ==> AnyLive(slots)
  {
  }

  lemma NoElement(r: Reader)
    ensures ResolvedEach(r, []) == ([], None) && !AnyLive([])
  {
  }

  lemma FirstElement(r: Reader, slots: seq<Slot>)
    requires slots != []
    ensures ResolvedEach(r, slots) ==
            if Failure(r, Secret, slots[0].ref).Some? then (slots, Failure(r, Secret, slots[0].ref))
            else ([Resolved(r, Secret, slots[0])] + ResolvedEach(r, slots[1..]).0, ResolvedEach(r, slots[1..]).1)
  {
  }

  method ClearAccessConfigs(configs: array<Slot>) returns (copy: array<Slot>)
    ensures fresh(copy) && copy[..] == ClearedEach(configs[..])
  {
    copy := new Slot[configs.Length](i requires 0 <= i < configs.Length reads configs => configs[i]);
    for i := 0 to copy.Length
      invariant forall j :: 0 <= j < copy.Length ==> copy[j] == if j < i then Cleared(configs[j]) else configs[j]
    {
      if copy[i].ref.Some? {
        copy[i] := copy[i].(value := None);
      }
    }
  }

  /** The first error validateReferenceFields meets. */
  function Validate(s: Spec): Option<Error> {
    if exists i :: 0 <= i < |s.accessConfigs| && BothSet(s.accessConfigs[i]) then Some(BothGiven)
    else if BothSet(s.eventSource) then Some(BothGiven)
    else if BothSet(s.function_) then Some(BothGiven)
    else if s.function_.ref.None? && s.function_.value.None? then Some(NoneGiven)
    else if BothListed(s.queues) then Some(BothGiven)
    else None
  }

  lemma ValidMeans(s: Spec)
    ensures Validate(s).None? <==> NoneHasBoth(s) && (s.function_.ref.Some? || s.function_.value.Some?)
    ensures Validate(s) == Some(NoneGiven) <==>
              && s.function_.ref.None? && s.function_.value.None?
              && (forall i :: 0 <= i < |s.accessConfigs| ==>
                  s.accessConfigs[i].ref.None? || s.accessConfigs[i].value.None?)
              && (s.eventSource.ref.None? || s.eventSource.value.None?)
    ensures Validate(s) in {None, Some(NoneGiven), Some(BothGiven)}
  {
  }

  lemma NoneHasBothExact(s: Spec)
    ensures NoneHasBoth(s) <==>
              && (forall i :: 0 <= i < |s.accessConfigs| ==>
                  s.accessConfigs[i].ref.None? || s.accessConfigs[i].value.None?)
              && (s.eventSource.ref.None? || s.eventSource.value.None?)
              && (s.function_.ref.None? || s.function_.value.None?)
              && (s.queues.refs == [] || s.queues.values == [])
  {
  }

  ghost predicate HasReferences(s: Spec) {
    AnyLive(s.accessConfigs) || Live(s.eventSource.ref) || Live(s.function_.ref) || LiveCount(s.queues.refs) > 0
  }

  lemma HasReferencesExact(s: Spec)
    ensures HasReferences(s) <==>
              || (exists slot <- s.accessConfigs :: slot.ref.Some? && slot.ref.value.from.Some?)
              || (s.eventSource.ref.Some? && s.eventSource.ref.value.from.Some?)
              || (s.function_.ref.Some? && s.function_.ref.value.from.Some?)
              || LiveRefs(s.queues.refs) != []
  {
    LiveCountExact(s.queues.refs);
  }

  /** The elements up to the first that is not answered are resolved as secrets, the others are as they were. */
  ghost predicate EachResolved(reader: Reader, before: seq<Slot>, after: seq<Slot>) {
    && |after| == |before|
    && forall i :: 0 <= i < |before| ==>
         if exists j :: 0 <= j <= i && SlotFails(reader, Secret, before[j]) then after[i] == before[i]
         else SlotResolved(reader, Secret, before[i], after[i])
  }

  predicate EachFails(reader: Reader, slots: seq<Slot>) {
    exists j :: 0 <= j < |slots| && SlotFails(reader, Secret, slots[j])
  }

  lemma {:induction false} EachExact(r: Reader, slots: seq<Slot>)
    ensures EachResolved(r, slots, ResolvedEach(r, slots).0)
    ensures ResolvedEach(r, slots).1.Some? <==> EachFails(r, slots)
  {
    hide Resolved, Failure, SlotFails, SlotResolved, ResolvedEach;
    if slots == [] {
      NoElement(r);
    } else {
      var rest := slots[1..];
      EachExact(r, rest);
      SlotResolvedExact(r, Secret, slots[0]);
      FirstElement(r, slots);
      var after := ResolvedEach(r, slots).0;
      if Failure(r, Secret, slots[0].ref).None? {
        forall i | 0 <= i < |slots|
          ensures if exists j :: 0 <= j <= i && SlotFails(r, Secret, slots[j]) then after[i] == slots[i]
                  else SlotResolved(r, Secret, slots[i], after[i])
        {
          if i > 0 {
            assert rest[i - 1] == slots[i] && after[i] == ResolvedEach(r, rest).0[i - 1];
            if j :| 0 <= j <= i && SlotFails(r, Secret, slots[j]) { assert rest[j - 1] == slots[j]; }
            if j :| 0 <= j <= i - 1 && SlotFails(r, Secret, rest[j]) { assert slots[j + 1] == rest[j]; }
          }
        }
        if j :| 0 <= j < |slots| && SlotFails(r, Secret, slots[j]) { assert rest[j - 1] == slots[j]; }
        if j :| 0 <= j < |rest| && SlotFails(r, Secret, rest[j]) { assert slots[j + 1] == rest[j]; }
      } else {
        assert SlotFails(r, Secret, slots[0]);
      }
    }
  }

  /** The same field by field, in the order of the code. */
  ghost predicate ResolvedFrom(reader: Reader, before: Spec, after: Spec) {
    var urisFail := EachFails(reader, before.accessConfigs);
    var sourceFails := urisFail || SlotFails(reader, Cluster, before.eventSource);
    var functionFails := sourceFails || SlotFails(reader, Function, before.function_);
    && EachResolved(reader, before.accessConfigs, after.accessConfigs)
    && (if urisFail then after.eventSource == before.eventSource
        else SlotResolved(reader, Cluster, before.eventSource, after.eventSource))
    && (if sourceFails then after.function_ == before.function_
        else SlotResolved(reader, Function, before.function_, after.function_))
    && (if functionFails then after.queues == before.queues
        else ListResolved(reader, Broker, before.queues, after.queues))
  }

  predicate SomeFails(reader: Reader, s: Spec) {
    EachFails(reader, s.accessConfigs) || SlotFails(reader, Cluster, s.eventSource)
    || SlotFails(reader, Function, s.function_) || ListFails(reader, Broker, s.queues)
  }

  lemma ResolveExact(r: Reader, s: Spec)
    ensures ResolvedFrom(r, s, Resolve(r, s).0)
    ensures Resolve(r, s).1.Some? <==> SomeFails(r, s)
  {
    hide Resolved, ResolvedList, Failure, Found, SlotFails, SlotResolved, ListFails, ListResolved, ResolvedEach;
    hide EachResolved, EachFails;
    EachExact(r, s.accessConfigs);
    SlotResolvedExact(r, Cluster, s.eventSource);
    SlotResolvedExact(r, Function, s.function_);
    ListResolvedExact(r, Broker, s.queues);
  }

  /** Field by field: a value goes exactly where there is a reference, and nothing else changes. */
  lemma ClearExact(s: Spec)
    ensures |Clear(s).accessConfigs| == |s.accessConfigs|
    ensures forall i :: 0 <= i < |s.accessConfigs| ==> ClearedSlot(s.accessConfigs[i], Clear(s).accessConfigs[i])
    ensures ClearedSlot(s.eventSource, Clear(s).eventSource) && ClearedSlot(s.function_, Clear(s).function_)
    ensures ClearedValues(s.queues, Clear(s).queues)
  {
  }

  /** An event source mapping, whose access configurations are shared with whoever holds the slice. */
  class MappingObject {
    const accessConfigs: array<Slot>
    var eventSource: Slot
    var function_: Slot
    var queues: ListSlot

    constructor (accessConfigs: array<Slot>, eventSource: Slot, function_: Slot, queues: ListSlot)
      ensures this.accessConfigs == accessConfigs
      ensures Contents() == Spec(accessConfigs[..], eventSource, function_, queues)
    {
      this.accessConfigs, this.eventSource, this.function_, this.queues := accessConfigs, eventSource, function_,
          queues;
    }

    function Contents(): Spec
      reads this, accessConfigs
    {
      Spec(accessConfigs[..], eventSource, function_, queues)
    }

    /** Works on a copy: neither this object nor its slice changes. */
    method ClearResolvedReferences() returns (copy: MappingObject)
      ensures fresh(copy) && fresh(copy.accessConfigs) && copy.Contents() == Clear(Contents())
    {
      var configs := ClearAccessConfigs(accessConfigs);
      copy := new MappingObject(configs, eventSource, function_, queues);
      if copy.eventSource.ref.Some? {
        copy.eventSource := copy.eventSource.(value := None);
      }
      if copy.function_.ref.Some? {
        copy.function_ := copy.function_.(value := None);
      }
      if |copy.queues.refs| > 0 {
        copy.queues := copy.queues.(values := []);
      }
    }

    /** Resolves in place, up to the first failure; a validation error comes back only if there is none. */
    method ResolveReferences(reader: Reader) returns (has: bool, err: Option<Error>)
      modifies this, accessConfigs
      ensures ResolvedFrom(reader, old(Contents()), Contents())
      ensures SomeFails(reader, old(Contents())) ==> err.Some?
      ensures !SomeFails(reader, old(Contents())) ==> err == Validate(old(Contents()))
      ensures Contents() == Resolve(reader, old(Contents())).0
      ensures err == (if Resolve(reader, old(Contents())).1.Some? then Resolve(reader, old(Contents())).1
                      else Validate(old(Contents())))
      ensures has <==> HasReferences(old(Contents()))
    {
      hide Resolved, Failure, ResolvedList, Found, LiveCount, Live, Validate, ResolvedEach, AnyLive, ResolvedFrom;
      hide SomeFails, SlotResolved, SlotFails, ListResolved, ListFails, ErrorFor, LiveRefs;
      ResolveExact(reader, Contents());
      var validation := Validate(Contents());
      var fieldHas;
      has, err := ResolveAccessConfigs(accessConfigs, reader);
      if err.Some? { return; }
      eventSource, fieldHas, err := ResolveSlot(reader, Cluster, eventSource);
      has := has || fieldHas;
      if err.Some? { return; }
      function_, fieldHas, err := ResolveSlot(reader, Function, function_);
      has := has || fieldHas;
      if err.Some? { return; }
      queues, fieldHas, err := ResolveList(reader, Broker, queues);
      has := has || fieldHas;
      if err.Some? { return; }
      err := validation;
    }
  }

  lemma {:induction false} ClearedEachForgets(r: Reader, slots: seq<Slot>)
    ensures ClearedEach(ResolvedEach(r, slots).0) == ClearedEach(slots)
  {
    if slots != [] && Failure(r, Secret, slots[0].ref).None? {
      ClearedEachForgets(r, slots[1..]);
      ClearForgetsResolve(r, Secret, slots[0]);
      var rest := ResolvedEach(r, slots[1..]).0;
      assert ResolvedEach(r, slots).0 == [Resolved(r, Secret, slots[0])] + rest;
      assert ClearedEach(ResolvedEach(r, slots).0) == [Cleared(Resolved(r, Secret, slots[0]))] + ClearedEach(rest);
      assert ClearedEach(slots) == [Cleared(slots[0])] + ClearedEach(slots[1..]);
    }
  }

  /** Wherever resolving stopped, in whichever element, clearing leaves what it would have left before. */
  lemma ClearUndoesResolve(r: Reader, s: Spec)
    ensures Clear(Resolve(r, s).0) == Clear(s)
    ensures Clear(Resolve(r, s).0) == s <==> NoneHasBoth(s)
  {
    hide Resolved, ResolvedList, ResolvedEach, ClearedEach;
    ClearedEachForgets(r, s.accessConfigs);
    ClearForgetsResolve(r, Cluster, s.eventSource);
    ClearForgetsResolve(r, Function, s.function_);
    ClearForgetsResolveList(r, Broker, s.queues);
    ClearedEachSame(s.accessConfigs);
  }

  lemma ClearedEachSame(slots: seq<Slot>)
    ensures ClearedEach(slots) == slots <==> forall i :: 0 <= i < |slots| ==> !BothSet(slots[i])
  {
  }

  lemma RetryAfterClear(r1: Reader, r2: Reader, s: Spec)
    ensures Resolve(r2, Clear(Resolve(r1, s).0)) == Resolve(r2, Clear(s))
    ensures NoneHasBoth(s) ==> Resolve(r2, Clear(Resolve(r1, s).0)) == Resolve(r2, s)
  {
    ClearUndoesResolve(r1, s);
  }

  /** When no resolver fails, each live reference has become what the cluster answers for it. */
  lemma FieldsAnswered(r: Reader, s: Spec, from: From)
    requires Resolve(r, s).1.None?
    ensures var t := Resolve(r, s).0;
            var ref := Some(Ref(Some(from)));
            var name, namespace := if from.name.Some? then from.name.value else "", from.namespace;
            && |t.accessConfigs| == |s.accessConfigs|
            && (forall i :: 0 <= i < |s.accessConfigs| && s.accessConfigs[i].ref == ref ==>
                  t.accessConfigs[i].value.Some? && r(Secret, name, namespace) == Ok(t.accessConfigs[i].value.value))
            && (s.eventSource.ref == ref ==>
                  t.eventSource.value.Some? && r(Cluster, name, namespace) == Ok(t.eventSource.value.value))
            && (s.function_.ref == ref ==>
                  t.function_.value.Some? && r(Function, name, namespace) == Ok(t.function_.value.value))
  {
    hide Resolve, ListResolved, ListFails;
    ResolveExact(r, s);
  }

  lemma QueuesAnswered(r: Reader, s: Spec)
    requires Resolve(r, s).1.None?
    ensures var t := Resolve(r, s).0;
            && |t.queues.values| == |s.queues.values| + |LiveRefs(s.queues.refs)|
            && (forall i :: 0 <= i < |LiveRefs(s.queues.refs)| ==>
                  var from := LiveRefs(s.queues.refs)[i];
                  from.name.Some?
                      && r(Broker, from.name.value, from.namespace) == Ok(t.queues.values[|s.queues.values| + i]))
  {
    hide Resolve, SlotResolved, SlotFails, LiveRefs, Unanswered, Answers, EachResolved, EachFails;
    ResolveExact(r, s);
    AnswersExact(r, Broker);
  }

  /** When no resolver fails, everything is as it was but the values of live references. */
  lemma ResolvedCompletely(r: Reader, s: Spec)
    requires Resolve(r, s).1.None?
    ensures Resolve(r, s).0 == Spec(
              seq(|s.accessConfigs|, i requires 0 <= i < |s.accessConfigs| => Resolved(r, Secret, s.accessConfigs[i])),
              Resolved(r, Cluster, s.eventSource),
              Resolved(r, Function, s.function_),
              ResolvedList(r, Broker, s.queues))
  {
    hide Resolved, ResolvedList, Found, Failure, ResolvedEach;
    EachResolvedCompletely(r, s.accessConfigs);
  }

  lemma {:induction false} EachResolvedCompletely(r: Reader, slots: seq<Slot>)
    ensures ResolvedEach(r, slots).1.None? ==>
              ResolvedEach(r, slots).0 == seq(|slots|, i requires 0 <= i < |slots| => Resolved(r, Secret, slots[i]))
  {
    hide Resolved, Failure, ResolvedEach;
    if slots == [] {
      NoElement(r);
    } else {
      FirstElement(r, slots);
      EachResolvedCompletely(r, slots[1..]);
    }
  }

}
