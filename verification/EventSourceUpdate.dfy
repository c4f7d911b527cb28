/** Updating an event source mapping: its filters, and the numbers that must fit the service's int32 fields. */
module EventSourceUpdate {
  import opened Common
  import opened Deltas
  import opened Int32
  import TagService
  import TagSync
  import N = FieldNames

  /** The entries of a filter list are never nil; their pattern may be. */
  datatype Filter = Filter(pattern: Option<string>)

  datatype FilterCriteria = FilterCriteria(filters: Option<seq<Filter>>)

  datatype Scaling = Scaling(maximumConcurrency: Option<int>)

  datatype Limits = Limits(
    batchSize: Option<int>,
    batchingWindow: Option<int>,
    recordAge: Option<int>,
    retryAttempts: Option<int>,
    parallelization: Option<int>,
    scaling: Option<Scaling>,
    tumblingWindow: Option<int>)

  datatype Spec = Spec(criteria: Option<FilterCriteria>, limits: Limits, tags: TagSync.SpecTags)

  const CRITERIA: Path := [N.SPEC, N.FILTER_CRITERIA]
  const FILTERS: Path := [N.SPEC, N.FILTER_CRITERIA, N.FILTERS]
  const TAGS: Path := [N.SPEC, N.TAGS]

  /** The filters listed; no structure, no list and an empty list are all none. */
  function Listed(c: Option<FilterCriteria>): seq<Filter> {
    if c.None? || c.value.filters.None? then [] else c.value.filters.value
  }

  // ----- comparing filters

  /** A nil pattern and an empty one are the same. */
  function Plain(p: Option<string>): string {
    if p.Some? then p.value else ""
  }

  /** The comparison of two patterns dereferences the second when only the first is set to something. */
  predicate Dereferences(a: Option<string>, b: Option<string>) {
    Plain(a) != "" && b.None?
  }

  /** equalStrings. */
  function EqualStrings(a: Option<string>, b: Option<string>): (r: bool)
    requires !Dereferences(a, b)
    ensures r <==> Plain(a) == Plain(b)
    ensures r <==> a == b || (a in {None, Some("")} && b in {None, Some("")})
  {
    if a.None? then b.None? || b.value == "" else (a.value == "" && b.None?) || a.value == b.value
  }

  datatype Comparison = Equal | Unequal | NilDereference

  ghost predicate EqualUpTo(a: seq<Filter>, b: seq<Filter>, n: nat)
    requires n <= |a| && n <= |b|
  {
    forall i :: 0 <= i < n ==> Plain(a[i].pattern) == Plain(b[i].pattern)
  }

  ghost predicate SamePatterns(a: seq<Filter>, b: seq<Filter>) {
    |a| == |b| && EqualUpTo(a, b, |a|)
  }

  /** The comparison meets a pattern to dereference before it meets a difference. */
  ghost predicate MeetsNil(a: seq<Filter>, b: seq<Filter>) {
    |a| == |b| && exists i :: 0 <= i < |a| && Dereferences(a[i].pattern, b[i].pattern) && EqualUpTo(a, b, i)
  }

  /** equalFilterSlices, with the panic it can end in. */
  method EqualFilterSlices(a: seq<Filter>, b: seq<Filter>) returns (r: Comparison)
    ensures r.Equal? <==> SamePatterns(a, b)
    ensures r.NilDereference? <==> MeetsNil(a, b)
    ensures r.Equal? <==>
              && |a| == |b|
              && forall i :: 0 <= i < |a| ==>
                   a[i] == b[i] || (a[i].pattern in {None, Some("")} && b[i].pattern in {None, Some("")})
    ensures r.NilDereference? <==>
              && |a| == |b|
              && exists i :: 0 <= i < |a| && a[i].pattern !in {None, Some("")} && b[i].pattern.None?
                   && forall j :: 0 <= j < i ==>
                        a[j] == b[j] || (a[j].pattern in {None, Some("")} && b[j].pattern in {None, Some("")})
  {
    PatternsExact(a, b);
    if |a| != |b| {
      return Unequal;
    }
    for x := 0 to |a|
      invariant EqualUpTo(a, b, x)
      invariant forall i :: 0 <= i < x ==> !Dereferences(a[i].pattern, b[i].pattern)
    {
      if Dereferences(a[x].pattern, b[x].pattern) {
        return NilDereference;
      }
      if !EqualStrings(a[x].pattern, b[x].pattern) {
        return Unequal;
      }
    }
    r := Equal;
  }

  /** Equal patterns, spelled out: nil and the empty text are one. */
  lemma PatternsExact(a: seq<Filter>, b: seq<Filter>)
    ensures forall i :: 0 <= i < |a| && i < |b| ==>
              (Plain(a[i].pattern) == Plain(b[i].pattern) <==>
                a[i] == b[i] || (a[i].pattern in {None, Some("")} && b[i].pattern in {None, Some("")}))
    ensures forall i :: 0 <= i < |a| ==> (Plain(a[i].pattern) != "" <==> a[i].pattern !in {None, Some("")})
  {
  }

  /** Filters that the service returns with their patterns are compared without a panic. */
  lemma PatternsReturned(a: seq<Filter>, b: seq<Filter>)
    requires forall i :: 0 <= i < |b| ==> b[i].pattern.Some?
    ensures !MeetsNil(a, b)
  {
  }

  /** The path customPreCompare records, if any. */
  ghost function FilterDelta(a: Option<FilterCriteria>, b: Option<FilterCriteria>): seq<Path> {
    if a.Some? != b.Some? then [CRITERIA]
    else if a.Some? && !SamePatterns(Listed(a), Listed(b)) then [FILTERS]
    else []
  }

  method CustomPreCompare(delta: Delta, a: Option<FilterCriteria>, b: Option<FilterCriteria>) returns (panics: bool)
    modifies delta
    ensures panics <==> a.Some? && b.Some? && MeetsNil(Listed(a), Listed(b))
    ensures !panics ==> delta.differences == old(delta.differences) + FilterDelta(a, b)
    ensures a.Some? != b.Some? ==> delta.differences == old(delta.differences) + [[N.SPEC, N.FILTER_CRITERIA]]
    ensures a.None? && b.None? ==> delta.differences == old(delta.differences)
    ensures !panics && a.Some? && b.Some? ==>
              var x := if a.value.filters.Some? then a.value.filters.value else [];
              var y := if b.value.filters.Some? then b.value.filters.value else [];
              var same := |x| == |y| && forall i :: 0 <= i < |x| ==>
                            x[i] == y[i] || (x[i].pattern in {None, Some("")} && y[i].pattern in {None, Some("")});
              delta.differences == old(delta.differences)
                                   + if same then [] else [[N.SPEC, N.FILTER_CRITERIA, N.FILTERS]]
  {
    PatternsExact(Listed(a), Listed(b));
    panics := false;
    if a.Some? != b.Some? {
      delta.Add(CRITERIA);
    } else if a.Some? && b.Some? {
      var c := EqualFilterSlices(Listed(a), Listed(b));
      if c.NilDereference? {
        return true;
      }
      if c.Unequal? {
        delta.Add(FILTERS);
      }
    }
  }

  // ----- filterCriteriasDeleted

  predicate FilterCriteriasDeleted(observed: Option<FilterCriteria>, desired: Option<FilterCriteria>, ds: seq<Path>) {
    (DifferentAt(ds, CRITERIA) || DifferentAt(ds, FILTERS)) && Listed(observed) != [] && Listed(desired) == []
  }

  /** In the terms of the two specs. */
  lemma DeletedExact(observed: Option<FilterCriteria>, desired: Option<FilterCriteria>, ds: seq<Path>)
    ensures FilterCriteriasDeleted(observed, desired, ds) <==>
              && (DifferentAt(ds, [N.SPEC, N.FILTER_CRITERIA])
                  || DifferentAt(ds, [N.SPEC, N.FILTER_CRITERIA, N.FILTERS]))
              && observed.Some? && observed.value.filters.Some? && observed.value.filters.value != []
              && (desired.None? || desired.value.filters.None? || desired.value.filters.value == [])
  {
    hide DifferentAt;
  }

  /** The rest of the delta: paths of generated comparisons, none of which is about the filters. */
  ghost predicate Elsewhere(others: seq<Path>) {
    forall i :: 0 <= i < |others| ==> !(CRITERIA <= others[i])
  }

  lemma FiltersReported(a: Option<FilterCriteria>, b: Option<FilterCriteria>, others: seq<Path>)
    requires Elsewhere(others)
    ensures DifferentAt(FilterDelta(a, b) + others, CRITERIA) <==> FilterDelta(a, b) != []
  {
    DifferentAtConcat(FilterDelta(a, b), others, CRITERIA);
    if FilterDelta(a, b) != [] { assert CRITERIA <= FilterDelta(a, b)[0]; }
  }

  /** The request is overridden exactly when filters are there and none are wanted. */
  lemma OverrideExact(observed: Option<FilterCriteria>, desired: Option<FilterCriteria>, others: seq<Path>)
    requires Elsewhere(others)
    ensures FilterCriteriasDeleted(observed, desired, FilterDelta(desired, observed) + others)
            <==> Listed(observed) != [] && Listed(desired) == []
  {
    FiltersReported(desired, observed, others);
  }

  // ----- the request

  /** The fields a payload checks before narrowing them, in the order of the generated code. */
  datatype IntField =
    | BatchSize | MaximumBatchingWindowInSeconds | MaximumRecordAgeInSeconds | MaximumRetryAttempts
    | ParallelizationFactor | MaximumConcurrency | TumblingWindowInSeconds

  const INT_FIELDS: seq<IntField> := [
    BatchSize, MaximumBatchingWindowInSeconds, MaximumRecordAgeInSeconds, MaximumRetryAttempts,
    ParallelizationFactor, MaximumConcurrency, TumblingWindowInSeconds]

  function Number(l: Limits, f: IntField): Option<int> {
    match f
    case BatchSize => l.batchSize
    case MaximumBatchingWindowInSeconds => l.batchingWindow
    case MaximumRecordAgeInSeconds => l.recordAge
    case MaximumRetryAttempts => l.retryAttempts
    case ParallelizationFactor => l.parallelization
    case MaximumConcurrency => if l.scaling.Some? then l.scaling.value.maximumConcurrency else None
    case TumblingWindowInSeconds => l.tumblingWindow
  }

  ghost predicate AllFit(l: Limits) {
    forall f: IntField :: FitsOption(Number(l, f))
  }

  /** `f` is out of range and no field before it is. */
  ghost predicate FirstMisfit(l: Limits, f: IntField) {
    exists i :: 0 <= i < |INT_FIELDS| && INT_FIELDS[i] == f && !FitsOption(Number(l, f))
                && forall j :: 0 <= j < i ==> FitsOption(Number(l, INT_FIELDS[j]))
  }

  /** A payload's criteria and numbers; numbers are int32. */
  datatype Request = Request(criteria: Option<FilterCriteria>, limits: Limits)

  /** The numbers that must fit, and which of them an error names, one by one. */
  lemma MisfitsExact(l: Limits)
    ensures var concurrency := if l.scaling.Some? then l.scaling.value.maximumConcurrency else None;
            && (AllFit(l) <==>
                  && FitsOption(l.batchSize) && FitsOption(l.batchingWindow) && FitsOption(l.recordAge)
                  && FitsOption(l.retryAttempts) && FitsOption(l.parallelization) && FitsOption(concurrency)
                  && FitsOption(l.tumblingWindow))
            && (FirstMisfit(l, BatchSize) <==> !FitsOption(l.batchSize))
            && (FirstMisfit(l, MaximumBatchingWindowInSeconds) <==>
                  FitsOption(l.batchSize) && !FitsOption(l.batchingWindow))
            && (FirstMisfit(l, MaximumRecordAgeInSeconds) <==>
                  FitsOption(l.batchSize) && FitsOption(l.batchingWindow) && !FitsOption(l.recordAge))
            && (FirstMisfit(l, MaximumRetryAttempts) <==>
                  && FitsOption(l.batchSize) && FitsOption(l.batchingWindow) && FitsOption(l.recordAge)
                  && !FitsOption(l.retryAttempts))
            && (FirstMisfit(l, ParallelizationFactor) <==>
                  && FitsOption(l.batchSize) && FitsOption(l.batchingWindow) && FitsOption(l.recordAge)
                  && FitsOption(l.retryAttempts) && !FitsOption(l.parallelization))
            && (FirstMisfit(l, MaximumConcurrency) <==>
                  && FitsOption(l.batchSize) && FitsOption(l.batchingWindow) && FitsOption(l.recordAge)
                  && FitsOption(l.retryAttempts) && FitsOption(l.parallelization) && !FitsOption(concurrency))
            && (FirstMisfit(l, TumblingWindowInSeconds) <==>
                  && FitsOption(l.batchSize) && FitsOption(l.batchingWindow) && FitsOption(l.recordAge)
                  && FitsOption(l.retryAttempts) && FitsOption(l.parallelization) && FitsOption(concurrency)
                  && !FitsOption(l.tumblingWindow))
  {
    hide FitsOption, INT_FIELDS, FirstMisfit;
    NumbersExact(l);
    FieldAt();
    forall i | 0 <= i < |INT_FIELDS|
      ensures FirstMisfit(l, INT_FIELDS[i]) <==>
              !FitsOption(Number(l, INT_FIELDS[i])) && forall j :: 0 <= j < i ==> FitsOption(Number(l, INT_FIELDS[j]))
    {
      MisfitAt(l, i);
    }
  }

  lemma NumbersExact(l: Limits)
    ensures AllFit(l) <==>
              && FitsOption(l.batchSize) && FitsOption(l.batchingWindow) && FitsOption(l.recordAge)
              && FitsOption(l.retryAttempts) && FitsOption(l.parallelization)
              && FitsOption(if l.scaling.Some? then l.scaling.value.maximumConcurrency else None)
              && FitsOption(l.tumblingWindow)
  {
    hide FitsOption;
    if AllFit(l) {
      assert FitsOption(Number(l, BatchSize)) && FitsOption(Number(l, MaximumBatchingWindowInSeconds));
      assert FitsOption(Number(l, MaximumRecordAgeInSeconds)) && FitsOption(Number(l, MaximumRetryAttempts));
      assert FitsOption(Number(l, ParallelizationFactor)) && FitsOption(Number(l, MaximumConcurrency));
      assert FitsOption(Number(l, TumblingWindowInSeconds));
    }
  }

  lemma MisfitAt(l: Limits, i: nat)
    requires i < |INT_FIELDS|
    ensures FirstMisfit(l, INT_FIELDS[i]) <==>
            !FitsOption(Number(l, INT_FIELDS[i])) && forall j :: 0 <= j < i ==> FitsOption(Number(l, INT_FIELDS[j]))
  {
    hide FitsOption, Number;
    forall j | 0 <= j < |INT_FIELDS| && INT_FIELDS[j] == INT_FIELDS[i] ensures j == i {
    }
  }

  /** One guarded conversion. */
  method Guarded(field: IntField, v: Option<int>) returns (r: Result<Option<int>, IntField>)
    ensures r == if FitsOption(v) then Ok(v) else Err(field)
  {
    RoundTrip(v);
    if v.Some? && (v.value > MAX_INT32 || v.value < MIN_INT32) {
      return Err(field);
    }
    return Ok(NarrowOption(v));
  }

  /**
    newCreateRequestPayload and newUpdateRequestPayload, which treat the criteria and the numbers
    alike. A payload is built exactly when every number present fits; it then carries every number
    as it was, and otherwise the error names the first that does not fit.
   */
  method NewRequestPayload(s: Spec) returns (r: Result<Request, IntField>)
    ensures r.Ok? <==> AllFit(s.limits)
    ensures r.Ok? ==> r.value.limits == s.limits
    ensures r.Ok? ==> r.value.criteria == s.criteria
    ensures r.Err? ==> FirstMisfit(s.limits, r.error)
  {
    hide Narrow, FitsOption;
    FieldAt();
    var sent := Limits(None, None, None, None, None, None, None);
    var n := Guarded(BatchSize, s.limits.batchSize);
    if n.Err? { Misfit(s.limits, 0); return Err(n.error); }
    sent := sent.(batchSize := n.value);
    var criteria := CopyCriteria(s.criteria);
    n := Guarded(MaximumBatchingWindowInSeconds, s.limits.batchingWindow);
    if n.Err? { Misfit(s.limits, 1); return Err(n.error); }
    sent := sent.(batchingWindow := n.value);
    n := Guarded(MaximumRecordAgeInSeconds, s.limits.recordAge);
    if n.Err? { Misfit(s.limits, 2); return Err(n.error); }
    sent := sent.(recordAge := n.value);
    n := Guarded(MaximumRetryAttempts, s.limits.retryAttempts);
    if n.Err? { Misfit(s.limits, 3); return Err(n.error); }
    sent := sent.(retryAttempts := n.value);
    n := Guarded(ParallelizationFactor, s.limits.parallelization);
    if n.Err? { Misfit(s.limits, 4); return Err(n.error); }
    sent := sent.(parallelization := n.value);
    if s.limits.scaling.Some? {
      n := Guarded(MaximumConcurrency, s.limits.scaling.value.maximumConcurrency);
      if n.Err? { Misfit(s.limits, 5); return Err(n.error); }
      sent := sent.(scaling := Some(Scaling(n.value)));
    }
    NoScaling(s.limits);
    n := Guarded(TumblingWindowInSeconds, s.limits.tumblingWindow);
    if n.Err? { Misfit(s.limits, 6); return Err(n.error); }
    sent := sent.(tumblingWindow := n.value);
    r := Ok(Request(criteria, sent));
  }

  lemma FieldAt()
    ensures |INT_FIELDS| == 7
    ensures INT_FIELDS[0] == BatchSize && INT_FIELDS[1] == MaximumBatchingWindowInSeconds
    ensures INT_FIELDS[2] == MaximumRecordAgeInSeconds && INT_FIELDS[3] == MaximumRetryAttempts
    ensures INT_FIELDS[4] == ParallelizationFactor && INT_FIELDS[5] == MaximumConcurrency
    ensures INT_FIELDS[6] == TumblingWindowInSeconds
  {
  }

  lemma Misfit(l: Limits, i: nat)
    requires i < |INT_FIELDS| && !FitsOption(Number(l, INT_FIELDS[i]))
    requires forall j :: 0 <= j < i ==> FitsOption(Number(l, INT_FIELDS[j]))
    ensures FirstMisfit(l, INT_FIELDS[i]) && !AllFit(l)
  {
  }

  lemma NoScaling(l: Limits)
    ensures l.scaling.None? ==> FitsOption(Number(l, MaximumConcurrency))
  {
  }

  /** The element-wise copy of a filter criteria into a request. */
  method CopyCriteria(c: Option<FilterCriteria>) returns (copy: Option<FilterCriteria>)
    ensures copy == c
  {
    if c.None? {
      return None;
    }
    var filters: Option<seq<Filter>> := None;
    if c.value.filters.Some? {
      var copied: seq<Filter> := [];
      for i := 0 to |c.value.filters.value|
        invariant copied == c.value.filters.value[..i]
      {
        var elem := Filter(None);
        if c.value.filters.value[i].pattern.Some? {
          elem := elem.(pattern := c.value.filters.value[i].pattern);
        }
        copied := copied + [elem];
      }
      assert copied == c.value.filters.value;
      filters := Some(copied);
    }
    copy := Some(FilterCriteria(filters));
  }

  /** The criteria the service is sent: the desired ones, unless they are overridden to clear what is there. */
  function SentCriteria(desired: Option<FilterCriteria>, override: bool): Option<FilterCriteria> {
    if override then Some(FilterCriteria(Some([]))) else desired
  }

  // ----- the service

  /** An update without criteria leaves the filters alone; one with criteria replaces them. */
  function Apply(filters: seq<Filter>, r: Request): seq<Filter> {
    if r.criteria.None? then filters else Listed(r.criteria)
  }

  /** A read shows the filters the service holds, in any of the forms that list them. */
  ghost predicate IsRead(c: Option<FilterCriteria>, filters: seq<Filter>) {
    Listed(c) == filters
  }

  /** The service leaves the criteria out of its answers when there are no filters. */
  function Returned(filters: seq<Filter>): Option<FilterCriteria> {
    if filters == [] then None else Some(FilterCriteria(Some(filters)))
  }

  class Server {
    var filters: seq<Filter>
    ghost var log: seq<Request>

    method Update(r: Request) returns (ok: bool)
      modifies this
      ensures ok ==> filters == Apply(old(filters), r) && log == old(log) + [r]
      ensures !ok ==> filters == old(filters) && log == old(log)
    {
      ok := *;
      if ok {
        filters := Apply(filters, r);
        log := log + [r];
      }
    }
  }

  /**
    An update that reaches the service leaves exactly the desired filters there, whatever made it
    necessary and whatever was there before.
   */
  lemma UpdateFaithful(desired: Option<FilterCriteria>, latest: Option<FilterCriteria>, others: seq<Path>,
                       filters: seq<Filter>, limits: Limits)
    requires Elsewhere(others) && IsRead(latest, filters)
    ensures var override := FilterCriteriasDeleted(latest, desired, FilterDelta(desired, latest) + others);
            && Apply(filters, Request(SentCriteria(desired, override), limits)) == Listed(desired)
            && Listed(desired) == (if desired.Some? && desired.value.filters.Some?
                                   then desired.value.filters.value else [])
  {
    OverrideExact(latest, desired, others);
  }

  /** Without the override the same holds unless the criteria were removed while filters are there. */
  lemma OverrideNeeded(desired: Option<FilterCriteria>, filters: seq<Filter>, limits: Limits)
    ensures Apply(filters, Request(SentCriteria(desired, false), limits)) == Listed(desired)
            <==> desired.Some? || filters == []
  {
  }

  /** No report about the filters means that the service has the desired patterns. */
  lemma SilentMeansSame(desired: Option<FilterCriteria>, latest: Option<FilterCriteria>, filters: seq<Filter>)
    requires IsRead(latest, filters)
    ensures FilterDelta(desired, latest) == [] ==> SamePatterns(Listed(desired), filters)
  {
  }

  /**
    The comparison after an update never panics, and is silent exactly when the desired criteria
    are not present and empty; those are reported, and updated, for ever.
   */
  lemma FiltersSettle(desired: Option<FilterCriteria>)
    ensures var next := Returned(Listed(desired));
            && IsRead(next, Listed(desired))
            && !MeetsNil(Listed(desired), Listed(next))
            && (FilterDelta(desired, next) == [] <==> !(desired.Some? && Listed(desired) == []))
  {
  }

  /**
    The panic is within reach: put a filter without a pattern, read it back, and give it a pattern. The
    service then holds the filters of the update before, and comparing the edited spec with the read
    dereferences nil.
   */
  lemma EditedPatternPanics(before: FilterCriteria, i: nat, pattern: string)
    requires i < |Listed(Some(before))| && Listed(Some(before))[i].pattern.None? && pattern != ""
    ensures var filters := Listed(Some(before));
            var edited := FilterCriteria(Some(filters[i := Filter(Some(pattern))]));
            && (forall held, limits :: Apply(held, Request(Some(before), limits)) == filters)
            && Returned(filters).Some? && IsRead(Returned(filters), filters)
            && MeetsNil(Listed(Some(edited)), Listed(Returned(filters)))
  {
    var filters := Listed(Some(before));
    var edited := filters[i := Filter(Some(pattern))];
    assert Dereferences(edited[i].pattern, filters[i].pattern) && EqualUpTo(edited, filters, i);
  }

  // ----- sdkUpdate

  datatype Outcome = Done | TagsFailed | OutOfRange(field: IntField) | UpdateFailed

  /** Tags first; then, if anything else differs, one request. */
  method SdkUpdate(server: Server, tagServer: TagService.Server, desired: Spec, latest: Spec, ds: seq<Path>)
    returns (outcome: Outcome, updated: bool)
    modifies server, tagServer
    ensures var override := FilterCriteriasDeleted(latest.criteria, desired.criteria, ds);
            server.log == old(server.log) + if updated
                then [Request(SentCriteria(desired.criteria, override), desired.limits)] else []
    ensures updated ==> AllFit(desired.limits) && outcome.Done?
    ensures outcome.Done? ==> (updated <==> DifferentExcept(ds, [TAGS]))
    ensures outcome.OutOfRange? ==> FirstMisfit(desired.limits, outcome.field)
    ensures updated ==>
              var clears := (DifferentAt(ds, [N.SPEC, N.FILTER_CRITERIA])
                             || DifferentAt(ds, [N.SPEC, N.FILTER_CRITERIA, N.FILTERS]))
                            && latest.criteria.Some? && latest.criteria.value.filters.Some?
                            && latest.criteria.value.filters.value != []
                            && (desired.criteria.None? || desired.criteria.value.filters.None?
                                || desired.criteria.value.filters.value == []);
              server.log == old(server.log) +
                            [Request(if clears then Some(FilterCriteria(Some([]))) else desired.criteria,
                                     desired.limits)]
    ensures outcome.Done? && DifferentAt(ds, TAGS) ==>
              tagServer.tags == TagService.ApplyAll(old(tagServer.tags),
                                                    TagSync.Plan(TagSync.Plain(latest.tags),
                                                                 TagSync.Plain(desired.tags)))
    ensures !DifferentAt(ds, TAGS) ==> tagServer.tags == old(tagServer.tags)
    ensures updated ==>
              forall others :: Elsewhere(others) && ds == FilterDelta(desired.criteria, latest.criteria) + others
                               && IsRead(latest.criteria, old(server.filters))
                               ==> server.filters == Listed(desired.criteria)
    ensures !updated ==> server.filters == old(server.filters)
  {
    hide TagSync.Plan, TagSync.Plain, TagService.ApplyAll, AllFit, FirstMisfit, DifferentAt, DifferentExcept, Elsewhere;
    hide FilterDelta, Listed;
    updated := false;
    if DifferentAt(ds, TAGS) {
      var synced, made := TagSync.SyncTags(tagServer, desired.tags, latest.tags);
      if !synced {
        return TagsFailed, false;
      }
      ghost var plan := TagSync.Plan(TagSync.Plain(latest.tags), TagSync.Plain(desired.tags));
      assert plan[..made] == plan;
    }
    if !DifferentExcept(ds, [TAGS]) {
      return Done, false;
    }
    DeletedExact(latest.criteria, desired.criteria, ds);
    var payload := NewRequestPayload(desired);
    if payload.Err? {
      return OutOfRange(payload.error), false;
    }
    var input := payload.value;
    if FilterCriteriasDeleted(latest.criteria, desired.criteria, ds) {
      input := input.(criteria := Some(FilterCriteria(Some([]))));
    }
    ghost var before := server.filters;
    var ok := server.Update(input);
    if !ok {
      return UpdateFailed, false;
    }
    outcome, updated := Done, true;
    forall others | Elsewhere(others) && ds == FilterDelta(desired.criteria, latest.criteria) + others
                    && IsRead(latest.criteria, before)
      ensures server.filters == Listed(desired.criteria)
    {
      UpdateFaithful(desired.criteria, latest.criteria, others, before, desired.limits);
    }
  }
}
