/** The tags of one resource at the service, which allows putting and removing tags but not changing one. */
module TagService {

  type Tags = map<string, string>

  datatype Call = Untag(keys: set<string>) | Tag(entries: Tags)

  function Apply(s: Tags, c: Call): Tags {
    match c
    case Untag(keys) => s - keys
    case Tag(entries) => s + entries
  }

  function ApplyAll(s: Tags, calls: seq<Call>): Tags {
    if calls == [] then s else Apply(ApplyAll(s, calls[..|calls| - 1]), calls[|calls| - 1])
  }

  /** Making one more of the calls. */
  lemma OneMoreCall(s: Tags, calls: seq<Call>, k: nat)
    requires k < |calls|
    ensures calls[..k + 1] == calls[..k] + [calls[k]]
    ensures ApplyAll(s, calls[..k + 1]) == Apply(ApplyAll(s, calls[..k]), calls[k])
  {
  }

  /** Tags under the service's own prefix. */
  predicate IsSystem(key: string) {
    "aws:" <= key
  }

  /** The service lets no one touch its own tags. */
  ghost predicate Accepts(c: Call) {
    match c
    case Untag(keys) => forall k :: k in keys ==> !IsSystem(k)
    case Tag(entries) => forall k :: k in entries ==> !IsSystem(k)
  }

  class Server {
    var tags: Tags
    ghost var log: seq<Call>

    /** Any call may fail; one that fails changes nothing, and one the service does not accept always fails. */
    method Do(c: Call) returns (ok: bool)
      modifies this
      ensures ok ==> tags == Apply(old(tags), c) && log == old(log) + [c]
      ensures !ok ==> tags == old(tags) && log == old(log)
      ensures !Accepts(c) ==> !ok
    {
      var faulty: bool := *;
      var touchesSystem := match c
        case Untag(keys) => exists k :: k in keys && IsSystem(k)
        case Tag(entries) => exists k :: k in entries && IsSystem(k);
      ok := !faulty && !touchesSystem;
      if ok {
        tags := Apply(tags, c);
        log := log + [c];
      }
    }
  }
}

/** The two tag updates of the controller: by comparing maps, and by differences of key-value pairs. */
module TagSync {
  import opened Common
  import opened TagService
  import KeyedSync

  /** Tags in a spec: a value may be a nil pointer. */
  type SpecTags = map<string, Option<string>>

  /** toACKTags and convertToOrderedACKTags: nil becomes the empty string. */
  function Plain(tags: SpecTags): Tags {
    map k | k in tags :: if tags[k].Some? then tags[k].value else ""
  }

  /** fromACKTags. */
  function Spec(tags: Tags): SpecTags {
    map k | k in tags :: Some(tags[k])
  }

  // ----- what both must do

  /** Keys present but not wanted, or wanted with another value. */
  function Outdated(latest: Tags, desired: Tags): set<string> {
    set k | k in latest && (k !in desired || desired[k] != latest[k])
  }

  /** Entries wanted that are absent or have another value. */
  function Wanted(latest: Tags, desired: Tags): Tags {
    map k | k in desired && (k !in latest || latest[k] != desired[k]) :: desired[k]
  }

  /** One removal of all of `gone`, then one addition of all of `due`; neither if empty. */
  function Calls(gone: set<string>, due: Tags): seq<Call> {
    (if gone != {} then [Untag(gone)] else []) + (if due != map[] then [Tag(due)] else [])
  }

  function Plan(latest: Tags, desired: Tags): seq<Call> {
    Calls(Outdated(latest, desired), Wanted(latest, desired))
  }

  lemma NoCallYet(s: Tags, calls: seq<Call>)
    ensures calls[..0] == [] && ApplyAll(s, calls[..0]) == s
  {
  }

  lemma CallsInOrder(gone: set<string>, due: Tags)
    ensures var calls := Calls(gone, due);
            && |calls| == (if gone != {} then 1 else 0) + (if due != map[] then 1 else 0)
            && (gone != {} ==> calls[0] == Untag(gone))
            && (due != map[] ==> calls[|calls| - 1] == Tag(due))
  {
  }

  /** The state a plan leaves, and the one between its two calls. */
  lemma CallStates(s: Tags, gone: set<string>, due: Tags)
    ensures var calls := Calls(gone, due);
            && ApplyAll(s, calls) == (s - gone) + due
            && (|calls| == 2 ==> ApplyAll(s, calls[..1]) == s - gone)
  {
    var calls := Calls(gone, due);
    assert gone == {} ==> s - gone == s;
    assert due == map[] ==> (s - gone) + due == s - gone;
    assert ApplyAll(s, calls[..0]) == s && calls[..|calls|] == calls;
    if |calls| > 0 { OneMoreCall(s, calls, 0); }
    if |calls| > 1 { OneMoreCall(s, calls, 1); }
  }

  /** A complete plan makes the tags the desired tags, whatever they were. */
  lemma PlanConverges(s: Tags, desired: Tags)
    ensures ApplyAll(s, Plan(s, desired)) == desired
  {
    hide Calls, ApplyAll;
    CallStates(s, Outdated(s, desired), Wanted(s, desired));
    assert (s - Outdated(s, desired)) + Wanted(s, desired) == desired;
  }

  /**
    Cutting a plan off anywhere and planning again from a due read resumes exactly where it
    stopped: the new plan is the rest of the old one.
   */
  lemma PlanResumes(s: Tags, desired: Tags, k: nat)
    requires k <= |Plan(s, desired)|
    ensures Plan(ApplyAll(s, Plan(s, desired)[..k]), desired) == Plan(s, desired)[k..]
  {
    hide ApplyAll, Outdated, Wanted;
    var gone, due := Outdated(s, desired), Wanted(s, desired);
    CallStates(s, gone, due);
    NoCallYet(s, Plan(s, desired));
    PlanConverges(s, desired);
    NothingOutstanding(desired);
    HalfwayPlan(s, desired);
    assert Plan(s, desired)[..|Plan(s, desired)|] == Plan(s, desired);
    if k == 1 && |Plan(s, desired)| == 2 {
      assert Plan(s, desired)[1..] == [Tag(due)];
    }
  }

  lemma NothingOutstanding(desired: Tags)
    ensures Outdated(desired, desired) == {} && Wanted(desired, desired) == map[]
  {
  }

  /** Once the outdated keys are gone, only the addition is left to plan. */
  lemma HalfwayPlan(s: Tags, desired: Tags)
    ensures Outdated(s - Outdated(s, desired), desired) == {}
    ensures Wanted(s - Outdated(s, desired), desired) == Wanted(s, desired)
  {
  }

  /** A tag that already has its desired value keeps it at every point of the plan. */
  lemma MatchingTagUntouched(s: Tags, desired: Tags, k: nat, key: string)
    requires k <= |Plan(s, desired)|
    requires key in s && key in desired && s[key] == desired[key]
    ensures key in ApplyAll(s, Plan(s, desired)[..k]) && ApplyAll(s, Plan(s, desired)[..k])[key] == s[key]
  {
    hide ApplyAll;
    var plan := Plan(s, desired);
    CallStates(s, Outdated(s, desired), Wanted(s, desired));
    NoCallYet(s, plan);
    assert key !in Outdated(s, desired);
    assert plan[..|plan|] == plan;
  }

  /**
    Call by call: first one removal of the keys that are not desired or have another value, then one
    addition of the entries that are absent or have another value; neither when it would be empty.
   */
  lemma PlanExact(latest: Tags, desired: Tags, i: nat)
    requires i < |Plan(latest, desired)|
    ensures match Plan(latest, desired)[i]
            case Untag(keys) =>
              && i == 0 && keys != {}
              && forall k :: k in keys <==> k in latest && (k in desired ==> desired[k] != latest[k])
            case Tag(entries) =>
              && i == |Plan(latest, desired)| - 1 && entries != map[]
              && (forall k :: k in entries <==> k in desired && (k in latest ==> latest[k] != desired[k]))
              && (forall k :: k in entries ==> entries[k] == desired[k])
  {
  }

  /** Each of the two calls is made when it has something to do. */
  lemma PlanComplete(latest: Tags, desired: Tags)
    ensures (exists k :: k in latest && (k in desired ==> desired[k] != latest[k])) <==>
            |Plan(latest, desired)| > 0 && Plan(latest, desired)[0].Untag?
    ensures (exists k :: k in desired && (k in latest ==> latest[k] != desired[k])) <==>
            |Plan(latest, desired)| > 0 && Plan(latest, desired)[|Plan(latest, desired)| - 1].Tag?
  {
    hide Outdated, Wanted;
    CallsInOrder(Outdated(latest, desired), Wanted(latest, desired));
    PartsByKey(latest, desired);
  }

  lemma PartsByKey(latest: Tags, desired: Tags)
    ensures Outdated(latest, desired) != {} <==> exists k :: k in latest && (k in desired ==> desired[k] != latest[k])
    ensures Wanted(latest, desired) != map[] <==> exists k :: k in desired && (k in latest ==> latest[k] != desired[k])
  {
    if k :| k in latest && (k in desired ==> desired[k] != latest[k]) {
      assert k in Outdated(latest, desired);
    }
    if k :| k in desired && (k in latest ==> latest[k] != desired[k]) {
      assert k in Wanted(latest, desired);
    }
    if Outdated(latest, desired) != {} {
      var k :| k in Outdated(latest, desired);
      assert k in latest && (k in desired ==> desired[k] != latest[k]);
    }
    if Wanted(latest, desired) != map[] {
      var k :| k in Wanted(latest, desired);
      assert k in desired && (k in latest ==> latest[k] != desired[k]);
    }
  }

  // ----- compareMaps and updateFunctionTags

  /**
    Splits the keys of two maps: only in `b`, only in `a`, in both with another value. The values
    are dereferenced without a nil test, so these are maps of strings.
   */
  method CompareMaps(a: Tags, b: Tags) returns (added: Tags, removed: seq<string>, updated: Tags)
    ensures added == Added(a, b)
    ensures KeyedSync.Enumerates(removed, a.Keys - b.Keys)
    ensures updated == Updated(a, b)
  {
    added, removed, updated := map[], [], map[];
    var rest := a.Keys;
    while rest != {}
      invariant rest <= a.Keys
      invariant KeyedSync.Enumerates(removed, (a.Keys - b.Keys) - rest)
      invariant updated == map k | k in a && k in b && k !in rest && a[k] != b[k] :: b[k]
      decreases rest
    {
      var k :| k in rest;
      if k !in b {
        KeyedSync.EnumerationGrows(removed, (a.Keys - b.Keys) - rest, k);
        assert (a.Keys - b.Keys) - (rest - {k}) == ((a.Keys - b.Keys) - rest) + {k};
        removed := removed + [k];
      } else {
        assert (a.Keys - b.Keys) - (rest - {k}) == (a.Keys - b.Keys) - rest;
        if a[k] != b[k] {
          updated := updated[k := b[k]];
        }
      }
      rest := rest - {k};
    }
    assert (a.Keys - b.Keys) - rest == a.Keys - b.Keys;
    rest := b.Keys;
    while rest != {}
      invariant rest <= b.Keys
      invariant added == map k | k in b && k !in a && k !in rest :: b[k]
      decreases rest
    {
      var k :| k in rest;
      if k !in a {
        added := added[k := b[k]];
      }
      rest := rest - {k};
    }
  }

  ghost function AsSet(keys: seq<string>): set<string> {
    set k | k in keys
  }

  ghost function Added(a: Tags, b: Tags): Tags {
    map k | k in b && k !in a :: b[k]
  }

  ghost function Updated(a: Tags, b: Tags): Tags {
    map k | k in a && k in b && a[k] != b[k] :: b[k]
  }

  ghost function Unchanged(a: Tags, b: Tags): set<string> {
    set k | k in a && k in b && a[k] == b[k]
  }

  /**
    The parts compareMaps splits two maps into are disjoint, cover every key, and rebuild the second map from
    the first.
   */
  lemma CompareMapsPartition(a: Tags, b: Tags, removed: seq<string>)
    requires KeyedSync.Enumerates(removed, a.Keys - b.Keys)
    ensures var gone := AsSet(removed);
            && Added(a, b).Keys !! gone !! Updated(a, b).Keys !! Unchanged(a, b)
            && Added(a, b).Keys + gone + Updated(a, b).Keys + Unchanged(a, b) == a.Keys + b.Keys
            && (a - gone) + Updated(a, b) + Added(a, b) == b
  {
    assert AsSet(removed) == a.Keys - b.Keys;
  }

  /** The removed and updated keys are the outdated ones. */
  lemma PartsOutdated(a: Tags, b: Tags, removed: seq<string>)
    requires KeyedSync.Enumerates(removed, a.Keys - b.Keys)
    ensures AsSet(removed) + Updated(a, b).Keys == Outdated(a, b)
    ensures |removed| + |Updated(a, b)| == |Outdated(a, b)|
  {
    hide Outdated, Updated;
    var gone := a.Keys - b.Keys;
    assert AsSet(removed) == gone;
    KeyedSync.EnumerationSize(removed, gone);
    OutdatedParts(a, b);
    SizeOfKeys(Updated(a, b));
  }

  lemma OutdatedParts(a: Tags, b: Tags)
    ensures (a.Keys - b.Keys) !! Updated(a, b).Keys
    ensures (a.Keys - b.Keys) + Updated(a, b).Keys == Outdated(a, b)
    ensures |a.Keys - b.Keys| + |Updated(a, b).Keys| == |Outdated(a, b)|
  {
    assert (a.Keys - b.Keys) + Updated(a, b).Keys == Outdated(a, b);
  }

  /** The added and updated entries are the wanted ones. */
  lemma PartsWanted(a: Tags, b: Tags)
    ensures Added(a, b) + Updated(a, b) == Wanted(a, b)
    ensures |Updated(a, b)| + |Added(a, b)| == |Wanted(a, b)|
  {
  }

  lemma SizeOfKeys(m: Tags)
    ensures |m| == |m.Keys|
  {
  }

  /** Where the calls made stand in a plan, and what they left. */
  twostate predicate MadePrefix(server: Server, plan: seq<Call>, made: nat)
    reads server
  {
    && made <= |plan|
    && server.log == old(server.log) + plan[..made]
    && server.tags == ApplyAll(old(server.tags), plan[..made])
  }

  /** The keys to remove: the updated ones, then the removed ones. */
  method CollectKeys(updated: Tags, removed: seq<string>) returns (keys: set<string>)
    ensures keys == AsSet(removed) + updated.Keys
  {
    keys := updated.Keys;
    for i := 0 to |removed|
      invariant keys == AsSet(removed[..i]) + updated.Keys
    {
      assert AsSet(removed[..i + 1]) == AsSet(removed[..i]) + {removed[i]};
      keys := keys + {removed[i]};
    }
    assert removed[..|removed|] == removed;
  }

  /** The untagging and tagging that end both updates, each guarded by what its caller counted. */
  method MakeCalls(server: Server, untag: bool, keys: set<string>, tag: bool, entries: Tags)
    returns (ok: bool, made: nat)
    requires untag <==> keys != {}
    requires tag <==> entries != map[]
    modifies server
    ensures MadePrefix(server, Calls(keys, entries), made)
    ensures ok <==> made == |Calls(keys, entries)|
  {
    hide ApplyAll, Calls;
    ghost var plan, start := Calls(keys, entries), server.tags;
    CallsInOrder(keys, entries);
    NoCallYet(start, plan);
    made, ok := 0, true;
    if untag {
      ok := server.Do(Untag(keys));
      if !ok {
        return;
      }
      OneMoreCall(start, plan, made);
      made := made + 1;
    }
    if tag {
      ok := server.Do(Tag(entries));
      if !ok {
        return;
      }
      OneMoreCall(start, plan, made);
      made := made + 1;
    }
  }

  /** The calls made are a prefix of the plan for the two maps, complete exactly on success. */
  method UpdateFunctionTags(server: Server, latest: Tags, desired: Tags) returns (ok: bool, made: nat)
    modifies server
    ensures MadePrefix(server, Plan(latest, desired), made)
    ensures ok <==> made == |Plan(latest, desired)|
  {
    hide Calls, ApplyAll, Outdated, Wanted, Added, Updated, AsSet;
    var added, removed, updated := CompareMaps(latest, desired);
    PartsOutdated(latest, desired, removed);
    PartsWanted(latest, desired);
    var removeTags := CollectKeys(updated, removed);
    ok, made := MakeCalls(server, |removed| + |updated| > 0, removeTags, |updated| + |added| > 0, added + updated);
  }

  // ----- SyncTags

  /** GetTagsDifference of the runtime library: the pairs only in `to` and the pairs only in `from`. */
  function OnlyIn(a: Tags, b: Tags): (r: Tags) {
    map k | k in a && (k, a[k]) !in b.Items :: a[k]
  }

  /** SyncTags makes the same calls as updateFunctionTags, although it compares pairs rather than keys. */
  method SyncTags(server: Server, desired: SpecTags, latest: SpecTags) returns (ok: bool, made: nat)
    modifies server
    ensures MadePrefix(server, Plan(Plain(latest), Plain(desired)), made)
    ensures ok <==> made == |Plan(Plain(latest), Plain(desired))|
  {
    hide Calls, ApplyAll, Outdated, Wanted, Plain, OnlyIn;
    var from, to := Plain(latest), Plain(desired);
    var added, removed := OnlyIn(to, from), OnlyIn(from, to);
    PairsByKey(from, to);
    var removedKeys := KeysOf(removed);
    var addTags := CopyOf(added);
    ok, made := MakeCalls(server, |removed| > 0, removedKeys, |added| > 0, addTags);
  }

  method KeysOf(tags: Tags) returns (keys: set<string>)
    ensures keys == tags.Keys
  {
    keys := {};
    var rest := tags.Keys;
    while rest != {}
      invariant rest <= tags.Keys && keys == tags.Keys - rest
      decreases rest
    {
      var k :| k in rest;
      keys, rest := keys + {k}, rest - {k};
    }
  }

  method CopyOf(tags: Tags) returns (copy: Tags)
    ensures copy == tags
  {
    copy := map[];
    var rest := tags.Keys;
    while rest != {}
      invariant rest <= tags.Keys && copy == map k | k in tags && k !in rest :: tags[k]
      decreases rest
    {
      var k :| k in rest;
      copy, rest := copy[k := tags[k]], rest - {k};
    }
  }

  /** Differences of pairs are differences by key: a changed tag is in both. */
  lemma PairsByKey(from: Tags, to: Tags)
    ensures OnlyIn(from, to).Keys == Outdated(from, to)
    ensures OnlyIn(to, from) == Wanted(from, to)
    ensures |OnlyIn(from, to)| > 0 <==> Outdated(from, to) != {}
    ensures |OnlyIn(to, from)| > 0 <==> Wanted(from, to) != map[]
  {
  }
}

/** Keeping the service's own tags out of every update. */
module SystemTags {
  import opened Common
  import opened TagService
  import opened TagSync

  /** The desired tags with the service's own tags, as last read, added to them. */
  function Mirror(desired: Tags, latest: Tags): Tags {
    desired + map k | k in latest && IsSystem(k) :: latest[k]
  }

  /** Tags without the service's own and without those set for the whole controller. */
  function Filter(tags: Tags, systemTags: seq<string>): Tags {
    map k | k in tags && !IsSystem(k) && k !in systemTags :: tags[k]
  }

  /** A resource as far as its tags go. */
  class Resource {
    var tags: SpecTags

    constructor (tags: SpecTags)
      ensures this.tags == tags
    {
      this.tags := tags;
    }

    /** Copies the service's own tags from the resource read into this one; a missing resource is ignored. */
    method MirrorAWSTags(observed: Resource?)
      modifies this
      ensures tags == if observed == null then old(tags) else Spec(Mirror(Plain(old(tags)), Plain(old(observed.tags))))
      ensures observed != null ==> forall k ::
                k in tags <==> k in old(tags) || (k in old(observed.tags) && "aws:" <= k)
      ensures observed != null ==> forall k :: k in tags ==>
                tags[k] == if "aws:" <= k && k in old(observed.tags) then Some(TextOf(old(observed.tags)[k]))
                           else Some(TextOf(old(tags)[k]))
    {
      if observed == null {
        return;
      }
      var desiredTags := Plain(tags);
      var latestTags := Plain(observed.tags);
      desiredTags := SyncAWSTags(desiredTags, latestTags);
      tags := Spec(desiredTags);
    }

    method FilterSystemTags(systemTags: seq<string>)
      modifies this
      ensures tags == Spec(Filter(Plain(old(tags)), systemTags))
      ensures forall k :: k in tags <==> k in old(tags) && !("aws:" <= k) && k !in systemTags
      ensures forall k :: k in tags ==> tags[k] == Some(TextOf(old(tags)[k]))
    {
      var resourceTags := IgnoreSystemTags(Plain(tags), systemTags);
      tags := Spec(resourceTags);
    }

    /** Adds the controller's default tags; a tag the resource has already keeps its value, a nil one becoming empty. */
    method EnsureTags(defaults: Tags)
      modifies this
      ensures tags.Keys == old(tags).Keys + defaults.Keys
      ensures forall k :: k in old(tags) ==> tags[k] == Some(if old(tags)[k].Some? then old(tags)[k].value else "")
      ensures forall k :: k in tags && k !in old(tags) ==> tags[k] == Some(defaults[k])
    {
      tags := Spec(defaults + Plain(tags));
    }
  }

  /** A tag's value; a nil pointer counts as the empty string. */
  function TextOf(value: Option<string>): string {
    if value.Some? then value.value else ""
  }

  ghost function SystemAmong(tags: Tags, keys: set<string>): Tags {
    map k | k in tags && k in keys && IsSystem(k) :: tags[k]
  }

  lemma SystemAmongGrows(tags: Tags, keys: set<string>, k: string)
    requires k in tags
    ensures SystemAmong(tags, keys + {k}) == if IsSystem(k) then SystemAmong(tags, keys)[k := tags[k]]
            else SystemAmong(tags, keys)
  {
  }

  method SyncAWSTags(a: Tags, b: Tags) returns (r: Tags)
    ensures r == Mirror(a, b)
    ensures forall k :: k in r <==> k in a || (k in b && "aws:" <= k)
    ensures forall k :: k in r ==> r[k] == if k in b && "aws:" <= k then b[k] else a[k]
  {
    hide SystemAmong;
    r := a;
    var rest := b.Keys;
    ghost var seen: set<string> := {};
    AllSystem(a, b);
    while rest != {}
      invariant rest <= b.Keys && seen == b.Keys - rest
      invariant r == a + SystemAmong(b, seen)
      decreases rest
    {
      var k :| k in rest;
      SystemAmongGrows(b, seen, k);
      if IsSystem(k) {
        r := r[k := b[k]];
      }
      rest := rest - {k};
      seen := seen + {k};
    }
    assert seen == b.Keys;
  }

  lemma AllSystem(a: Tags, b: Tags)
    ensures a + SystemAmong(b, {}) == a
    ensures a + SystemAmong(b, b.Keys) == Mirror(a, b)
  {
  }

  method IgnoreSystemTags(tags: Tags, systemTags: seq<string>) returns (r: Tags)
    ensures r == Filter(tags, systemTags)
    ensures forall k :: k in r <==> k in tags && !("aws:" <= k) && k !in systemTags
    ensures forall k :: k in r ==> r[k] == tags[k]
  {
    r := tags;
    var rest := tags.Keys;
    while rest != {}
      invariant rest <= tags.Keys
      invariant r == map k | k in tags && (k in rest || (!IsSystem(k) && k !in systemTags)) :: tags[k]
      decreases rest
    {
      var k :| k in rest;
      if IsSystem(k) || k in systemTags {
        r := r - {k};
      }
      rest := rest - {k};
    }
  }

  /** Filtering after mirroring is filtering without mirroring: nothing mirrored reaches the cluster. */
  lemma MirrorLeavesNoTrace(desired: Tags, latest: Tags, systemTags: seq<string>)
    ensures Filter(Mirror(desired, latest), systemTags) == Filter(desired, systemTags)
    ensures Mirror(Mirror(desired, latest), latest) == Mirror(desired, latest)
  {
  }

  /** A system tag the user asks for although the service does not have it. */
  ghost predicate ForeignSystemTag(desired: Tags, latest: Tags, k: string) {
    k in desired && IsSystem(k) && k !in latest
  }

  /**
    No removal planned for a mirrored spec names one of the service's own tags. An addition names one
    exactly when the user asked for it and the service does not have it.
   */
  lemma MirroredPlanSpares(desired: Tags, latest: Tags, i: nat)
    requires i < |Plan(latest, Mirror(desired, latest))|
    ensures var c := Plan(latest, Mirror(desired, latest))[i];
            && (c.Untag? ==> Accepts(c))
            && (c.Tag? ==> forall k :: k in c.entries && IsSystem(k) <==> ForeignSystemTag(desired, latest, k))
  {
  }

  /** The service accepts the whole plan exactly when the user asks for no system tag of their own. */
  lemma MirroredPlanAccepted(desired: Tags, latest: Tags)
    ensures (forall i :: 0 <= i < |Plan(latest, Mirror(desired, latest))| ==>
             Accepts(Plan(latest, Mirror(desired, latest))[i]))
            <==> !exists k :: ForeignSystemTag(desired, latest, k)
  {
    var plan := Plan(latest, Mirror(desired, latest));
    if k :| ForeignSystemTag(desired, latest, k) {
      assert k in Wanted(latest, Mirror(desired, latest));
      var i := |plan| - 1;
      assert plan[i] == Tag(Wanted(latest, Mirror(desired, latest)));
      assert !Accepts(plan[i]);
    } else {
      forall i | 0 <= i < |plan| ensures Accepts(plan[i]) {
        MirroredPlanSpares(desired, latest, i);
      }
    }
  }

  /** At every point of the plan the service's own tags are still there, unchanged. */
  lemma SystemTagsSurvive(desired: Tags, s: Tags, n: nat, k: string)
    requires n <= |Plan(s, Mirror(desired, s))|
    requires k in s && IsSystem(k)
    ensures k in ApplyAll(s, Plan(s, Mirror(desired, s))[..n])
            && ApplyAll(s, Plan(s, Mirror(desired, s))[..n])[k] == s[k]
  {
    MatchingTagUntouched(s, Mirror(desired, s), n, k);
  }

  /** A complete plan makes the user's own tags what they asked for. */
  lemma UserTagsConverge(desired: Tags, s: Tags, systemTags: seq<string>)
    ensures Filter(ApplyAll(s, Plan(s, Mirror(desired, s))), systemTags) == Filter(desired, systemTags)
  {
    PlanConverges(s, Mirror(desired, s));
    MirrorLeavesNoTrace(desired, s, systemTags);
  }
}
