/**
  Bringing a keyed collection to a desired state through a service that can only remove an entry
  and add one whose key is free. Two entries count as the same when `view` shows them the same.
 */
module KeyedSync {

  datatype Call<+V> = Remove(key: string) | Add(key: string, entry: V)

  /** The service refuses to remove an absent entry and to add one whose key is taken. */
  predicate Accepts<V>(s: map<string, V>, c: Call<V>) {
    match c
    case Remove(k) => k in s
    case Add(k, _) => k !in s
  }

  function Apply<V>(s: map<string, V>, c: Call<V>): map<string, V> {
    match c
    case Remove(k) => s - {k}
    case Add(k, v) => s[k := v]
  }

  function ApplyAll<V>(s: map<string, V>, calls: seq<Call<V>>): map<string, V> {
    if calls == [] then s else Apply(ApplyAll(s, calls[..|calls| - 1]), calls[|calls| - 1])
  }

  lemma OneMoreCall<V>(s: map<string, V>, calls: seq<Call<V>>, k: nat)
    requires k < |calls|
    ensures ApplyAll(s, calls[..k + 1]) == Apply(ApplyAll(s, calls[..k]), calls[k])
  {
    assert calls[..k + 1][..k] == calls[..k];
  }

  // ----- the difference between two collections

  /** Both hold the key, with entries that look the same. */
  predicate Matches<V, W(==)>(view: V -> W, desired: map<string, V>, latest: map<string, V>, k: string) {
    k in desired && k in latest && view(desired[k]) == view(latest[k])
  }

  /** Keys of `latest` that are not wanted, or not wanted as they are. */
  function Stale<V, W(==)>(view: V -> W, desired: map<string, V>, latest: map<string, V>): set<string> {
    set k | k in latest && !Matches(view, desired, latest, k)
  }

  /** Keys of `desired` that are absent, or present but different. */
  function Missing<V, W(==)>(view: V -> W, desired: map<string, V>, latest: map<string, V>): set<string> {
    set k | k in desired && !Matches(view, desired, latest, k)
  }

  /** How far `latest` is from `desired`: the number of calls needed. */
  function Gap<V, W(==)>(view: V -> W, desired: map<string, V>, latest: map<string, V>): nat {
    |Stale(view, desired, latest)| + |Missing(view, desired, latest)|
  }

  /** No gap means the same keys, with entries that look the same. */
  lemma NoGap<V, W>(view: V -> W, desired: map<string, V>, latest: map<string, V>)
    ensures Gap(view, desired, latest) == 0 <==>
            desired.Keys == latest.Keys && forall k :: k in desired ==> view(desired[k]) == view(latest[k])
  {
    var stale, missing := Stale(view, desired, latest), Missing(view, desired, latest);
    if Gap(view, desired, latest) == 0 {
      assert stale == {} && missing == {};
      assert forall k :: k in desired ==> k !in missing;
      assert forall k :: k in latest ==> k !in stale;
      assert forall k :: k in desired ==> Matches(view, desired, latest, k);
      assert forall k :: k in latest ==> Matches(view, desired, latest, k);
    }
  }

  /** Which side is called desired does not matter to the size of the gap. */
  lemma GapSymmetric<V, W>(view: V -> W, a: map<string, V>, b: map<string, V>)
    ensures Gap(view, a, b) == Gap(view, b, a)
  {
    assert Stale(view, a, b) == Missing(view, b, a);
    assert Missing(view, a, b) == Stale(view, b, a);
  }

  /** A call that closes one unit of the gap: it removes a stale entry or adds an absent desired one. */
  ghost predicate Useful<V, W>(view: V -> W, desired: map<string, V>, s: map<string, V>, c: Call<V>) {
    match c
    case Remove(k) => k in Stale(view, desired, s)
    case Add(k, v) => k in desired && desired[k] == v && k !in s
  }

  lemma UsefulCall<V, W>(view: V -> W, desired: map<string, V>, s: map<string, V>, c: Call<V>)
    requires Useful(view, desired, s, c)
    ensures Accepts(s, c)
    ensures Gap(view, desired, Apply(s, c)) == Gap(view, desired, s) - 1
  {
    if c.Remove? {
      UsefulRemove(view, desired, s, c.key);
    } else {
      UsefulAdd(view, desired, s, c.key);
    }
  }

  lemma UsefulRemove<V, W>(view: V -> W, desired: map<string, V>, s: map<string, V>, k: string)
    requires k in Stale(view, desired, s)
    ensures Stale(view, desired, s - {k}) == Stale(view, desired, s) - {k}
    ensures Missing(view, desired, s - {k}) == Missing(view, desired, s)
  {
  }

  lemma UsefulAdd<V, W>(view: V -> W, desired: map<string, V>, s: map<string, V>, k: string)
    requires k in desired && k !in s
    ensures k in Missing(view, desired, s)
    ensures Stale(view, desired, s[k := desired[k]]) == Stale(view, desired, s)
    ensures Missing(view, desired, s[k := desired[k]]) == Missing(view, desired, s) - {k}
  {
  }

  // ----- plans

  /** `keys` visits every key of the set once, in some order. */
  ghost predicate Enumerates(keys: seq<string>, ks: set<string>) {
    && (forall i, j :: 0 <= i < j < |keys| ==> keys[i] != keys[j])
    && (forall i :: 0 <= i < |keys| ==> keys[i] in ks)
    && (forall k :: k in ks ==> k in keys)
  }

  lemma {:induction false} EnumerationSize(keys: seq<string>, ks: set<string>)
    requires Enumerates(keys, ks)
    ensures |keys| == |ks|
  {
    if keys == [] {
      assert ks == {};
    } else {
      var n := |keys| - 1;
      var less := ks - {keys[n]};
      forall k | k in less ensures k in keys[..n] {
        var i :| 0 <= i < |keys| && keys[i] == k;
        assert keys[..n][i] == k;
      }
      EnumerationSize(keys[..n], less);
      assert ks == less + {keys[n]};
    }
  }

  lemma SomeEnumeration(ks: set<string>) returns (keys: seq<string>)
    ensures Enumerates(keys, ks)
  {
    keys := [];
    var rest := ks;
    while rest != {}
      invariant rest <= ks && Enumerates(keys, ks - rest)
      decreases rest
    {
      var k :| k in rest;
      EnumerationGrows(keys, ks - rest, k);
      assert ks - (rest - {k}) == (ks - rest) + {k};
      keys, rest := keys + [k], rest - {k};
    }
    assert ks - rest == ks;
  }

  lemma EnumerationGrows(keys: seq<string>, ks: set<string>, k: string)
    requires Enumerates(keys, ks) && k !in ks
    ensures Enumerates(keys + [k], ks + {k})
  {
  }

  /** All removals first, then all additions. */
  function Plan<V>(desired: map<string, V>, toRemove: seq<string>, toAdd: seq<string>): seq<Call<V>>
    requires forall i :: 0 <= i < |toAdd| ==> toAdd[i] in desired
  {
    seq(|toRemove|, i requires 0 <= i < |toRemove| => Remove(toRemove[i]))
    + seq(|toAdd|, i requires 0 <= i < |toAdd| => Add(toAdd[i], desired[toAdd[i]]))
  }

  /** The two lists hold what must change between `desired` and `s`. */
  ghost predicate PlanFor<V, W>(view: V -> W, desired: map<string, V>, s: map<string, V>, toRemove: seq<string>,
                                toAdd: seq<string>) {
    Enumerates(toRemove, Stale(view, desired, s)) && Enumerates(toAdd, Missing(view, desired, s))
  }

  ghost function Prefix(keys: seq<string>, n: nat): set<string>
    requires n <= |keys|
  {
    set i | 0 <= i < n :: keys[i]
  }

  ghost function Restrict<V>(m: map<string, V>, ks: set<string>): map<string, V> {
    map k | k in m && k in ks :: m[k]
  }

  /** The collection once `r` removals and `a` additions of a plan are made. */
  ghost function Midway<V>(desired: map<string, V>, s: map<string, V>, toRemove: seq<string>, toAdd: seq<string>,
                           r: nat, a: nat): map<string, V>
    requires r <= |toRemove| && a <= |toAdd|
  {
    (s - Prefix(toRemove, r)) + Restrict(desired, Prefix(toAdd, a))
  }

  lemma {:induction false} StateAfter<V>(desired: map<string, V>, s: map<string, V>, toRemove: seq<string>,
                                         toAdd: seq<string>, k: nat)
    requires forall i :: 0 <= i < |toAdd| ==> toAdd[i] in desired
    requires k <= |toRemove| + |toAdd|
    ensures ApplyAll(s, Plan(desired, toRemove, toAdd)[..k])
         == Midway(desired, s, toRemove, toAdd, Removed(toRemove, k), k - Removed(toRemove, k))
    decreases k
  {
    hide Midway;
    var plan := Plan(desired, toRemove, toAdd);
    if k == 0 {
      NothingYet(desired, s, toRemove, toAdd);
    } else {
      StateAfter(desired, s, toRemove, toAdd, k - 1);
      OneMoreCall(s, plan, k - 1);
      if k <= |toRemove| {
        assert plan[k - 1] == Remove(toRemove[k - 1]);
        OneRemoval(desired, s, toRemove, toAdd, k - 1);
      } else {
        var a := k - 1 - |toRemove|;
        assert plan[k - 1] == Add(toAdd[a], desired[toAdd[a]]);
        OneAddition(desired, s, toRemove, toAdd, a);
      }
    }
  }

  lemma NothingYet<V>(desired: map<string, V>, s: map<string, V>, toRemove: seq<string>, toAdd: seq<string>)
    ensures Midway(desired, s, toRemove, toAdd, 0, 0) == s
  {
  }

  /** How many of the first `k` calls of a plan are removals. */
  ghost function Removed(toRemove: seq<string>, k: nat): nat {
    if k <= |toRemove| then k else |toRemove|
  }

  lemma OneRemoval<V>(desired: map<string, V>, s: map<string, V>, toRemove: seq<string>, toAdd: seq<string>, r: nat)
    requires r < |toRemove|
    ensures Midway(desired, s, toRemove, toAdd, r + 1, 0) == Midway(desired, s, toRemove, toAdd, r, 0) - {toRemove[r]}
  {
  }

  lemma OneAddition<V>(desired: map<string, V>, s: map<string, V>, toRemove: seq<string>, toAdd: seq<string>, a: nat)
    requires a < |toAdd| && toAdd[a] in desired
    ensures Midway(desired, s, toRemove, toAdd, |toRemove|, a + 1)
         == Midway(desired, s, toRemove, toAdd, |toRemove|, a)[toAdd[a] := desired[toAdd[a]]]
  {
  }

  /** Every call of a plan is useful when its turn comes. */
  lemma EveryCallUseful<V, W>(view: V -> W, desired: map<string, V>, s: map<string, V>, toRemove: seq<string>,
                              toAdd: seq<string>, k: nat)
    requires PlanFor(view, desired, s, toRemove, toAdd)
    requires k < |toRemove| + |toAdd|
    ensures Useful(view, desired, ApplyAll(s, Plan(desired, toRemove, toAdd)[..k]), Plan(desired, toRemove, toAdd)[k])
  {
    StateAfter(desired, s, toRemove, toAdd, k);
    var now := ApplyAll(s, Plan(desired, toRemove, toAdd)[..k]);
    if k < |toRemove| {
      var key := toRemove[k];
      assert Prefix(toAdd, 0) == {};
      assert key !in Prefix(toRemove, k);
      assert key in now && now[key] == s[key];
      assert Matches(view, desired, now, key) == Matches(view, desired, s, key);
    } else {
      var key := toAdd[k - |toRemove|];
      assert key !in Prefix(toAdd, k - |toRemove|);
      if key in s {
        assert key in Stale(view, desired, s);
        var i :| 0 <= i < |toRemove| && toRemove[i] == key;
        assert key in Prefix(toRemove, |toRemove|);
      }
    }
  }

  lemma PlanSize<V, W>(view: V -> W, desired: map<string, V>, s: map<string, V>, toRemove: seq<string>,
                       toAdd: seq<string>)
    requires PlanFor(view, desired, s, toRemove, toAdd)
    ensures |Plan(desired, toRemove, toAdd)| == |toRemove| + |toAdd| == Gap(view, desired, s)
  {
    EnumerationSize(toRemove, Stale(view, desired, s));
    EnumerationSize(toAdd, Missing(view, desired, s));
  }

  /**
    Retry safety with an exact measure. Stop a plan after any `k` of its calls: the gap that is
    left is the original gap less `k`.
   */
  lemma {:induction false} GapAfterPrefix<V, W>(view: V -> W, desired: map<string, V>, s: map<string, V>,
                                                toRemove: seq<string>, toAdd: seq<string>, k: nat)
    requires PlanFor(view, desired, s, toRemove, toAdd)
    requires k <= |toRemove| + |toAdd|
    ensures Gap(view, desired, ApplyAll(s, Plan(desired, toRemove, toAdd)[..k])) == Gap(view, desired, s) - k
    decreases k
  {
    var plan := Plan(desired, toRemove, toAdd);
    if k > 0 {
      GapAfterPrefix(view, desired, s, toRemove, toAdd, k - 1);
      var before := ApplyAll(s, plan[..k - 1]);
      EveryCallUseful(view, desired, s, toRemove, toAdd, k - 1);
      UsefulCall(view, desired, before, plan[k - 1]);
      OneMoreCall(s, plan, k - 1);
    }
  }

  /** The service refuses no call of a plan: each removed key is present, each added key is free. */
  lemma ConflictFree<V, W>(view: V -> W, desired: map<string, V>, s: map<string, V>, toRemove: seq<string>,
                           toAdd: seq<string>, k: nat)
    requires PlanFor(view, desired, s, toRemove, toAdd)
    requires k < |toRemove| + |toAdd|
    ensures Accepts(ApplyAll(s, Plan(desired, toRemove, toAdd)[..k]), Plan(desired, toRemove, toAdd)[k])
  {
    EveryCallUseful(view, desired, s, toRemove, toAdd, k);
    UsefulCall(view, desired, ApplyAll(s, Plan(desired, toRemove, toAdd)[..k]), Plan(desired, toRemove, toAdd)[k]);
  }

  /** A complete plan leaves exactly the desired keys, each with an entry that looks as desired. */
  lemma PlanConverges<V, W>(view: V -> W, desired: map<string, V>, s: map<string, V>, toRemove: seq<string>,
                            toAdd: seq<string>)
    requires PlanFor(view, desired, s, toRemove, toAdd)
    ensures var final := ApplyAll(s, Plan(desired, toRemove, toAdd));
            && final.Keys == desired.Keys
            && (forall k :: k in desired ==> view(desired[k]) == view(final[k]))
            && Gap(view, desired, final) == 0
  {
    var plan := Plan(desired, toRemove, toAdd);
    PlanSize(view, desired, s, toRemove, toAdd);
    GapAfterPrefix(view, desired, s, toRemove, toAdd, |plan|);
    assert plan[..|plan|] == plan;
    NoGap(view, desired, ApplyAll(s, plan));
  }

  /** An entry that already matches is the same entry at every point of a plan. */
  lemma MatchingUntouched<V, W>(view: V -> W, desired: map<string, V>, s: map<string, V>, toRemove: seq<string>,
                                toAdd: seq<string>, k: nat, key: string)
    requires PlanFor(view, desired, s, toRemove, toAdd)
    requires k <= |toRemove| + |toAdd| && Matches(view, desired, s, key)
    ensures var now := ApplyAll(s, Plan(desired, toRemove, toAdd)[..k]); key in now && now[key] == s[key]
  {
    StateAfter(desired, s, toRemove, toAdd, k);
    assert key !in toRemove && key !in toAdd;
  }

  // ----- retries

  /** From one state to the next by `k` calls of a plan made for the first. */
  ghost predicate Attempt<V(!new), W>(view: V -> W, desired: map<string, V>, s: map<string, V>, k: nat,
                                      t: map<string, V>) {
    exists toRemove, toAdd ::
      && PlanFor(view, desired, s, toRemove, toAdd)
      && k <= |toRemove| + |toAdd|
      && t == ApplyAll(s, Plan(desired, toRemove, toAdd)[..k])
  }

  /** A run of attempts, each planned afresh and each cut off after made[i] calls. */
  ghost predicate Attempts<V(!new), W>(view: V -> W, desired: map<string, V>, states: seq<map<string, V>>,
                                       made: seq<nat>) {
    && |states| == |made| + 1
    && forall i :: 0 <= i < |made| ==> Attempt(view, desired, states[i], made[i], states[i + 1])
  }

  function Sum(ns: seq<nat>): nat {
    if ns == [] then 0 else Sum(ns[..|ns| - 1]) + ns[|ns| - 1]
  }

  /**
    However often synchronisation is cut off and started again, no call is wasted: the calls made
    in all attempts together are exactly what the gap has shrunk by.
   */
  lemma {:induction false} NoCallWasted<V(!new), W>(view: V -> W, desired: map<string, V>, states: seq<map<string, V>>,
                                                    made: seq<nat>)
    requires Attempts(view, desired, states, made)
    ensures Gap(view, desired, states[|made|]) + Sum(made) == Gap(view, desired, states[0])
  {
    hide Gap;
    if made != [] {
      var n := |made| - 1;
      assert Attempts(view, desired, states[..n + 1], made[..n]);
      NoCallWasted(view, desired, states[..n + 1], made[..n]);
      assert Attempt(view, desired, states[n], made[n], states[n + 1]);
      AttemptGap(view, desired, states[n], made[n], states[n + 1]);
    }
  }

  lemma AttemptGap<V(!new), W>(view: V -> W, desired: map<string, V>, s: map<string, V>, k: nat, t: map<string, V>)
    requires Attempt(view, desired, s, k, t)
    ensures Gap(view, desired, t) + k == Gap(view, desired, s)
  {
    var toRemove, toAdd :|
      && PlanFor(view, desired, s, toRemove, toAdd)
      && k <= |toRemove| + |toAdd|
      && t == ApplyAll(s, Plan(desired, toRemove, toAdd)[..k]);
    GapAfterPrefix(view, desired, s, toRemove, toAdd, k);
  }
}
