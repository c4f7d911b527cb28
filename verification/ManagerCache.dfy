/**
  The cache of resource managers, shared by concurrent calls of ManagerFor under a read/write lock.
  Every step below is one that other calls can be interleaved with.
 */
module ManagerCache {
  import opened Common

  datatype Request = Request(account: string, region: string, role: string)

  /** A manager, told apart from every other by the number of its construction. */
  datatype Manager = Manager(serial: nat, builtFor: Request)

  function Key(r: Request): string {
    r.account + "/" + r.region + "/" + r.role
  }

  predicate NoSlash(s: string) {
    '/' !in s
  }

  predicate Separable(r: Request) {
    NoSlash(r.account) && NoSlash(r.region)
  }

  lemma FirstSlash(a: string, s: string)
    requires NoSlash(a)
    ensures (a + "/" + s)[|a|] == '/'
    ensures forall i :: 0 <= i < |a| ==> (a + "/" + s)[i] != '/'
    ensures (a + "/" + s)[..|a|] == a && (a + "/" + s)[|a| + 1..] == s
  {
  }

  lemma SplitAtSlash(a: string, s: string, b: string, t: string)
    requires NoSlash(a) && NoSlash(b)
    requires a + "/" + s == b + "/" + t
    ensures a == b && s == t
  {
    FirstSlash(a, s);
    FirstSlash(b, t);
    assert |a| == |b|;
  }

  /** Different requests have different keys as long as no account and no region holds a slash; roles may. */
  lemma KeyInjective(r: Request, q: Request)
    requires Separable(r) && Separable(q)
    ensures Key(r) == Key(q) <==> r == q
  {
    if Key(r) == Key(q) {
      assert Key(r) == r.account + "/" + (r.region + "/" + r.role);
      assert Key(q) == q.account + "/" + (q.region + "/" + q.role);
      SplitAtSlash(r.account, r.region + "/" + r.role, q.account, q.region + "/" + q.role);
      SplitAtSlash(r.region, r.role, q.region, q.role);
    }
  }

  /** With a slash in an account two different requests share a key. */
  lemma KeyCollision(role: string)
    ensures var r, q := Request("a/b", "c", role), Request("a", "b/c", role);
            r != q && Key(r) == Key(q)
  {
  }

  /** The part of a string before its first slash, and the part after it. */
  lemma {:induction false} Split(s: string) returns (a: string, rest: string)
    requires '/' in s
    ensures NoSlash(a) && s == a + "/" + rest
  {
    if s[0] == '/' {
      a, rest := "", s[1..];
    } else {
      a, rest := Split(s[1..]);
      assert s == [s[0]] + s[1..] == ([s[0]] + a) + "/" + rest;
      a := [s[0]] + a;
    }
  }

  /** Any key is also the key of a request without such slashes. */
  lemma SeparableTwin(r: Request) returns (q: Request)
    ensures Separable(q) && Key(q) == Key(r)
  {
    HasSlash(r.account, r.region + "/" + r.role);
    assert Key(r) == r.account + "/" + (r.region + "/" + r.role);
    var account, rest := Split(Key(r));
    if NoSlash(r.account) {
      SplitAtSlash(account, rest, r.account, r.region + "/" + r.role);
      HasSlash(r.region, r.role);
    } else {
      SlashLeft(account, rest, r.account, r.region + "/" + r.role);
    }
    var region, role := Split(rest);
    q := Request(account, region, role);
    assert account + "/" + (region + "/" + role) == Key(q);
  }

  lemma HasSlash(a: string, s: string)
    ensures '/' in a + "/" + s
  {
    assert (a + "/" + s)[|a|] == '/';
  }

  /** After the first slash of a string with one more, there is one left. */
  lemma SlashLeft(a: string, s: string, b: string, t: string)
    requires NoSlash(a) && !NoSlash(b) && a + "/" + s == b + "/" + t
    ensures '/' in s
  {
    FirstSlash(a, s);
    var i :| 0 <= i < |b| && b[i] == '/';
    assert (b + "/" + t)[i] == '/' && (b + "/" + t)[|b|] == '/';
    assert |a| <= i < |b|;
    assert (a + "/" + s)[|b|] == s[|b| - |a| - 1];
  }

  /** A request shares its key with no request without such slashes but itself exactly when it has none either. */
  lemma KeyUnique(r: Request)
    ensures Separable(r) <==> forall q :: Separable(q) && Key(q) == Key(r) ==> q == r
  {
    if Separable(r) {
      forall q | Separable(q) && Key(q) == Key(r) ensures q == r { KeyInjective(q, r); }
    } else {
      var q := SeparableTwin(r);
      assert Separable(q) && Key(q) == Key(r) && q != r;
    }
  }

  // ----- the steps of a call

  datatype Phase =
    | Start
    | Reading                            // holds the read lock
    | LookedUp(found: Option<Manager>)   // still holds it
    | Missed                             // holds nothing
    | Writing                            // holds the write lock
    | Built(manager: Manager)
    | Inserted(manager: Manager)
    | Returned(manager: Manager)
    | Failed

  /** All calls and the shared cache; `missed` and `builders` remember which calls ever missed or built. */
  datatype State = State(
    calls: map<nat, Request>,
    phases: map<nat, Phase>,
    cache: map<string, Manager>,
    readers: set<nat>,
    writer: Option<nat>,
    builds: nat,
    missed: set<nat>,
    builders: set<nat>)

  predicate Init(s: State) {
    && s.phases == (map c | c in s.calls :: Start)
    && s.cache == map[] && s.readers == {} && s.writer.None?
    && s.builds == 0 && s.missed == {} && s.builders == {}
  }

  function Moved(s: State, c: nat, p: Phase): State {
    s.(phases := s.phases[c := p])
  }

  /** One step of call `c`. */
  ghost predicate Step(s: State, t: State, c: nat)
    requires c in s.calls && c in s.phases
  {
    var key := Key(s.calls[c]);
    match s.phases[c]
    case Start => s.writer.None? && t == Moved(s, c, Reading).(readers := s.readers + {c})
    case Reading =>
      if key in s.cache then t == Moved(s, c, LookedUp(Some(s.cache[key])))
      else t == Moved(s, c, LookedUp(None)).(missed := s.missed + {c})
    case LookedUp(found) =>
      t == Moved(s, c, if found.Some? then Returned(found.value) else Missed).(readers := s.readers - {c})
    case Missed => s.writer.None? && s.readers == {} && t == Moved(s, c, Writing).(writer := Some(c))
    case Writing =>
      || t == Moved(s, c, Built(Manager(s.builds, s.calls[c]))).(builds := s.builds + 1, builders := s.builders + {c})
      || t == Moved(s, c, Failed).(writer := None)
    case Built(m) => t == Moved(s, c, Inserted(m)).(cache := s.cache[key := m])
    case Inserted(m) => t == Moved(s, c, Returned(m)).(writer := None)
    case Returned(_) => false
    case Failed => false
  }

  ghost predicate Next(s: State, t: State) {
    exists c :: c in s.calls && c in s.phases && Step(s, t, c)
  }

  /** A run: any interleaving of the steps of all calls. */
  ghost predicate Run(states: seq<State>) {
    && states != [] && Init(states[0])
    && forall i :: 0 <= i < |states| - 1 ==> Next(states[i], states[i + 1])
  }

  // ----- what every step keeps

  predicate HoldsRead(p: Phase) {
    p.Reading? || p.LookedUp?
  }

  predicate HoldsWrite(p: Phase) {
    p.Writing? || p.Built? || p.Inserted?
  }

  /** The manager was built for one of the calls, under this key. */
  ghost predicate Fits(calls: map<nat, Request>, m: Manager, key: string) {
    Key(m.builtFor) == key && exists c :: c in calls && calls[c] == m.builtFor
  }

  /** The manager a phase carries fits the call. */
  ghost predicate Carries(calls: map<nat, Request>, p: Phase, key: string) {
    match p
    case LookedUp(found) => found.Some? ==> Fits(calls, found.value, key)
    case Built(m) => Fits(calls, m, key)
    case Inserted(m) => Fits(calls, m, key)
    case Returned(m) => Fits(calls, m, key)
    case _ => true
  }

  /** A call past a lookup that found nothing has missed. */
  predicate PastMiss(p: Phase) {
    p == LookedUp(None) || p.Missed? || HoldsWrite(p) || p.Failed?
  }

  ghost predicate Locks(s: State) {
    && (forall c :: c in s.phases ==> (c in s.readers <==> HoldsRead(s.phases[c])))
    && (forall c :: c in s.phases ==> (s.writer == Some(c) <==> HoldsWrite(s.phases[c])))
    && s.readers <= s.calls.Keys && (s.writer.Some? ==> s.writer.value in s.calls && s.readers == {})
  }

  ghost predicate Managers(s: State)
    requires s.phases.Keys <= s.calls.Keys
  {
    && (forall k :: k in s.cache ==> Fits(s.calls, s.cache[k], k))
    && (forall c :: c in s.phases ==> Carries(s.calls, s.phases[c], Key(s.calls[c])))
  }

  ghost predicate Inv(s: State) {
    && s.phases.Keys == s.calls.Keys
    && Locks(s)
    && Managers(s)
    && (forall c :: c in s.phases && PastMiss(s.phases[c]) ==> c in s.missed)
    && s.missed <= s.calls.Keys && s.builders <= s.missed
  }

  lemma InvInit(s: State)
    requires Init(s)
    ensures Inv(s)
  {
  }

  /** A step moves its own call only. */
  lemma OnePhaseMoves(s: State, t: State, c: nat)
    requires c in s.calls && c in s.phases && Step(s, t, c)
    ensures t.calls == s.calls && c in t.phases && t.phases == s.phases[c := t.phases[c]]
  {
    hide Key;
  }

  lemma InvStep(s: State, t: State, c: nat)
    requires Inv(s) && c in s.calls && c in s.phases && Step(s, t, c)
    ensures Inv(t) && t.calls == s.calls
  {
    hide Key, Locks, Managers;
    OnePhaseMoves(s, t, c);
    LocksStep(s, t, c);
    ManagersStep(s, t, c);
  }

  lemma LocksStep(s: State, t: State, c: nat)
    requires s.phases.Keys == s.calls.Keys && Locks(s) && c in s.calls && Step(s, t, c)
    ensures Locks(t)
  {
    hide Key;
  }

  lemma ManagersStep(s: State, t: State, c: nat)
    requires s.phases.Keys == s.calls.Keys && Managers(s) && c in s.calls && Step(s, t, c)
    ensures t.calls == s.calls && t.phases.Keys == s.phases.Keys && Managers(t)
  {
    hide Key, Fits;
    FitsOwnCall(s.calls, s.builds, c);
  }

  lemma FitsOwnCall(calls: map<nat, Request>, serial: nat, c: nat)
    requires c in calls
    ensures Fits(calls, Manager(serial, calls[c]), Key(calls[c]))
  {
  }

  /** A step never takes a key out of the cache, never forgets a miss, and adds none for a key that is in it. */
  lemma StepKeeps(s: State, t: State, c: nat)
    requires Inv(s) && c in s.calls && c in s.phases && Step(s, t, c)
    ensures s.cache.Keys <= t.cache.Keys
    ensures forall k :: k in s.cache ==> MissedFor(t, k) == MissedFor(s, k)
  {
    hide Key;
  }

  /** The calls for a key whose lookup found nothing. */
  ghost function MissedFor(s: State, k: string): set<nat> {
    set c | c in s.missed && c in s.calls && Key(s.calls[c]) == k
  }

  /** The calls for a key that built a manager. */
  ghost function BuildersFor(s: State, k: string): set<nat> {
    set c | c in s.builders && c in s.calls && Key(s.calls[c]) == k
  }

  lemma {:induction false} RunInv(states: seq<State>, i: nat)
    requires Run(states) && i < |states|
    ensures Inv(states[i]) && states[i].calls == states[0].calls
    decreases i
  {
    hide Inv, Step, Init;
    if i == 0 {
      InvInit(states[0]);
    } else {
      RunInv(states, i - 1);
      assert Next(states[i - 1], states[i]);
      var c :| c in states[i - 1].calls && c in states[i - 1].phases && Step(states[i - 1], states[i], c);
      InvStep(states[i - 1], states[i], c);
    }
  }

  // ----- the main results

  /** No call ever reads the cache while another writes it, and no two write it. */
  lemma Exclusion(states: seq<State>, i: nat, c: nat, d: nat)
    requires Run(states) && i < |states|
    requires c in states[i].phases && d in states[i].phases && c != d
    ensures HoldsWrite(states[i].phases[c]) ==> !HoldsWrite(states[i].phases[d]) && !HoldsRead(states[i].phases[d])
  {
    hide Run;
    RunInv(states, i);
  }

  /** In every interleaving, a returned manager was built for the account, region and role its caller asked for. */
  lemma ReturnedManagerFits(states: seq<State>, i: nat, c: nat)
    requires Run(states) && i < |states|
    requires forall d :: d in states[0].calls ==> Separable(states[0].calls[d])
    requires c in states[i].phases && states[i].phases[c].Returned?
    ensures c in states[i].calls && states[i].phases[c].manager.builtFor == states[i].calls[c]
  {
    hide Run, Separable, Key;
    RunInv(states, i);
    KeyInjective(states[i].phases[c].manager.builtFor, states[i].calls[c]);
  }

  /** Keys never leave the cache, and misses for a cached key stop: later states have exactly the misses there were. */
  lemma {:induction false} KeysStay(states: seq<State>, i: nat, j: nat, k: string)
    requires Run(states) && i <= j < |states| && k in states[i].cache
    ensures k in states[j].cache
    ensures MissedFor(states[j], k) == MissedFor(states[i], k)
    decreases j
  {
    hide MissedFor, Step, Inv, Init;
    if i < j {
      KeysStay(states, i, j - 1, k);
      RunInv(states, j - 1);
      assert Next(states[j - 1], states[j]);
      var c :| c in states[j - 1].calls && c in states[j - 1].phases && Step(states[j - 1], states[j], c);
      StepKeeps(states[j - 1], states[j], c);
    }
  }

  /**
    The price of looking up under the read lock: more than one manager may be built for a key, but
    never more than there were calls whose lookup missed before the key was first inserted.
   */
  lemma BuildsBounded(states: seq<State>, i: nat, j: nat, k: string)
    requires Run(states) && i <= j < |states| && k in states[i].cache
    ensures BuildersFor(states[j], k) <= MissedFor(states[i], k)
    ensures |BuildersFor(states[j], k)| <= |MissedFor(states[i], k)|
  {
    hide Run;
    KeysStay(states, i, j, k);
    RunInv(states, j);
    SubsetSize(BuildersFor(states[j], k), MissedFor(states[i], k));
  }

  // ----- how many managers a key gets

  /** A call past the construction of its own manager; a returned manager may also have come from the cache. */
  predicate PastBuild(p: Phase) {
    p.Built? || p.Inserted? || p.Returned?
  }

  predicate BeforeMiss(p: Phase) {
    p.Start? || p.Reading? || (p.LookedUp? && p.found.Some?)
  }

  /** What the builders say of one call. */
  predicate BuilderFits(s: State, c: nat)
    requires c in s.phases
  {
    && (c in s.builders <==> c in s.missed && PastBuild(s.phases[c]))
    && (BeforeMiss(s.phases[c]) ==> c !in s.missed)
    && (PastMiss(s.phases[c]) ==> c in s.missed)
  }

  /** The builders are the calls that missed and have a manager. */
  ghost predicate Builders(s: State)
    requires s.phases.Keys == s.calls.Keys
  {
    && s.builders <= s.calls.Keys && s.builds == |s.builders|
    && (forall c :: c in s.phases ==> BuilderFits(s, c))
  }

  lemma BuildersStep(s: State, t: State, c: nat)
    requires Inv(s) && Builders(s) && c in s.calls && c in s.phases && Step(s, t, c)
    ensures t.phases.Keys == t.calls.Keys && Builders(t)
  {
    hide Key, Inv, Step, PastBuild, BeforeMiss, PastMiss;
    SameCalls(s, t, c);
    OnePhaseMoves(s, t, c);
    BuilderMoves(s, t, c);
  }

  lemma SameCalls(s: State, t: State, c: nat)
    requires Inv(s) && c in s.calls && c in s.phases && Step(s, t, c)
    ensures s.phases.Keys == s.calls.Keys
  {
  }

  /** What the move of a call means for the builders. */
  lemma BuilderMoves(s: State, t: State, c: nat)
    requires c in s.calls && c in s.phases && Step(s, t, c) && BuilderFits(s, c)
    ensures c in t.phases && BuilderFits(t, c)
    ensures t.builders == s.builders || (t.builders == s.builders + {c} && c !in s.builders)
    ensures t.builds - s.builds == if t.builders == s.builders then 0 else 1
    ensures t.missed == s.missed || t.missed == s.missed + {c}
  {
    hide Key;
    var p := s.phases[c];
    if p.Writing? {
      assert c !in s.builders;
    }
  }

  lemma {:induction false} RunBuilders(states: seq<State>, i: nat)
    requires Run(states) && i < |states|
    ensures states[i].phases.Keys == states[i].calls.Keys && Builders(states[i])
    decreases i
  {
    hide Inv, Step, Builders;
    if i == 0 {
      NoBuilders(states[0]);
    } else {
      RunBuilders(states, i - 1);
      RunInv(states, i - 1);
      assert Next(states[i - 1], states[i]);
      var c :| c in states[i - 1].calls && c in states[i - 1].phases && Step(states[i - 1], states[i], c);
      BuildersStep(states[i - 1], states[i], c);
    }
  }

  lemma NoBuilders(s: State)
    requires Init(s)
    ensures s.phases.Keys == s.calls.Keys && Builders(s)
  {
  }

  /** The calls for a key that missed and got through to a manager. */
  ghost function ThroughFor(s: State, k: string): set<nat> {
    set c | c in MissedFor(s, k) && c in s.phases && PastBuild(s.phases[c])
  }

  /**
    Every call that misses and is not refused builds a manager of its own. So at any point of any run
    the managers built for a key are as many as the missed calls that got through, and there is more
    than one exactly when two did; altogether as many were built as calls built one.
   */
  lemma BuildersExact(states: seq<State>, i: nat, k: string)
    requires Run(states) && i < |states|
    ensures BuildersFor(states[i], k) == ThroughFor(states[i], k)
    ensures |BuildersFor(states[i], k)| > 1 <==>
            exists c, d :: c != d && c in ThroughFor(states[i], k) && d in ThroughFor(states[i], k)
    ensures states[i].builds == |states[i].builders|
  {
    hide Run, Key;
    RunBuilders(states, i);
    MoreThanOne(BuildersFor(states[i], k));
  }

  lemma MoreThanOne(s: set<nat>)
    ensures |s| > 1 <==> exists c, d :: c != d && c in s && d in s
  {
    if |s| > 1 {
      var c :| c in s;
      assert |s - {c}| > 0;
      var d :| d in s - {c};
    }
    if c, d :| c != d && c in s && d in s {
      SubsetSize({c, d}, s);
    }
  }

  /** Once every call has ended, that is exactly when two calls for the key missed and were not refused. */
  lemma EndedBuilders(states: seq<State>, i: nat, k: string)
    requires Run(states) && i < |states|
    requires forall c :: c in states[i].phases ==> Finished(states[i].phases[c])
    ensures BuildersFor(states[i], k) == set c | c in MissedFor(states[i], k) && c in states[i].phases
            && states[i].phases[c].Returned?
  {
    hide Run, Key;
    BuildersExact(states, i, k);
  }

  lemma RunExtends(states: seq<State>, t: State, c: nat)
    requires Run(states)
    requires var s := states[|states| - 1]; c in s.calls && c in s.phases && Step(s, t, c)
    ensures Run(states + [t])
  {
    hide Step, Init;
    var more := states + [t];
    forall i | 0 <= i < |more| - 1 ensures Next(more[i], more[i + 1]) {
      if i < |states| - 1 {
        assert Next(states[i], states[i + 1]);
      } else {
        assert Next(more[i], more[i + 1]);
      }
    }
  }

  /** The steps of a call that misses and is not refused, up to its miss and from there on. */
  lemma UntilMissed(states: seq<State>, c: nat) returns (more: seq<State>)
    requires states != [] && Run(states)
    requires var s := states[|states| - 1];
             c in s.calls && c in s.phases && s.phases[c].Start? && s.writer.None? && Key(s.calls[c]) !in s.cache
                 && c !in s.readers
    ensures Run(more) && |more| > |states| && more[..|states|] == states
    ensures var s, t := states[|states| - 1], more[|more| - 1];
            t == Moved(s, c, Missed).(missed := s.missed + {c})
  {
    hide Run, Key;
    var s := states[|states| - 1];
    var s1 := Moved(s, c, Reading).(readers := s.readers + {c});
    var s2 := Moved(s1, c, LookedUp(None)).(missed := s1.missed + {c});
    var s3 := Moved(s2, c, Missed).(readers := s2.readers - {c});
    RunExtends(states, s1, c);
    RunExtends(states + [s1], s2, c);
    RunExtends(states + [s1] + [s2], s3, c);
    more := states + [s1] + [s2] + [s3];
    assert s3.phases == s.phases[c := Missed];
    assert s3.readers == s.readers;
  }

  lemma FromMissed(states: seq<State>, c: nat) returns (more: seq<State>)
    requires states != [] && Run(states)
    requires var s := states[|states| - 1];
             c in s.calls && c in s.phases && s.phases[c].Missed? && s.writer.None? && s.readers == {}
    ensures Run(more) && |more| > |states| && more[..|states|] == states
    ensures var s, t := states[|states| - 1], more[|more| - 1];
            var m := Manager(s.builds, s.calls[c]);
            t == Moved(s, c, Returned(m)).(cache := s.cache[Key(s.calls[c]) := m], builds := s.builds + 1,
                                           builders := s.builders + {c})
  {
    hide Run, Key;
    var s := states[|states| - 1];
    var m := Manager(s.builds, s.calls[c]);
    var s1 := Moved(s, c, Writing).(writer := Some(c));
    var s2 := Moved(s1, c, Built(m)).(builds := s1.builds + 1, builders := s1.builders + {c});
    var s3 := Moved(s2, c, Inserted(m)).(cache := s2.cache[Key(s.calls[c]) := m]);
    var s4 := Moved(s3, c, Returned(m)).(writer := None);
    RunExtends(states, s1, c);
    RunExtends(states + [s1], s2, c);
    RunExtends(states + [s1] + [s2], s3, c);
    RunExtends(states + [s1] + [s2] + [s3], s4, c);
    more := states + [s1] + [s2] + [s3] + [s4];
    assert s4.phases == s.phases[c := Returned(m)];
  }

  /**
    Two calls for one key, each looking it up before the other inserts: both build, they return
    different managers, and the second replaces the first in the cache.
   */
  lemma TwoManagersForOneKey(r: Request) returns (states: seq<State>)
    ensures Run(states)
    ensures var last := states[|states| - 1];
            && last.calls == map[0 := r, 1 := r]
            && BuildersFor(last, Key(r)) == {0, 1}
            && last.phases == map[0 := Returned(Manager(0, r)), 1 := Returned(Manager(1, r))]
            && last.cache == map[Key(r) := Manager(1, r)]
  {
    hide Run, Key;
    var start := State(map[0 := r, 1 := r], map[0 := Start, 1 := Start], map[], {}, None, 0, {}, {});
    states := [start];
    StartsRun(start);
    states := UntilMissed(states, 0);
    states := UntilMissed(states, 1);
    states := FromMissed(states, 0);
    states := FromMissed(states, 1);
    var last := states[|states| - 1];
    assert last.builders == {0, 1};
    assert last.phases == map[0 := Returned(Manager(0, r)), 1 := Returned(Manager(1, r))];
  }

  lemma StartsRun(s: State)
    requires Init(s)
    ensures Run([s])
  {
  }

  // ----- no call waits for ever

  predicate Finished(p: Phase) {
    p.Returned? || p.Failed?
  }

  /** As long as some call has not finished, some call can take a step. */
  lemma NoDeadlock(s: State, c: nat)
    requires Inv(s) && c in s.calls && !Finished(s.phases[c])
    ensures exists t :: Next(s, t)
  {
    var d := if s.writer.Some? then s.writer.value else if s.readers != {} then var r :| r in s.readers; r else c;
    assert d in s.calls && d in s.phases;
    var key := Key(s.calls[d]);
    var p := s.phases[d];
    var t :=
      if p.Start? then Moved(s, d, Reading).(readers := s.readers + {d})
      else if p.Reading? then
        if key in s.cache then Moved(s, d, LookedUp(Some(s.cache[key])))
            else Moved(s, d, LookedUp(None)).(missed := s.missed + {d})
      else if p.LookedUp? then Moved(s, d, if p.found.Some? then Returned(p.found.value)
                                     else Missed).(readers := s.readers - {d})
      else if p.Missed? then Moved(s, d, Writing).(writer := Some(d))
      else if p.Writing? then Moved(s, d, Failed).(writer := None)
      else if p.Built? then Moved(s, d, Inserted(p.manager)).(cache := s.cache[key := p.manager])
      else Moved(s, d, Returned(p.manager)).(writer := None);
    assert Step(s, t, d);
    assert Next(s, t);
  }

  /** How many steps a call has left at most. */
  function Left(p: Phase): nat {
    match p
    case Start => 7
    case Reading => 6
    case LookedUp(_) => 5
    case Missed => 4
    case Writing => 3
    case Built(_) => 2
    case Inserted(_) => 1
    case Returned(_) => 0
    case Failed => 0
  }

  /** Every step brings its call closer to the end and leaves the others where they are. */
  lemma StepAdvances(s: State, t: State, c: nat)
    requires Inv(s) && c in s.calls && c in s.phases && Step(s, t, c)
    ensures c in t.phases && Left(t.phases[c]) < Left(s.phases[c])
    ensures forall d :: d in s.phases && d != c ==> d in t.phases && t.phases[d] == s.phases[d]
  {
    hide Key, Inv;
    OnePhaseMoves(s, t, c);
  }
}
