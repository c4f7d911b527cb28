/** The status conditions of a resource, and how each outcome of an operation updates them. */
module Conditions {
  import opened Common

  datatype ConditionType = Terminal | Recoverable | ResourceSynced | Other(name: string)

  datatype Status = IsTrue | IsFalse | IsUnknown

  datatype ConditionValue = ConditionValue(kind: ConditionType, status: Status, message: Option<string>)

  /** How an operation ended: no error, an error worth retrying, or one the user must act on. */
  datatype Outcome = Success | RecoverableError(message: string) | TerminalError(message: string)

  type Values = seq<ConditionValue>

  /** The index of the last condition of a kind, or -1: the search overwrites what it found before. */
  function LastIndex(vs: Values, kind: ConditionType): (i: int)
    ensures -1 <= i < |vs|
    ensures i >= 0 ==> vs[i].kind == kind
    ensures forall j :: i < j < |vs| ==> vs[j].kind != kind
  {
    if vs == [] then -1
    else if vs[|vs| - 1].kind == kind then |vs| - 1
    else LastIndex(vs[..|vs| - 1], kind)
  }

  predicate Has(vs: Values, kind: ConditionType) {
    LastIndex(vs, kind) >= 0
  }

  /** Edits the condition of this kind, if there is one. */
  function Edit(vs: Values, kind: ConditionType, status: Status, message: Option<string>): Values {
    if Has(vs, kind) then vs[LastIndex(vs, kind) := ConditionValue(kind, status, message)] else vs
  }

  /** Edits the condition of this kind, or appends one. */
  function Put(vs: Values, kind: ConditionType, status: Status, message: Option<string>): Values {
    if Has(vs, kind) then Edit(vs, kind, status, message) else vs + [ConditionValue(kind, status, message)]
  }

  function Updated(vs: Values, o: Outcome): Values {
    match o
    case TerminalError(m) => Put(vs, Terminal, IsTrue, Some(m))
    case RecoverableError(m) => Put(Edit(vs, Terminal, IsFalse, None), Recoverable, IsTrue, Some(m))
    case Success => Edit(Edit(vs, Terminal, IsFalse, None), Recoverable, IsFalse, None)
  }

  class Condition {
    var kind: ConditionType
    var status: Status
    var message: Option<string>

    constructor (kind: ConditionType, status: Status, message: Option<string>)
      ensures Value() == ConditionValue(kind, status, message)
    {
      this.kind, this.status, this.message := kind, status, message;
    }

    function Value(): ConditionValue
      reads this
    {
      ConditionValue(kind, status, message)
    }
  }

  ghost function ValuesOf(cs: seq<Condition>): Values
    reads cs
  {
    seq(|cs|, i requires 0 <= i < |cs| reads cs => cs[i].Value())
  }

  ghost predicate DistinctObjects(cs: seq<Condition>) {
    forall i, j :: 0 <= i < j < |cs| ==> cs[i] != cs[j]
  }

  class Resource {
    var conditions: seq<Condition>

    constructor (conditions: seq<Condition>)
      ensures this.conditions == conditions
    {
      this.conditions := conditions;
    }

    method DeepCopy() returns (copy: Resource)
      ensures fresh(copy) && fresh(copy.conditions)
      ensures DistinctObjects(copy.conditions)
      ensures ValuesOf(copy.conditions) == ValuesOf(conditions)
    {
      var cs: seq<Condition> := [];
      for i := 0 to |conditions|
        invariant |cs| == i && fresh(cs) && DistinctObjects(cs)
        invariant forall j :: 0 <= j < i ==> cs[j].Value() == conditions[j].Value()
      {
        var c := new Condition(conditions[i].kind, conditions[i].status, conditions[i].message);
        cs := cs + [c];
      }
      copy := new Resource(cs);
    }
  }

  /** The condition object the search for a kind ends with. */
  method FindLast(cs: seq<Condition>, kind: ConditionType) returns (found: Condition?)
    ensures IsLast(cs, kind, found)
  {
    found := null;
    for i := 0 to |cs|
      invariant ValuesOf(cs[..i]) == ValuesOf(cs)[..i]
      invariant found == null <==> !Has(ValuesOf(cs[..i]), kind)
      invariant found != null ==> found == cs[LastIndex(ValuesOf(cs[..i]), kind)]
    {
      assert ValuesOf(cs[..i + 1]) == ValuesOf(cs[..i]) + [cs[i].Value()];
      assert ValuesOf(cs[..i + 1])[..i] == ValuesOf(cs[..i]);
      if cs[i].kind == kind {
        found := cs[i];
      }
    }
    assert cs[..|cs|] == cs;
  }

  /** What FindLast answers for a kind. */
  ghost predicate IsLast(cs: seq<Condition>, kind: ConditionType, found: Condition?)
    reads cs
  {
    if found == null then !Has(ValuesOf(cs), kind)
    else found in cs && Has(ValuesOf(cs), kind) && found == cs[LastIndex(ValuesOf(cs), kind)]
  }

  /** Edits the condition found, if there is one; the values of the others stay. */
  method EditCondition(ghost cs: seq<Condition>, found: Condition?, ghost kind: ConditionType, status: Status,
                       message: Option<string>)
    requires DistinctObjects(cs) && IsLast(cs, kind, found)
    modifies if found == null then {} else {found}
    ensures ValuesOf(cs) == Edit(old(ValuesOf(cs)), kind, status, message)
  {
    if found != null {
      found.status := status;
      found.message := message;
      assert ValuesOf(cs) == old(ValuesOf(cs))[LastIndex(old(ValuesOf(cs)), kind) := ConditionValue(kind, status,
              message)];
    }
  }

  /** Edits the condition found, or appends one when there is none. */
  method PutCondition(ko: Resource, found: Condition?, kind: ConditionType, status: Status, message: Option<string>)
    requires DistinctObjects(ko.conditions) && IsLast(ko.conditions, kind, found)
    modifies {ko} + (if found == null then {} else {found})
    ensures ValuesOf(ko.conditions) == Put(old(ValuesOf(ko.conditions)), kind, status, message)
    ensures forall i :: 0 <= i < |ko.conditions| ==> ko.conditions[i] in old(ko.conditions) || fresh(ko.conditions[i])
  {
    if found == null {
      var added := new Condition(kind, status, message);
      ko.conditions := ko.conditions + [added];
      assert ValuesOf(ko.conditions) == old(ValuesOf(ko.conditions)) + [added.Value()];
    } else {
      EditCondition(ko.conditions, found, kind, status, message);
    }
  }

  /**
    The resource given is left as it is: the copy is edited and returned. Nothing is returned when
    the resource has, in the end, none of the conditions the controller manages.
   */
  method UpdateConditions(r: Resource, o: Outcome) returns (r1: Resource?, updated: bool)
    ensures updated <==> r1 != null
    ensures updated <==> o != Success || Managed(ValuesOf(r.conditions))
    ensures updated <==>
              || o != Success
              || exists i :: 0 <= i < |r.conditions| && r.conditions[i].kind in {Terminal, Recoverable, ResourceSynced}
    ensures updated ==> fresh(r1) && fresh(r1.conditions)
    ensures updated ==> ValuesOf(r1.conditions) == Updated(ValuesOf(r.conditions), o)
  {
    hide ValuesOf, Updated, Managed;
    ManagedExact(r.conditions);
    var ko := r.DeepCopy();
    updated := Record(ko, o);
    r1 := if updated then ko else null;
  }

  /** Finds the managed conditions of the copy and edits them. */
  method Record(ko: Resource, o: Outcome) returns (updated: bool)
    requires DistinctObjects(ko.conditions)
    modifies ko, ko.conditions
    ensures updated <==> o != Success || Managed(old(ValuesOf(ko.conditions)))
    ensures ValuesOf(ko.conditions) == Updated(old(ValuesOf(ko.conditions)), o)
    ensures forall i :: 0 <= i < |ko.conditions| ==> ko.conditions[i] in old(ko.conditions) || fresh(ko.conditions[i])
  {
    hide ValuesOf, Updated, Put, Has;
    ghost var vs := ValuesOf(ko.conditions);
    var terminal := FindLast(ko.conditions, Terminal);
    var recoverable := FindLast(ko.conditions, Recoverable);
    var sync := FindLast(ko.conditions, ResourceSynced);
    updated := terminal != null || recoverable != null || sync != null || o != Success;
    if o.TerminalError? {
      TerminalUpdate(vs, o);
      PutCondition(ko, terminal, Terminal, IsTrue, Some(o.message));
    } else {
      RecordNonTerminal(ko, terminal, recoverable, o);
    }
  }

  /** The branch for everything but a terminal error. */
  method RecordNonTerminal(ko: Resource, terminal: Condition?, recoverable: Condition?, o: Outcome)
    requires !o.TerminalError? && DistinctObjects(ko.conditions)
    requires IsLast(ko.conditions, Terminal, terminal) && IsLast(ko.conditions, Recoverable, recoverable)
    modifies {ko} + (if terminal == null then {} else {terminal}) + (if recoverable == null then {} else {recoverable})
    ensures ValuesOf(ko.conditions) == Updated(old(ValuesOf(ko.conditions)), o)
    ensures forall i :: 0 <= i < |ko.conditions| ==> ko.conditions[i] in old(ko.conditions) || fresh(ko.conditions[i])
  {
    hide ValuesOf, Put, Edit, Has;
    ghost var vs := ValuesOf(ko.conditions);
    SameLength(ko.conditions);
    EditCondition(ko.conditions, terminal, Terminal, IsFalse, None);
    StillLast(vs, ko.conditions, recoverable);
    if o.RecoverableError? {
      PutCondition(ko, recoverable, Recoverable, IsTrue, Some(o.message));
    } else {
      EditCondition(ko.conditions, recoverable, Recoverable, IsFalse, None);
    }
  }

  lemma SameLength(cs: seq<Condition>)
    ensures |ValuesOf(cs)| == |cs|
  {
  }

  lemma TerminalUpdate(vs: Values, o: Outcome)
    requires o.TerminalError?
    ensures Updated(vs, o) == Put(vs, Terminal, IsTrue, Some(o.message))
  {
  }

  /** Clearing the Terminal condition does not move the Recoverable one. */
  lemma StillLast(vs: Values, cs: seq<Condition>, recoverable: Condition?)
    requires ValuesOf(cs) == Edit(vs, Terminal, IsFalse, None)
    requires recoverable == null <==> !Has(vs, Recoverable)
    requires recoverable != null ==> recoverable in cs && LastIndex(vs, Recoverable) < |cs|
    requires recoverable != null ==> recoverable == cs[LastIndex(vs, Recoverable)]
    ensures IsLast(cs, Recoverable, recoverable)
  {
    EditKeepsKinds(vs, Terminal, IsFalse, None);
  }

  predicate Managed(vs: Values) {
    Has(vs, Terminal) || Has(vs, Recoverable) || Has(vs, ResourceSynced)
  }

  lemma ManagedExact(cs: seq<Condition>)
    ensures Managed(ValuesOf(cs)) <==>
            exists i :: 0 <= i < |cs| && cs[i].kind in {Terminal, Recoverable, ResourceSynced}
  {
    var vs := ValuesOf(cs);
    assert forall i :: 0 <= i < |cs| ==> vs[i].kind == cs[i].kind;
    if i :| 0 <= i < |cs| && cs[i].kind in {Terminal, Recoverable, ResourceSynced} {
      assert Has(vs, vs[i].kind);
    }
  }

  lemma {:induction false} EditKeepsKinds(vs: Values, kind: ConditionType, status: Status, message: Option<string>)
    ensures |Edit(vs, kind, status, message)| == |vs|
    ensures forall other :: LastIndex(Edit(vs, kind, status, message), other) == LastIndex(vs, other)
  {
    SameKindsSameIndex(vs, Edit(vs, kind, status, message));
  }

  lemma SameKindsSameIndex(vs: Values, ws: Values)
    requires |vs| == |ws| && forall i :: 0 <= i < |vs| ==> vs[i].kind == ws[i].kind
    ensures forall kind :: LastIndex(vs, kind) == LastIndex(ws, kind)
  {
  }

  /** What the caller of an operation gets back as its error. */
  datatype Returned = NoError | GivenError | TerminalMark

  /** An error ends in the terminal mark exactly when the updated resource has some Terminal condition that is true. */
  method OnError(r: Resource?, o: Outcome) returns (r1: Resource?, e: Returned)
    requires o != Success
    ensures r == null ==> r1 == null && e == GivenError
    ensures r != null ==> r1 != null && ValuesOf(r1.conditions) == Updated(ValuesOf(r.conditions), o)
    ensures r != null ==> e == if SomeTerminal(Updated(ValuesOf(r.conditions), o)) then TerminalMark else GivenError
    ensures r != null ==> (e == TerminalMark <==> exists c <- r1.conditions :: c.kind == Terminal && c.status == IsTrue)
  {
    if r == null {
      return null, GivenError;
    }
    var copy, updated := UpdateConditions(r, o);
    for i := 0 to |copy.conditions|
      invariant forall j :: 0 <= j < i ==>
              !(ValuesOf(copy.conditions)[j].kind == Terminal && ValuesOf(copy.conditions)[j].status == IsTrue)
      invariant forall j :: 0 <= j < i ==> !(copy.conditions[j].kind == Terminal && copy.conditions[j].status == IsTrue)
    {
      if copy.conditions[i].kind == Terminal && copy.conditions[i].status == IsTrue {
        assert ValuesOf(copy.conditions)[i].kind == Terminal;
        return copy, TerminalMark;
      }
    }
    return copy, GivenError;
  }

  predicate SomeTerminal(vs: Values) {
    exists i :: 0 <= i < |vs| && vs[i].kind == Terminal && vs[i].status == IsTrue
  }

  method OnSuccess(r: Resource?) returns (r1: Resource?)
    ensures r == null <==> r1 == null
    ensures r != null ==> ValuesOf(r1.conditions) == Updated(ValuesOf(r.conditions), Success)
  {
    if r == null {
      return null;
    }
    var copy, updated := UpdateConditions(r, Success);
    if !updated {
      return r;
    }
    return copy;
  }

  // ----- one outcome, condition by condition

  /** The condition at `i` is the last of its kind. */
  ghost predicate IsLastOfKind(vs: Values, i: int, kind: ConditionType) {
    0 <= i < |vs| && vs[i].kind == kind && forall j :: i < j < |vs| ==> vs[j].kind != kind
  }

  lemma LastIndexExact(vs: Values, kind: ConditionType)
    ensures forall i :: IsLastOfKind(vs, i, kind) <==> Has(vs, kind) && i == LastIndex(vs, kind)
    ensures Has(vs, kind) <==> exists i :: 0 <= i < |vs| && vs[i].kind == kind
  {
  }

  lemma EditExact(vs: Values, kind: ConditionType, status: Status, message: Option<string>)
    ensures var ws := Edit(vs, kind, status, message);
            && |ws| == |vs|
            && forall i :: 0 <= i < |vs| ==>
                 ws[i] == if IsLastOfKind(vs, i, kind) then ConditionValue(kind, status, message) else vs[i]
  {
    hide LastIndex, IsLastOfKind;
    LastIndexExact(vs, kind);
  }

  lemma PutExact(vs: Values, kind: ConditionType, status: Status, message: Option<string>)
    ensures var ws := Put(vs, kind, status, message);
            var present := exists i :: 0 <= i < |vs| && vs[i].kind == kind;
            && |ws| == |vs| + (if present then 0 else 1)
            && (forall i :: 0 <= i < |vs| ==>
                  ws[i] == if IsLastOfKind(vs, i, kind) then ConditionValue(kind, status, message) else vs[i])
            && (!present ==> ws[|vs|] == ConditionValue(kind, status, message))
  {
    hide LastIndex, IsLastOfKind;
    LastIndexExact(vs, kind);
    EditExact(vs, kind, status, message);
  }

  /** A terminal error sets or appends the Terminal condition, and leaves every other as it is. */
  lemma TerminalExact(vs: Values, message: string)
    ensures var ws := Updated(vs, TerminalError(message));
            var present := exists i :: 0 <= i < |vs| && vs[i].kind == Terminal;
            && |ws| == |vs| + (if present then 0 else 1)
            && (forall i :: 0 <= i < |vs| ==>
                  ws[i] == if IsLastOfKind(vs, i, Terminal) then ConditionValue(Terminal, IsTrue, Some(message))
                           else vs[i])
            && (!present ==> ws[|vs|] == ConditionValue(Terminal, IsTrue, Some(message)))
  {
    PutExact(vs, Terminal, IsTrue, Some(message));
  }

  /** Success clears both conditions where they are there, message and all, and appends none. */
  lemma SuccessExact(vs: Values)
    ensures var ws := Updated(vs, Success);
            && |ws| == |vs|
            && forall i :: 0 <= i < |vs| ==>
                 ws[i] == if IsLastOfKind(vs, i, Terminal) then ConditionValue(Terminal, IsFalse, None)
                          else if IsLastOfKind(vs, i, Recoverable) then ConditionValue(Recoverable, IsFalse, None)
                          else vs[i]
  {
    hide Edit, IsLastOfKind;
    ClearedTerminal(vs);
    EditExact(Edit(vs, Terminal, IsFalse, None), Recoverable, IsFalse, None);
  }

  /** Any other error clears the Terminal condition and sets or appends the Recoverable one. */
  lemma RecoverableExact(vs: Values, message: string)
    ensures var ws := Updated(vs, RecoverableError(message));
            var present := exists i :: 0 <= i < |vs| && vs[i].kind == Recoverable;
            && |ws| == |vs| + (if present then 0 else 1)
            && (forall i :: 0 <= i < |vs| ==>
                  ws[i] == if IsLastOfKind(vs, i, Terminal) then ConditionValue(Terminal, IsFalse, None)
                           else if IsLastOfKind(vs, i, Recoverable)
                           then ConditionValue(Recoverable, IsTrue, Some(message))
                           else vs[i])
            && (!present ==> ws[|vs|] == ConditionValue(Recoverable, IsTrue, Some(message)))
  {
    hide Edit, Put, IsLastOfKind;
    ClearedTerminal(vs);
    PutExact(Edit(vs, Terminal, IsFalse, None), Recoverable, IsTrue, Some(message));
    assert forall i :: 0 <= i < |vs| ==> Edit(vs, Terminal, IsFalse, None)[i].kind == vs[i].kind;
  }

  /** Clearing the Terminal condition keeps every kind in its place, so the Recoverable one stays where it is. */
  lemma ClearedTerminal(vs: Values)
    ensures var ws := Edit(vs, Terminal, IsFalse, None);
            && |ws| == |vs|
            && (forall i :: 0 <= i < |vs| ==>
                  ws[i] == if IsLastOfKind(vs, i, Terminal) then ConditionValue(Terminal, IsFalse, None) else vs[i])
            && (forall i :: 0 <= i < |vs| ==> ws[i].kind == vs[i].kind)
            && (forall i :: IsLastOfKind(ws, i, Recoverable) <==> IsLastOfKind(vs, i, Recoverable))
            && (forall i :: IsLastOfKind(vs, i, Recoverable) ==> !IsLastOfKind(vs, i, Terminal))
  {
    EditExact(vs, Terminal, IsFalse, None);
  }

  // ----- histories

  /** The conditions after a history of outcomes. */
  function After(vs: Values, history: seq<Outcome>): Values {
    if history == [] then vs else Updated(After(vs, history[..|history| - 1]), history[|history| - 1])
  }

  ghost predicate UniqueKinds(vs: Values) {
    forall i, j :: 0 <= i < j < |vs| ==> vs[i].kind != vs[j].kind
  }

  predicate HoldsTrue(vs: Values, kind: ConditionType) {
    Has(vs, kind) && vs[LastIndex(vs, kind)].status == IsTrue
  }

  function MessageOf(vs: Values, kind: ConditionType): Option<string> {
    if Has(vs, kind) then vs[LastIndex(vs, kind)].message else None
  }

  /** Conditions other than the two that outcomes change. */
  function Others(vs: Values): Values {
    if vs == [] then []
    else
      var n := |vs| - 1;
      Others(vs[..n]) + (if vs[n].kind == Terminal || vs[n].kind == Recoverable then [] else [vs[n]])
  }

  lemma IndexOf(vs: Values, kind: ConditionType, i: nat)
    requires UniqueKinds(vs) && i < |vs| && vs[i].kind == kind
    ensures LastIndex(vs, kind) == i
  {
  }

  /** Appending a condition of a new kind. */
  lemma AppendIndex(vs: Values, v: ConditionValue)
    requires !Has(vs, v.kind)
    ensures LastIndex(vs + [v], v.kind) == |vs|
    ensures forall other :: other != v.kind ==> LastIndex(vs + [v], other) == LastIndex(vs, other)
  {
    assert (vs + [v])[..|vs|] == vs;
  }

  /** One put keeps kinds unique and in their places. */
  lemma PutKeepsKinds(vs: Values, kind: ConditionType, status: Status, message: Option<string>)
    requires UniqueKinds(vs)
    ensures var ws := Put(vs, kind, status, message);
            && UniqueKinds(ws) && |vs| <= |ws|
            && (forall i :: 0 <= i < |vs| ==> ws[i].kind == vs[i].kind)
  {
    hide LastIndex;
    if !Has(vs, kind) { NoneOfKind(vs, kind); }
  }

  lemma NoneOfKind(vs: Values, kind: ConditionType)
    requires !Has(vs, kind)
    ensures forall i :: 0 <= i < |vs| ==> vs[i].kind != kind
  {
  }

  /** One put sets its own kind. */
  lemma PutSets(vs: Values, kind: ConditionType, status: Status, message: Option<string>)
    ensures var ws := Put(vs, kind, status, message);
            (HoldsTrue(ws, kind) <==> status == IsTrue) && MessageOf(ws, kind) == message
  {
    hide LastIndex;
    if Has(vs, kind) {
      EditKeepsKinds(vs, kind, status, message);
    } else {
      AppendIndex(vs, ConditionValue(kind, status, message));
    }
  }

  /** ... and leaves every other kind as it was. */
  lemma PutLeaves(vs: Values, kind: ConditionType, status: Status, message: Option<string>, other: ConditionType)
    requires other != kind
    ensures var ws := Put(vs, kind, status, message);
            (HoldsTrue(ws, other) <==> HoldsTrue(vs, other)) && MessageOf(ws, other) == MessageOf(vs, other)
  {
    hide LastIndex;
    if Has(vs, kind) {
      EditKeepsKinds(vs, kind, status, message);
    } else {
      AppendIndex(vs, ConditionValue(kind, status, message));
    }
  }

  /** One put: its own kind is set, every other kind is as before, and nothing moves. */
  lemma PutEffect(vs: Values, kind: ConditionType, status: Status, message: Option<string>, other: ConditionType)
    requires UniqueKinds(vs) && other != kind
    ensures var ws := Put(vs, kind, status, message);
            && UniqueKinds(ws) && |vs| <= |ws|
            && (forall i :: 0 <= i < |vs| ==> ws[i].kind == vs[i].kind)
            && (HoldsTrue(ws, kind) <==> status == IsTrue) && MessageOf(ws, kind) == message
            && (HoldsTrue(ws, other) <==> HoldsTrue(vs, other)) && MessageOf(ws, other) == MessageOf(vs, other)
  {
    hide Put, UniqueKinds, HoldsTrue, MessageOf;
    PutKeepsKinds(vs, kind, status, message);
    PutSets(vs, kind, status, message);
    PutLeaves(vs, kind, status, message, other);
  }

  /** Clearing a kind: a put if there is one, and nothing to clear otherwise. */
  lemma EditEffect(vs: Values, kind: ConditionType, other: ConditionType)
    requires UniqueKinds(vs) && other != kind
    ensures var ws := Edit(vs, kind, IsFalse, None);
            && UniqueKinds(ws) && |vs| == |ws|
            && (forall i :: 0 <= i < |vs| ==> ws[i].kind == vs[i].kind)
            && !HoldsTrue(ws, kind)
            && (HoldsTrue(ws, other) <==> HoldsTrue(vs, other)) && MessageOf(ws, other) == MessageOf(vs, other)
  {
    hide UniqueKinds, MessageOf, LastIndex;
    EditKeepsKinds(vs, kind, IsFalse, None);
    if Has(vs, kind) { PutEffect(vs, kind, IsFalse, None, other); }
  }

  lemma {:induction false} OthersKept(vs: Values, i: nat, v: ConditionValue)
    requires i < |vs| && v.kind == vs[i].kind
    requires v.kind == Terminal || v.kind == Recoverable
    ensures Others(vs[i := v]) == Others(vs)
  {
    var n := |vs| - 1;
    if i < n {
      assert vs[i := v][..n] == vs[..n][i := v];
      OthersKept(vs[..n], i, v);
    } else {
      assert vs[i := v][..n] == vs[..n];
    }
  }

  lemma PutKeepsOthers(vs: Values, kind: ConditionType, status: Status, message: Option<string>)
    requires kind == Terminal || kind == Recoverable
    ensures Others(Put(vs, kind, status, message)) == Others(vs)
    ensures Others(Edit(vs, kind, status, message)) == Others(vs)
  {
    var v := ConditionValue(kind, status, message);
    if Has(vs, kind) {
      OthersKept(vs, LastIndex(vs, kind), v);
    } else {
      assert (vs + [v])[..|vs|] == vs;
    }
  }

  /** One outcome. */
  lemma UpdateEffect(vs: Values, o: Outcome)
    requires UniqueKinds(vs)
    ensures var ws := Updated(vs, o);
            && UniqueKinds(ws) && |vs| <= |ws|
            && (forall i :: 0 <= i < |vs| ==> ws[i].kind == vs[i].kind)
            && (HoldsTrue(ws, Terminal) <==> o.TerminalError?)
            && (o.TerminalError? ==> MessageOf(ws, Terminal) == Some(o.message))
            && (HoldsTrue(ws, Recoverable) <==>
                if o.TerminalError? then HoldsTrue(vs, Recoverable) else o.RecoverableError?)
            && (o.RecoverableError? ==> MessageOf(ws, Recoverable) == Some(o.message))
            && (o.TerminalError? ==> MessageOf(ws, Recoverable) == MessageOf(vs, Recoverable))
            && Others(ws) == Others(vs)
  {
    hide Put, Edit, UniqueKinds, HoldsTrue, MessageOf, Others;
    var cleared := Edit(vs, Terminal, IsFalse, None);
    EditEffect(vs, Terminal, Recoverable);
    PutKeepsOthers(vs, Terminal, IsFalse, None);
    match o
    case TerminalError(m) =>
      PutEffect(vs, Terminal, IsTrue, Some(m), Recoverable);
      PutKeepsOthers(vs, Terminal, IsTrue, Some(m));
    case RecoverableError(m) =>
      PutEffect(cleared, Recoverable, IsTrue, Some(m), Terminal);
      PutKeepsOthers(cleared, Recoverable, IsTrue, Some(m));
    case Success =>
      EditEffect(cleared, Recoverable, Terminal);
      PutKeepsOthers(cleared, Recoverable, IsFalse, None);
  }

  /** The last outcome of a history that was not a terminal error. */
  function LastNonTerminal(history: seq<Outcome>): Option<Outcome> {
    if history == [] then None
    else if !history[|history| - 1].TerminalError? then Some(history[|history| - 1])
    else LastNonTerminal(history[..|history| - 1])
  }

  /**
    The conditions remember exactly this of any history: Terminal is true when the last outcome was
    a terminal error, Recoverable when the last outcome that was not terminal was an error. No kind
    ever occurs twice, nothing moves, and every other condition stays what it was.
   */
  lemma {:induction false} History(vs: Values, history: seq<Outcome>)
    requires UniqueKinds(vs)
    ensures var ws := After(vs, history);
            && UniqueKinds(ws) && |vs| <= |ws|
            && (forall i :: 0 <= i < |vs| ==> ws[i].kind == vs[i].kind)
            && Others(ws) == Others(vs)
            && (history != [] ==> var last := history[|history| - 1];
                  && (HoldsTrue(ws, Terminal) <==> last.TerminalError?)
                  && (last.TerminalError? ==> MessageOf(ws, Terminal) == Some(last.message)))
            && (HoldsTrue(ws, Recoverable) <==>
                  match LastNonTerminal(history)
                  case None => HoldsTrue(vs, Recoverable)
                  case Some(o) => o.RecoverableError?)
            && (LastNonTerminal(history).Some? && LastNonTerminal(history).value.RecoverableError? ==>
                  MessageOf(ws, Recoverable) == Some(LastNonTerminal(history).value.message))
  {
    hide Updated, UniqueKinds, HoldsTrue, MessageOf, Others;
    if history != [] {
      var n := |history| - 1;
      History(vs, history[..n]);
      UpdateEffect(After(vs, history[..n]), history[n]);
    }
  }

  /** From conditions of unique kinds, an operation returns the terminal mark exactly on a terminal error. */
  lemma TerminalMarkExact(vs: Values, o: Outcome)
    requires UniqueKinds(vs)
    ensures SomeTerminal(Updated(vs, o)) <==> o.TerminalError?
  {
    hide Updated;
    UpdateEffect(vs, o);
    var ws := Updated(vs, o);
    if i :| 0 <= i < |ws| && ws[i].kind == Terminal && ws[i].status == IsTrue {
      IndexOf(ws, Terminal, i);
    }
  }

  /** A stale Recoverable stays true beside a later Terminal: the two are not exclusive. */
  lemma BothCanHold(retry: string, fatal: string)
    ensures var ws := After([], [RecoverableError(retry), TerminalError(fatal)]);
            HoldsTrue(ws, Terminal) && HoldsTrue(ws, Recoverable) && MessageOf(ws, Recoverable) == Some(retry)
  {
    hide Updated, HoldsTrue, MessageOf, Others, After;
    var h := [RecoverableError(retry), TerminalError(fatal)];
    History([], h);
    assert h[..1] == [RecoverableError(retry)];
    assert LastNonTerminal(h) == Some(RecoverableError(retry));
  }
}
