/** Updating a function: one pass of ordered calls, guarded by the function's state and cut short by terminal errors. */
module FunctionUpdate {
  import opened Common
  import opened Deltas
  import opened Int32
  import opened FunctionSpecs
  import opened FunctionService
  import TagService
  import TagSync
  import EventInvoke
  import N = FieldNames

  // ----- updateFunctionConfiguration

  /** The fields a configuration request can carry, in the order they are filled in. */
  const SENT_FIELDS: seq<N.Name> := [
    N.DEAD_LETTER_CONFIG, N.DURABLE_CONFIG, N.DESCRIPTION, N.ENVIRONMENT, N.EPHEMERAL_STORAGE, N.FILE_SYSTEM_CONFIGS,
    N.HANDLER, N.IMAGE_CONFIG, N.KMS_KEY_ARN, N.LAYERS, N.LOGGING_CONFIG, N.MEMORY_SIZE, N.ROLE, N.RUNTIME,
    N.SNAP_START, N.TIMEOUT, N.TRACING_CONFIG, N.VPC_CONFIG]

  /** These are cleared explicitly when they are desired absent; the others are then left out. */
  predicate ClearedWhenAbsent(n: N.Name) {
    n == N.DEAD_LETTER_CONFIG || n == N.DESCRIPTION || n == N.ENVIRONMENT || n == N.EPHEMERAL_STORAGE || n == N.HANDLER
    || n == N.KMS_KEY_ARN || n == N.MEMORY_SIZE || n == N.ROLE || n == N.SNAP_START || n == N.TIMEOUT
    || n == N.TRACING_CONFIG || n == N.VPC_CONFIG
  }

  predicate HoldsNumbers(n: N.Name) {
    n == N.DURABLE_CONFIG || n == N.EPHEMERAL_STORAGE || n == N.MEMORY_SIZE || n == N.TIMEOUT
  }

  /** Every number in the tree converted to int32. */
  function Narrowed(t: Tree): Tree {
    match t
    case Leaf(Number(v)) => Leaf(Number(Narrow(v)))
    case Node(fields) => Node(NarrowedFields(fields))
    case _ => t
  }

  function NarrowedFields(f: Fields): Fields {
    match f
    case NoFields => f
    case Field(n, t, rest) => Field(n, Narrowed(t), NarrowedFields(rest))
  }

  predicate InRange(t: Tree) {
    match t
    case Leaf(Number(v)) => Fits(v)
    case Node(fields) => FieldsInRange(fields)
    case _ => true
  }

  predicate FieldsInRange(f: Fields) {
    f.Field? ==> InRange(f.tree) && FieldsInRange(f.rest)
  }

  /** Conversion changes nothing exactly when every number fits. */
  lemma {:induction false} NarrowedExact(t: Tree)
    ensures Narrowed(t) == t <==> InRange(t)
  {
    match t
    case Leaf(Number(v)) => RoundTrip(Some(v));
    case Node(fields) => NarrowedFieldsExact(fields);
    case _ =>
  }

  lemma {:induction false} NarrowedFieldsExact(f: Fields)
    ensures NarrowedFields(f) == f <==> FieldsInRange(f)
  {
    if f.Field? {
      NarrowedExact(f.tree);
      NarrowedFieldsExact(f.rest);
    }
  }

  predicate IsEnum(n: N.Name) {
    n == N.MODE || n == N.APPLY_ON || n == N.APPLICATION_LOG_LEVEL || n == N.LOG_FORMAT || n == N.SYSTEM_LOG_LEVEL
  }

  predicate HoldsEnums(n: N.Name) {
    n == N.LOGGING_CONFIG || n == N.SNAP_START || n == N.TRACING_CONFIG
  }

  /** A structure as the request carries it: an enumerated field that is empty is left out. */
  function Serialized(t: Tree): Tree {
    match t
    case Node(fields) => Node(SerializedFields(fields))
    case _ => t
  }

  function SerializedFields(f: Fields): Fields {
    match f
    case NoFields => f
    case Field(n, t, rest) => Field(n, if IsEnum(n) && t == Leaf(Text("")) then Absent else t, SerializedFields(rest))
  }

  predicate NoEmptyEnum(f: Fields) {
    f.Field? ==> !(IsEnum(f.name) && f.tree == Leaf(Text(""))) && NoEmptyEnum(f.rest)
  }

  /** It carries the structure as it is exactly when no enumerated field is empty. */
  lemma {:induction false} SerializedExact(t: Tree)
    ensures Serialized(t) == t <==> t.Node? ==> NoEmptyEnum(t.fields)
  {
    if t.Node? { SerializedFieldsExact(t.fields); }
  }

  lemma {:induction false} SerializedFieldsExact(f: Fields)
    ensures SerializedFields(f) == f <==> NoEmptyEnum(f)
  {
    if f.Field? { SerializedFieldsExact(f.rest); }
  }

  /** A field's value as the request carries it. */
  function Converted(n: N.Name, t: Tree): Tree {
    if HoldsNumbers(n) then Narrowed(t) else if HoldsEnums(n) then Serialized(t) else t
  }

  predicate HasImage(d: FunctionSpec) {
    d.code.Some? && d.code.value.imageURI.Some? && d.code.value.imageURI.value != ""
  }

  /** What a field that differs puts into the request, if anything. */
  function Sent(d: FunctionSpec, n: N.Name): Option<Tree> {
    var t := Entry(d.config, n);
    if ClearedWhenAbsent(n) then Some(if t == Absent then Clearing(n) else Converted(n, t))
    else if n == N.IMAGE_CONFIG then (if t != Absent && HasImage(d) then Some(t) else None)
    else if n == N.RUNTIME then (if t != Absent && t != Leaf(Text("")) then Some(t) else None)
    else if n in SENT_FIELDS && t != Blank(n) then Some(Converted(n, t))
    else None
  }

  /** A duration out of range ends the update before the request is sent. */
  predicate DurationOutOfRange(d: FunctionSpec, ds: seq<Path>) {
    DifferentAt(ds, [N.SPEC, N.DURABLE_CONFIG]) && !InRange(Entry(d.config, N.DURABLE_CONFIG))
  }

  /** The request after the first `i` fields. */
  function RequestUpTo(d: FunctionSpec, ds: seq<Path>, i: nat): map<N.Name, Tree>
    requires i <= |SENT_FIELDS|
  {
    map n | n in SENT_FIELDS[..i] && DifferentAt(ds, [N.SPEC, n]) && Sent(d, n).Some? :: Sent(d, n).value
  }

  /** Exactly the fields that the delta names and that have something to send. */
  function ConfigRequest(d: FunctionSpec, ds: seq<Path>): map<N.Name, Tree> {
    map n | n in SENT_FIELDS && DifferentAt(ds, [N.SPEC, n]) && Sent(d, n).Some? :: Sent(d, n).value
  }

  lemma RequestGrows(d: FunctionSpec, ds: seq<Path>, i: nat)
    requires i < |SENT_FIELDS|
    ensures RequestUpTo(d, ds, i + 1) ==
            if DifferentAt(ds, [N.SPEC, SENT_FIELDS[i]]) && Sent(d, SENT_FIELDS[i]).Some?
            then RequestUpTo(d, ds, i)[SENT_FIELDS[i] := Sent(d, SENT_FIELDS[i]).value] else RequestUpTo(d, ds, i)
  {
    hide DifferentAt, Sent, SENT_FIELDS;
    assert SENT_FIELDS[..i + 1] == SENT_FIELDS[..i] + [SENT_FIELDS[i]];
  }

  /** One block of the request: a field that is cleared when it is desired absent. */
  method FillOrClear(input: map<N.Name, Tree>, d: FunctionSpec, ds: seq<Path>, n: N.Name, ghost i: nat)
    returns (filled: map<N.Name, Tree>)
    requires i < |SENT_FIELDS| && SENT_FIELDS[i] == n && ClearedWhenAbsent(n) && !HoldsPointer(n)
    requires input == RequestUpTo(d, ds, i)
    ensures filled == RequestUpTo(d, ds, i + 1)
  {
    hide DifferentAt, RequestUpTo, Clearing, SENT_FIELDS;
    RequestGrows(d, ds, i);
    filled := input;
    if DifferentAt(ds, [N.SPEC, n]) {
      var value := Clearing(n);
      if Entry(d.config, n) != Absent {
        value := Converted(n, Entry(d.config, n));
      }
      filled := filled[n := value];
    }
  }

  /** One block of the request: a field that is left out when there is nothing to set. */
  method FillIfSet(input: map<N.Name, Tree>, d: FunctionSpec, ds: seq<Path>, n: N.Name, ghost i: nat)
    returns (filled: map<N.Name, Tree>)
    requires i < |SENT_FIELDS| && SENT_FIELDS[i] == n && !ClearedWhenAbsent(n) && n != N.IMAGE_CONFIG
    requires input == RequestUpTo(d, ds, i)
    ensures filled == RequestUpTo(d, ds, i + 1)
  {
    hide DifferentAt, RequestUpTo, SENT_FIELDS;
    RequestGrows(d, ds, i);
    filled := input;
    if DifferentAt(ds, [N.SPEC, n]) {
      if n == N.RUNTIME {
        if Entry(d.config, n) != Absent && Entry(d.config, n) != Leaf(Text("")) {
          filled := filled[n := Entry(d.config, n)];
        }
      } else if Entry(d.config, n) != Blank(n) {
        filled := filled[n := Converted(n, Entry(d.config, n))];
      }
    }
  }

  /** Structures whose only field is dereferenced without a nil test. */
  predicate HoldsPointer(n: N.Name) {
    n == N.EPHEMERAL_STORAGE || n == N.SNAP_START || n == N.TRACING_CONFIG
  }

  /** Sending the field dereferences nil: inside such a structure, or the code that an image configuration goes with. */
  predicate FieldPanics(d: FunctionSpec, n: N.Name) {
    if HoldsPointer(n) then Entry(d.config, n) == Clearing(n)
    else n == N.IMAGE_CONFIG && Entry(d.config, n) != Absent && d.code.None?
  }

  predicate PanicsAt(d: FunctionSpec, ds: seq<Path>, n: N.Name) {
    DifferentAt(ds, [N.SPEC, n]) && FieldPanics(d, n)
  }

  /** The delta names a field that panics. */
  predicate FieldsPanic(d: FunctionSpec, ds: seq<Path>) {
    PanicsAt(d, ds, N.EPHEMERAL_STORAGE) || PanicsAt(d, ds, N.IMAGE_CONFIG)
    || PanicsAt(d, ds, N.SNAP_START) || PanicsAt(d, ds, N.TRACING_CONFIG)
  }

  /**
    One block of the request: a structure that is cleared when it is desired absent, and dereferenced when it
    is not.
   */
  method FillOrDereference(input: map<N.Name, Tree>, d: FunctionSpec, ds: seq<Path>, n: N.Name, ghost i: nat)
    returns (filled: map<N.Name, Tree>, panics: bool)
    requires i < |SENT_FIELDS| && SENT_FIELDS[i] == n && HoldsPointer(n)
    requires input == RequestUpTo(d, ds, i)
    ensures panics <==> PanicsAt(d, ds, n)
    ensures !panics ==> filled == RequestUpTo(d, ds, i + 1)
  {
    hide DifferentAt, RequestUpTo, Clearing, SENT_FIELDS;
    RequestGrows(d, ds, i);
    ClearingIsPresent(n);
    filled, panics := input, false;
    if DifferentAt(ds, [N.SPEC, n]) {
      var value := Clearing(n);
      if Entry(d.config, n) != Absent {
        if Entry(d.config, n) == Clearing(n) {
          return filled, true;
        }
        value := Converted(n, Entry(d.config, n));
      }
      filled := filled[n := value];
    }
  }

  lemma ClearingIsPresent(n: N.Name)
    ensures Clearing(n) != Absent
  {
  }

  /** The block of the image configuration, which is sent with an image only. */
  method FillImageConfig(input: map<N.Name, Tree>, d: FunctionSpec, ds: seq<Path>, ghost i: nat)
    returns (filled: map<N.Name, Tree>, panics: bool)
    requires i < |SENT_FIELDS| && SENT_FIELDS[i] == N.IMAGE_CONFIG
    requires input == RequestUpTo(d, ds, i)
    ensures panics <==> PanicsAt(d, ds, N.IMAGE_CONFIG)
    ensures !panics ==> filled == RequestUpTo(d, ds, i + 1)
  {
    hide DifferentAt, RequestUpTo, SENT_FIELDS;
    RequestGrows(d, ds, i);
    filled, panics := input, false;
    if DifferentAt(ds, [N.SPEC, N.IMAGE_CONFIG]) {
      if Entry(d.config, N.IMAGE_CONFIG) != Absent {
        if d.code.None? {
          return filled, true;
        }
        if d.code.value.imageURI.Some? && d.code.value.imageURI.value != "" {
          filled := filled[N.IMAGE_CONFIG := Entry(d.config, N.IMAGE_CONFIG)];
        }
      }
    }
  }

  /** How filling in the request ends. */
  datatype Request = Filled(fields: map<N.Name, Tree>) | Misfit | NilDereference

  /** The whole request; none if a duration is out of range or, after that check, a field panics. */
  method BuildConfigRequest(d: FunctionSpec, ds: seq<Path>) returns (input: Request)
    ensures input == if DurationOutOfRange(d, ds) then Misfit
                     else if FieldsPanic(d, ds) then NilDereference
                     else Filled(ConfigRequest(d, ds))
  {
    hide DifferentAt, RequestUpTo, Sent, Entry, ConfigRequest, InRange, SENT_FIELDS, PanicsAt;
    SentFieldAt();
    NoFieldYet(d, ds);
    var request := FillOrClear(map[], d, ds, N.DEAD_LETTER_CONFIG, 0);
    if DifferentAt(ds, [N.SPEC, N.DURABLE_CONFIG]) && !InRange(Entry(d.config, N.DURABLE_CONFIG)) {
      return Misfit;
    }
    request := FillIfSet(request, d, ds, N.DURABLE_CONFIG, 1);
    var panics;
    request, panics := FillLeadingFields(request, d, ds);
    if panics {
      return NilDereference;
    }
    request, panics := FillTrailingFields(request, d, ds);
    input := if panics then NilDereference else Filled(request);
  }

  method FillLeadingFields(input: map<N.Name, Tree>, d: FunctionSpec, ds: seq<Path>)
    returns (request: map<N.Name, Tree>, panics: bool)
    requires |SENT_FIELDS| == 18 && input == RequestUpTo(d, ds, 2)
    ensures panics <==> PanicsAt(d, ds, N.EPHEMERAL_STORAGE) || PanicsAt(d, ds, N.IMAGE_CONFIG)
    ensures !panics ==> request == RequestUpTo(d, ds, 10)
  {
    hide DifferentAt, RequestUpTo, Sent, Entry, SENT_FIELDS, PanicsAt;
    SentFieldAt();
    request := FillOrClear(input, d, ds, N.DESCRIPTION, 2);
    request := FillOrClear(request, d, ds, N.ENVIRONMENT, 3);
    request, panics := FillOrDereference(request, d, ds, N.EPHEMERAL_STORAGE, 4);
    if panics {
      return;
    }
    request := FillIfSet(request, d, ds, N.FILE_SYSTEM_CONFIGS, 5);
    request := FillOrClear(request, d, ds, N.HANDLER, 6);
    request, panics := FillImageConfig(request, d, ds, 7);
    if panics {
      return;
    }
    request := FillOrClear(request, d, ds, N.KMS_KEY_ARN, 8);
    request := FillIfSet(request, d, ds, N.LAYERS, 9);
  }

  method FillTrailingFields(input: map<N.Name, Tree>, d: FunctionSpec, ds: seq<Path>)
    returns (request: map<N.Name, Tree>, panics: bool)
    requires |SENT_FIELDS| == 18 && input == RequestUpTo(d, ds, 10)
    ensures panics <==> PanicsAt(d, ds, N.SNAP_START) || PanicsAt(d, ds, N.TRACING_CONFIG)
    ensures !panics ==> request == RequestUpTo(d, ds, 18)
  {
    hide DifferentAt, RequestUpTo, Sent, Entry, SENT_FIELDS, PanicsAt;
    SentFieldAt();
    request := FillIfSet(input, d, ds, N.LOGGING_CONFIG, 10);
    request := FillOrClear(request, d, ds, N.MEMORY_SIZE, 11);
    request := FillOrClear(request, d, ds, N.ROLE, 12);
    request := FillIfSet(request, d, ds, N.RUNTIME, 13);
    request, panics := FillOrDereference(request, d, ds, N.SNAP_START, 14);
    if panics {
      return;
    }
    request := FillOrClear(request, d, ds, N.TIMEOUT, 15);
    request, panics := FillOrDereference(request, d, ds, N.TRACING_CONFIG, 16);
    if panics {
      return;
    }
    request := FillOrClear(request, d, ds, N.VPC_CONFIG, 17);
  }

  lemma NoFieldYet(d: FunctionSpec, ds: seq<Path>)
    ensures RequestUpTo(d, ds, 0) == map[]
    ensures RequestUpTo(d, ds, |SENT_FIELDS|) == ConfigRequest(d, ds)
  {
  }

  // ----- the request field by field

  /** Only these fields are ever in the request, and only where the delta names them. */
  lemma RequestNames(d: FunctionSpec, ds: seq<Path>)
    ensures forall n :: n in ConfigRequest(d, ds) ==>
              && DifferentAt(ds, [N.SPEC, n])
              && n in {N.DEAD_LETTER_CONFIG, N.DURABLE_CONFIG, N.DESCRIPTION, N.ENVIRONMENT, N.EPHEMERAL_STORAGE,
                       N.FILE_SYSTEM_CONFIGS, N.HANDLER, N.IMAGE_CONFIG, N.KMS_KEY_ARN, N.LAYERS, N.LOGGING_CONFIG,
                       N.MEMORY_SIZE, N.ROLE, N.RUNTIME, N.SNAP_START, N.TIMEOUT, N.TRACING_CONFIG, N.VPC_CONFIG}
  {
    hide DifferentAt, Sent, SENT_FIELDS;
    SentFieldAt();
    forall n | n in SENT_FIELDS ensures exists i :: 0 <= i < 18 && SENT_FIELDS[i] == n {
    }
  }

  /** What the request holds for one field. */
  lemma RequestEntry(d: FunctionSpec, ds: seq<Path>, n: N.Name)
    requires n in SENT_FIELDS && DifferentAt(ds, [N.SPEC, n])
    ensures n in ConfigRequest(d, ds) <==> Sent(d, n).Some?
    ensures n in ConfigRequest(d, ds) ==> ConfigRequest(d, ds)[n] == Sent(d, n).value
  {
    hide DifferentAt, Sent, SENT_FIELDS;
  }

  /**
    A field that differs and that the spec leaves out: texts are sent empty, numbers zero, structures with
    nothing in them; everything else is not sent.
   */
  lemma RequestOfAbsent(d: FunctionSpec, ds: seq<Path>, n: N.Name)
    requires DifferentAt(ds, [N.SPEC, n]) && Entry(d.config, n) == Blank(n)
    ensures n in {N.DESCRIPTION, N.HANDLER, N.ROLE, N.KMS_KEY_ARN} ==>
              n in ConfigRequest(d, ds) && ConfigRequest(d, ds)[n] == Leaf(Text(""))
    ensures n in {N.MEMORY_SIZE, N.TIMEOUT} ==>
              n in ConfigRequest(d, ds) && ConfigRequest(d, ds)[n] == Leaf(Number(0))
    ensures n == N.DEAD_LETTER_CONFIG ==>
              n in ConfigRequest(d, ds) && ConfigRequest(d, ds)[n] == Node(Field(N.TARGET_ARN, Absent, NoFields))
    ensures n == N.ENVIRONMENT ==>
              n in ConfigRequest(d, ds)
              && ConfigRequest(d, ds)[n] == Node(Field(N.VARIABLES, Leaf(Texts(map[])), NoFields))
    ensures n == N.EPHEMERAL_STORAGE ==>
              n in ConfigRequest(d, ds) && ConfigRequest(d, ds)[n] == Node(Field(N.SIZE, Absent, NoFields))
    ensures n == N.SNAP_START ==>
              n in ConfigRequest(d, ds) && ConfigRequest(d, ds)[n] == Node(Field(N.APPLY_ON, Absent, NoFields))
    ensures n == N.TRACING_CONFIG ==>
              n in ConfigRequest(d, ds) && ConfigRequest(d, ds)[n] == Node(Field(N.MODE, Absent, NoFields))
    ensures n == N.VPC_CONFIG ==>
              n in ConfigRequest(d, ds)
              && ConfigRequest(d, ds)[n] == Node(Field(N.SECURITY_GROUP_IDS, Leaf(List([])),
                                                 Field(N.SUBNET_IDS, Leaf(List([])), NoFields)))
    ensures n in {N.DURABLE_CONFIG, N.FILE_SYSTEM_CONFIGS, N.IMAGE_CONFIG, N.LAYERS, N.LOGGING_CONFIG, N.RUNTIME} ==>
              n !in ConfigRequest(d, ds)
  {
    hide DifferentAt, ConfigRequest, SENT_FIELDS, Entry, Narrowed, Serialized;
    SentFieldAt();
    if n in SENT_FIELDS { RequestEntry(d, ds, n); } else { RequestNames(d, ds); }
  }

  /**
    A field that differs and that the spec gives. Most are sent as they are; a memory size or timeout is
    converted to int32; the runtime is not sent empty, nor the image configuration without an image.
   */
  lemma RequestOfValue(d: FunctionSpec, ds: seq<Path>, n: N.Name)
    requires DifferentAt(ds, [N.SPEC, n]) && Entry(d.config, n) != Blank(n)
    ensures n in {N.DESCRIPTION, N.HANDLER, N.ROLE, N.KMS_KEY_ARN, N.DEAD_LETTER_CONFIG, N.ENVIRONMENT, N.VPC_CONFIG,
                  N.FILE_SYSTEM_CONFIGS, N.LAYERS} ==>
              n in ConfigRequest(d, ds) && ConfigRequest(d, ds)[n] == Entry(d.config, n)
    ensures n in {N.MEMORY_SIZE, N.TIMEOUT} && Entry(d.config, n).Leaf? && Entry(d.config, n).value.Number? ==>
              n in ConfigRequest(d, ds)
              && ConfigRequest(d, ds)[n] == Leaf(Number(Narrow(Entry(d.config, n).value.number)))
    ensures n == N.RUNTIME ==>
              (n in ConfigRequest(d, ds) <==> Entry(d.config, n) != Leaf(Text("")))
              && (n in ConfigRequest(d, ds) ==> ConfigRequest(d, ds)[n] == Entry(d.config, n))
    ensures n == N.IMAGE_CONFIG ==>
              (n in ConfigRequest(d, ds) <==>
                d.code.Some? && d.code.value.imageURI.Some? && d.code.value.imageURI.value != "")
              && (n in ConfigRequest(d, ds) ==> ConfigRequest(d, ds)[n] == Entry(d.config, n))
  {
    hide DifferentAt, ConfigRequest, SENT_FIELDS, Entry, Clearing, Serialized;
    SentFieldAt();
    if n in SENT_FIELDS { RequestEntry(d, ds, n); } else { RequestNames(d, ds); }
  }

  /** Structures with numbers in them: each number is converted to int32. */
  lemma RequestOfNumbers(d: FunctionSpec, ds: seq<Path>, size: int, first: int, second: int)
    ensures DifferentAt(ds, [N.SPEC, N.EPHEMERAL_STORAGE])
            && Entry(d.config, N.EPHEMERAL_STORAGE) == Node(Field(N.SIZE, Leaf(Number(size)), NoFields)) ==>
              N.EPHEMERAL_STORAGE in ConfigRequest(d, ds)
              && ConfigRequest(d, ds)[N.EPHEMERAL_STORAGE] == Node(Field(N.SIZE, Leaf(Number(Narrow(size))), NoFields))
    ensures DifferentAt(ds, [N.SPEC, N.DURABLE_CONFIG])
            && Entry(d.config, N.DURABLE_CONFIG) ==
               Node(Field(N.EXECUTION_TIMEOUT, Leaf(Number(first)),
                    Field(N.RETENTION_PERIOD_IN_DAYS, Leaf(Number(second)), NoFields))) ==>
              N.DURABLE_CONFIG in ConfigRequest(d, ds)
              && ConfigRequest(d, ds)[N.DURABLE_CONFIG] ==
                 Node(Field(N.EXECUTION_TIMEOUT, Leaf(Number(Narrow(first))),
                      Field(N.RETENTION_PERIOD_IN_DAYS, Leaf(Number(Narrow(second))), NoFields)))
  {
    hide DifferentAt, ConfigRequest, SENT_FIELDS, Entry, Clearing;
    SentFieldAt();
    NarrowedStructures(size, first, second);
    if DifferentAt(ds, [N.SPEC, N.EPHEMERAL_STORAGE]) { RequestEntry(d, ds, N.EPHEMERAL_STORAGE); }
    if DifferentAt(ds, [N.SPEC, N.DURABLE_CONFIG]) { RequestEntry(d, ds, N.DURABLE_CONFIG); }
  }

  lemma NarrowedStructures(size: int, first: int, second: int)
    ensures Narrowed(Node(Field(N.SIZE, Leaf(Number(size)), NoFields)))
         == Node(Field(N.SIZE, Leaf(Number(Narrow(size))), NoFields))
    ensures Narrowed(Node(Field(N.EXECUTION_TIMEOUT, Leaf(Number(first)),
                          Field(N.RETENTION_PERIOD_IN_DAYS, Leaf(Number(second)), NoFields))))
         == Node(Field(N.EXECUTION_TIMEOUT, Leaf(Number(Narrow(first))),
                 Field(N.RETENTION_PERIOD_IN_DAYS, Leaf(Number(Narrow(second))), NoFields)))
  {
    hide Narrow;
    var last := Field(N.RETENTION_PERIOD_IN_DAYS, Leaf(Number(second)), NoFields);
    assert NarrowedFields(last) == Field(N.RETENTION_PERIOD_IN_DAYS, Leaf(Number(Narrow(second))), NoFields);
    var both := Field(N.EXECUTION_TIMEOUT, Leaf(Number(first)), last);
    assert NarrowedFields(both) == Field(N.EXECUTION_TIMEOUT, Leaf(Number(Narrow(first))), NarrowedFields(last));
    assert NarrowedFields(Field(N.SIZE, Leaf(Number(size)), NoFields)) ==
           Field(N.SIZE, Leaf(Number(Narrow(size))), NoFields);
  }

  /** An enumerated text as it is sent: an empty one is left out. */
  function Enumerated(t: Tree): Tree {
    if t == Leaf(Text("")) then Absent else t
  }

  /** Structures with enumerated texts in them: those are left out where they are empty, the log group is not. */
  lemma RequestOfEnums(d: FunctionSpec, ds: seq<Path>, t: Tree, u: Tree, v: Tree, w: Tree)
    requires !t.Node? && !u.Node? && !v.Node? && !w.Node?
    ensures DifferentAt(ds, [N.SPEC, N.SNAP_START])
            && Entry(d.config, N.SNAP_START) == Node(Field(N.APPLY_ON, t, NoFields)) ==>
              N.SNAP_START in ConfigRequest(d, ds)
              && ConfigRequest(d, ds)[N.SNAP_START] == Node(Field(N.APPLY_ON, Enumerated(t), NoFields))
    ensures DifferentAt(ds, [N.SPEC, N.TRACING_CONFIG])
            && Entry(d.config, N.TRACING_CONFIG) == Node(Field(N.MODE, t, NoFields)) ==>
              N.TRACING_CONFIG in ConfigRequest(d, ds)
              && ConfigRequest(d, ds)[N.TRACING_CONFIG] == Node(Field(N.MODE, Enumerated(t), NoFields))
    ensures DifferentAt(ds, [N.SPEC, N.LOGGING_CONFIG])
            && Entry(d.config, N.LOGGING_CONFIG) == LoggingTree(t, u, v, w) ==>
              N.LOGGING_CONFIG in ConfigRequest(d, ds)
              && ConfigRequest(d, ds)[N.LOGGING_CONFIG] == LoggingTree(Enumerated(t), Enumerated(u), v, Enumerated(w))
  {
    hide DifferentAt, ConfigRequest, SENT_FIELDS, Entry, Clearing;
    SentFieldAt();
    SerializedLogging(t, u, v, w);
    SerializedSingle(N.APPLY_ON, t);
    SerializedSingle(N.MODE, t);
    if DifferentAt(ds, [N.SPEC, N.SNAP_START]) { RequestEntry(d, ds, N.SNAP_START); }
    if DifferentAt(ds, [N.SPEC, N.TRACING_CONFIG]) { RequestEntry(d, ds, N.TRACING_CONFIG); }
    if DifferentAt(ds, [N.SPEC, N.LOGGING_CONFIG]) { RequestEntry(d, ds, N.LOGGING_CONFIG); }
  }

  function LoggingTree(level: Tree, format: Tree, group: Tree, system: Tree): Tree {
    Node(Field(N.APPLICATION_LOG_LEVEL, level, Field(N.LOG_FORMAT, format, Field(N.LOG_GROUP, group,
         Field(N.SYSTEM_LOG_LEVEL, system, NoFields)))))
  }

  lemma SerializedSingle(n: N.Name, t: Tree)
    requires IsEnum(n)
    ensures Serialized(Node(Field(n, t, NoFields))) == Node(Field(n, Enumerated(t), NoFields))
  {
    assert SerializedFields(Field(n, t, NoFields)) == Field(n, Enumerated(t), NoFields);
  }

  lemma SerializedLogging(t: Tree, u: Tree, v: Tree, w: Tree)
    ensures Serialized(LoggingTree(t, u, v, w)) == LoggingTree(Enumerated(t), Enumerated(u), v, Enumerated(w))
  {
    var last := Field(N.SYSTEM_LOG_LEVEL, w, NoFields);
    assert SerializedFields(last) == Field(N.SYSTEM_LOG_LEVEL, Enumerated(w), NoFields);
    var group := Field(N.LOG_GROUP, v, last);
    assert SerializedFields(group) == Field(N.LOG_GROUP, v, SerializedFields(last));
    var format := Field(N.LOG_FORMAT, u, group);
    assert SerializedFields(format) == Field(N.LOG_FORMAT, Enumerated(u), SerializedFields(group));
  }

  lemma SentFieldAt()
    ensures |SENT_FIELDS| == 18
    ensures SENT_FIELDS[0] == N.DEAD_LETTER_CONFIG && SENT_FIELDS[1] == N.DURABLE_CONFIG
            && SENT_FIELDS[2] == N.DESCRIPTION
    ensures SENT_FIELDS[3] == N.ENVIRONMENT && SENT_FIELDS[4] == N.EPHEMERAL_STORAGE
            && SENT_FIELDS[5] == N.FILE_SYSTEM_CONFIGS
    ensures SENT_FIELDS[6] == N.HANDLER && SENT_FIELDS[7] == N.IMAGE_CONFIG && SENT_FIELDS[8] == N.KMS_KEY_ARN
    ensures SENT_FIELDS[9] == N.LAYERS && SENT_FIELDS[10] == N.LOGGING_CONFIG && SENT_FIELDS[11] == N.MEMORY_SIZE
    ensures SENT_FIELDS[12] == N.ROLE && SENT_FIELDS[13] == N.RUNTIME && SENT_FIELDS[14] == N.SNAP_START
    ensures SENT_FIELDS[15] == N.TIMEOUT && SENT_FIELDS[16] == N.TRACING_CONFIG && SENT_FIELDS[17] == N.VPC_CONFIG
  {
  }

  // ----- updateFunctionCode

  function ObservedCode(latest: Resource): Code {
    if latest.spec.code.Some? then latest.spec.code.value else Code(None, None, None, None, None, "")
  }

  /**
    What the code request deploys: the desired package if its hash differs, else the desired image if
    that differs, else what is deployed already, as far as the resource read can name it.
   */
  function CodeUpdate(d: FunctionSpec, latest: Resource, ds: seq<Path>): CodeRequest {
    var r := CodeRequest(d.architectures, None, None, None, None, "");
    if d.code.None? then r
    else
      var code, observed := d.code.value, ObservedCode(latest);
      if DifferentAt(ds, CODE_SHA256) && code.sha256.Some? then
        r.(s3Bucket := code.s3Bucket, s3Key := code.s3Key, s3ObjectVersion := code.s3ObjectVersion,
           zipFile := code.zipFile)
      else if DifferentAt(ds, CODE_IMAGE_URI) && code.imageURI.Some? then r.(imageURI := code.imageURI)
      else if latest.spec.packageType == Some(IMAGE) then r.(imageURI := observed.imageURI)
      else if latest.spec.packageType == Some(ZIP) then r.(s3Bucket := observed.s3Bucket, s3Key := observed.s3Key)
      else r
  }

  /** The request falls back on the observed code, and there is none. */
  predicate CodePanics(d: FunctionSpec, latest: Resource, ds: seq<Path>) {
    && d.code.Some? && latest.spec.code.None?
    && !(DifferentAt(ds, CODE_SHA256) && d.code.value.sha256.Some?)
    && !(DifferentAt(ds, CODE_IMAGE_URI) && d.code.value.imageURI.Some?)
    && (latest.spec.packageType == Some(IMAGE) || latest.spec.packageType == Some(ZIP))
  }

  /** The request is filled in field by field; it dereferences the observed code only where it falls back on it. */
  method BuildCodeRequest(d: FunctionSpec, latest: Resource, ds: seq<Path>) returns (input: CodeRequest, panics: bool)
    ensures panics <==> CodePanics(d, latest, ds)
    ensures !panics ==> input == CodeUpdate(d, latest, ds)
  {
    panics := false;
    input := CodeRequest(None, None, None, None, None, "");
    if d.architectures.Some? {
      input := input.(architectures := d.architectures);
    }
    if d.code.Some? {
      var code := d.code.value;
      if DifferentAt(ds, CODE_SHA256) && code.sha256.Some? {
        if code.s3Key.Some? {
          input := input.(s3Key := code.s3Key);
        }
        if code.s3Bucket.Some? {
          input := input.(s3Bucket := code.s3Bucket);
        }
        if code.s3ObjectVersion.Some? {
          input := input.(s3ObjectVersion := code.s3ObjectVersion);
        }
        input := input.(zipFile := code.zipFile);
      } else if DifferentAt(ds, CODE_IMAGE_URI) && code.imageURI.Some? {
        input := input.(imageURI := code.imageURI);
      } else {
        if latest.spec.packageType.Some? && latest.spec.packageType.value == IMAGE {
          if latest.spec.code.None? {
            return input, true;
          }
          input := input.(imageURI := latest.spec.code.value.imageURI);
        } else if latest.spec.packageType.Some? && latest.spec.packageType.value == ZIP {
          if latest.spec.code.None? {
            return input, true;
          }
          input := input.(s3Bucket := latest.spec.code.value.s3Bucket);
          input := input.(s3Key := latest.spec.code.value.s3Key);
        }
      }
    }
  }

  /** The fields of a code request, one by one, and when there is none. */
  lemma CodeUpdateExact(d: FunctionSpec, latest: Resource, ds: seq<Path>)
    ensures var q := CodeUpdate(d, latest, ds);
            var byHash := d.code.Some? && d.code.value.sha256.Some? && DifferentAt(ds, [N.SPEC, N.CODE, N.SHA256]);
            var byImage := !byHash && d.code.Some? && d.code.value.imageURI.Some?
                           && DifferentAt(ds, [N.SPEC, N.CODE, N.IMAGE_URI]);
            var again := d.code.Some? && !byHash && !byImage && latest.spec.packageType in {Some("Image"), Some("Zip")};
            && (CodePanics(d, latest, ds) <==> again && latest.spec.code.None?)
            && q.architectures == d.architectures
            && (byHash ==>
                  && q.s3Bucket == d.code.value.s3Bucket && q.s3Key == d.code.value.s3Key
                  && q.s3ObjectVersion == d.code.value.s3ObjectVersion && q.zipFile == d.code.value.zipFile
                  && q.imageURI.None?)
            && (!byHash ==> q.s3ObjectVersion.None? && q.zipFile == "")
            && (byImage ==> q.imageURI == d.code.value.imageURI && q.s3Bucket.None? && q.s3Key.None?)
            && (!byHash && !byImage && !again ==> q.imageURI.None? && q.s3Bucket.None? && q.s3Key.None?)
            && (again && latest.spec.code.Some? && latest.spec.packageType == Some("Image") ==>
                  q.imageURI == latest.spec.code.value.imageURI && q.s3Bucket.None? && q.s3Key.None?)
            && (again && latest.spec.code.Some? && latest.spec.packageType == Some("Zip") ==>
                  && q.s3Bucket == latest.spec.code.value.s3Bucket && q.s3Key == latest.spec.code.value.s3Key
                  && q.imageURI.None?)
  {
    hide DifferentAt;
  }

  // ----- the calls of one pass

  predicate IsPending(latest: Resource) {
    latest.state == Some("Pending")
  }

  /** Code is updated rather than configuration; never both in one pass. */
  predicate CodeDiffers(ds: seq<Path>) {
    DifferentAt(ds, CODE_IMAGE_URI) || DifferentAt(ds, CODE_SHA256) || DifferentAt(ds, ARCHITECTURES)
  }

  function TagCalls(d: FunctionSpec, latest: Resource, ds: seq<Path>): seq<Call> {
    if DifferentAt(ds, [N.SPEC, N.TAGS]) then Wrap(TagSync.Plan(latest.spec.tags, d.tags)) else []
  }

  function ConcurrencyCall(d: FunctionSpec): Call {
    if d.concurrency.Some? then PutConcurrency(Narrow(d.concurrency.value)) else DeleteConcurrency
  }

  function InvokeCall(d: FunctionSpec): Call {
    if d.invoke.Some? then PutInvoke(EventInvoke.PutPayload(d.invoke.value)) else DeleteInvoke
  }

  predicate NonEmpty(s: Option<string>) {
    s.Some? && s.value != ""
  }

  function SigningCall(d: FunctionSpec): Call {
    if NonEmpty(d.signing) then PutSigning(d.signing.value) else DeleteSigning
  }

  /** The single calls for settings outside code and configuration, before code signing. */
  function SettingCalls(d: FunctionSpec, ds: seq<Path>): seq<Call> {
    (if DifferentAt(ds, [N.SPEC, N.RESERVED_CONCURRENT_EXECUTIONS]) then [ConcurrencyCall(d)] else [])
    + (if DifferentAt(ds, [N.SPEC, N.FUNCTION_EVENT_INVOKE_CONFIG]) then [InvokeCall(d)] else [])
  }

  /** Code signing is asked for on a container image: a terminal error. */
  predicate SigningForbidden(d: FunctionSpec, ds: seq<Path>) {
    DifferentAt(ds, [N.SPEC, N.CODE_SIGNING_CONFIG_ARN]) && d.packageType == Some(IMAGE) && NonEmpty(d.signing)
  }

  function SigningCalls(d: FunctionSpec, ds: seq<Path>): seq<Call> {
    if DifferentAt(ds, [N.SPEC, N.CODE_SIGNING_CONFIG_ARN]) && !SigningForbidden(d, ds) then [SigningCall(d)] else []
  }

  /** The tenancy cannot change: another terminal error. */
  predicate TenancyDiffers(ds: seq<Path>) {
    DifferentAt(ds, [N.SPEC, N.TENANCY_CONFIG])
  }

  /** The configuration call, unless its request cannot be filled in. */
  function ConfigCalls(d: FunctionSpec, ds: seq<Path>): seq<Call> {
    if DurationOutOfRange(d, ds) || FieldsPanic(d, ds) then [] else [UpdateConfiguration(ConfigRequest(d, ds))]
  }

  function LastCall(d: FunctionSpec, latest: Resource, ds: seq<Path>): seq<Call> {
    if SigningForbidden(d, ds) || TenancyDiffers(ds) then []
    else if CodeDiffers(ds) then (if CodePanics(d, latest, ds) then [] else [UpdateCode(CodeUpdate(d, latest, ds))])
    else if DifferentExcept(ds, EXCEPTED) then ConfigCalls(d, ds)
    else []
  }

  function Settings(d: FunctionSpec, latest: Resource, ds: seq<Path>): seq<Call> {
    TagCalls(d, latest, ds) + SettingCalls(d, ds) + SigningCalls(d, ds)
  }

  /** Every call of a pass in which nothing fails. */
  function Plan(d: FunctionSpec, latest: Resource, ds: seq<Path>): seq<Call> {
    if IsPending(latest) then [] else Settings(d, latest, ds) + LastCall(d, latest, ds)
  }

  datatype Outcome =
    | Pending | SigningImpossible | TenancyImmutable | SourceImageMissing
    | OutOfRange | Panicked | CallFailed | ReadFailed | Done

  /** How a pass ends in which no call fails. */
  function Verdict(d: FunctionSpec, latest: Resource, ds: seq<Path>): Outcome {
    if IsPending(latest) then Pending
    else if SigningForbidden(d, ds) then SigningImpossible
    else if TenancyDiffers(ds) then TenancyImmutable
    else if CodeDiffers(ds) then (if CodePanics(d, latest, ds) then Panicked else Done)
    else if !DifferentExcept(ds, EXCEPTED) then Done
    else if DurationOutOfRange(d, ds) then OutOfRange
    else if FieldsPanic(d, ds) then Panicked
    else Done
  }

  /**
    A pass in which no call fails ends in the first of these that applies: pending, the error about code
    signing an image, the one about the tenancy, a panic in the code request, a duration out of range, a
    panic in the configuration request.
   */
  lemma VerdictExact(d: FunctionSpec, latest: Resource, ds: seq<Path>)
    ensures var v := Verdict(d, latest, ds);
            var active := latest.state != Some("Pending");
            var signing := DifferentAt(ds, [N.SPEC, N.CODE_SIGNING_CONFIG_ARN]) && d.packageType == Some("Image")
                           && d.signing.Some? && d.signing.value != "";
            var tenancy := DifferentAt(ds, [N.SPEC, N.TENANCY_CONFIG]);
            var code := DifferentAt(ds, [N.SPEC, N.CODE, N.IMAGE_URI]) || DifferentAt(ds, [N.SPEC, N.CODE, N.SHA256])
                        || DifferentAt(ds, [N.SPEC, N.ARCHITECTURES]);
            var rest := DifferentExcept(ds, [
              [N.SPEC, N.CODE], [N.SPEC, N.TAGS], [N.SPEC, N.RESERVED_CONCURRENT_EXECUTIONS],
              [N.SPEC, N.FUNCTION_EVENT_INVOKE_CONFIG], [N.SPEC, N.CODE_SIGNING_CONFIG_ARN],
              [N.SPEC, N.TENANCY_CONFIG]]);
            var misfit := DifferentAt(ds, [N.SPEC, N.DURABLE_CONFIG]) && !InRange(Entry(d.config, N.DURABLE_CONFIG));
            && (v == Pending <==> !active)
            && (v == SigningImpossible <==> active && signing)
            && (v == TenancyImmutable <==> active && !signing && tenancy)
            && (v == OutOfRange <==> active && !signing && !tenancy && !code && rest && misfit)
            && (v == Panicked <==>
                  && active && !signing && !tenancy
                  && (code ==> CodePanics(d, latest, ds)) && (!code ==> rest && !misfit && FieldsPanic(d, ds)))
            && v in {Pending, SigningImpossible, TenancyImmutable, OutOfRange, Panicked, Done}
  {
    hide DifferentAt, DifferentExcept, InRange, FieldsPanic;
  }

  /** The fields that panic, one by one. */
  lemma FieldsPanicExact(d: FunctionSpec, ds: seq<Path>)
    ensures FieldsPanic(d, ds) <==>
              || (DifferentAt(ds, [N.SPEC, N.EPHEMERAL_STORAGE])
                  && Entry(d.config, N.EPHEMERAL_STORAGE) == Node(Field(N.SIZE, Absent, NoFields)))
              || (DifferentAt(ds, [N.SPEC, N.SNAP_START])
                  && Entry(d.config, N.SNAP_START) == Node(Field(N.APPLY_ON, Absent, NoFields)))
              || (DifferentAt(ds, [N.SPEC, N.TRACING_CONFIG])
                  && Entry(d.config, N.TRACING_CONFIG) == Node(Field(N.MODE, Absent, NoFields)))
              || (DifferentAt(ds, [N.SPEC, N.IMAGE_CONFIG])
                  && Entry(d.config, N.IMAGE_CONFIG) != Absent && d.code.None?)
  {
    hide DifferentAt, Entry;
  }

  // ----- customUpdateFunction

  /** The calls made since the service was in state `start` with log `log`, and what they left. */
  ghost predicate Made(server: Server, start: State, log: seq<Call>, calls: seq<Call>)
    reads server, server.tagServer
  {
    server.log == log + calls && server.Current() == ApplyAll(start, calls)
  }

  lemma NothingMade(server: Server)
    ensures Made(server, server.Current(), server.log, [])
  {
  }

  lemma OneMoreCall(start: State, calls: seq<Call>, c: Call)
    ensures ApplyAll(start, calls + [c]) == Apply(ApplyAll(start, calls), c)
  {
  }

  /** Makes one call. */
  method MakeCall(server: Server, c: Call, ghost start: State, ghost log: seq<Call>, ghost done: seq<Call>)
    returns (answer: Answer)
    requires !c.ChangeTags?
    requires Made(server, start, log, done)
    modifies server
    ensures Made(server, start, log, if answer.Accepted? then done + [c] else done)
    ensures answer.NoSourceImage? ==> c.UpdateCode?
  {
    hide ApplyAll, Apply, Deployable;
    answer := server.Do(c);
    OneMoreCall(start, done, c);
  }

  method SyncTags(server: Server, d: FunctionSpec, latest: Resource, ds: seq<Path>,
                  ghost start: State, ghost log: seq<Call>)
    returns (ok: bool, made: nat)
    requires Made(server, start, log, [])
    modifies server, server.tagServer
    ensures made <= |TagCalls(d, latest, ds)| && (ok <==> made == |TagCalls(d, latest, ds)|)
    ensures Made(server, start, log, TagCalls(d, latest, ds)[..made])
  {
    hide ApplyAll, TagService.ApplyAll, TagSync.Plan, DifferentAt;
    ok, made := true, 0;
    ghost var now := server.Current();
    OneCall(start, DeleteInvoke);
    if DifferentAt(ds, [N.SPEC, N.TAGS]) {
      ghost var plan := TagSync.Plan(latest.spec.tags, d.tags);
      ok, made := TagSync.UpdateFunctionTags(server.tagServer, latest.spec.tags, d.tags);
      server.log := server.log + Wrap(plan[..made]);
      TagCallsOnly(now, plan[..made]);
      assert Wrap(plan)[..made] == Wrap(plan[..made]);
    }
  }

  method SyncSettings(server: Server, d: FunctionSpec, ds: seq<Path>, ghost start: State, ghost log: seq<Call>,
                      ghost done: seq<Call>)
    returns (ok: bool, made: nat)
    requires Made(server, start, log, done)
    modifies server
    ensures made <= |SettingCalls(d, ds)| && (ok <==> made == |SettingCalls(d, ds)|)
    ensures Made(server, start, log, done + SettingCalls(d, ds)[..made])
  {
    hide Made, DifferentAt, Narrow, EventInvoke.PutPayload;
    ghost var calls := SettingCalls(d, ds);
    made := 0;
    assert done + calls[..0] == done;
    if DifferentAt(ds, [N.SPEC, N.RESERVED_CONCURRENT_EXECUTIONS]) {
      var answer;
      if d.concurrency.Some? {
        answer := MakeCall(server, PutConcurrency(Narrow(d.concurrency.value)), start, log, done);
      } else {
        answer := MakeCall(server, DeleteConcurrency, start, log, done);
      }
      if !answer.Accepted? {
        return false, 0;
      }
      made := 1;
      assert done + calls[..1] == done + [ConcurrencyCall(d)];
    }
    if DifferentAt(ds, [N.SPEC, N.FUNCTION_EVENT_INVOKE_CONFIG]) {
      assert done + calls[..made + 1] == done + calls[..made] + [InvokeCall(d)];
      var answer;
      if d.invoke.None? {
        answer := MakeCall(server, DeleteInvoke, start, log, done + calls[..made]);
      } else {
        var input := EventInvoke.BuildPutPayload(d.invoke.value);
        answer := MakeCall(server, PutInvoke(input), start, log, done + calls[..made]);
      }
      if !answer.Accepted? {
        return false, made;
      }
      made := made + 1;
    }
    ok := true;
  }

  /** Also tells whether the pass has ended in the terminal error. */
  method SyncSigning(server: Server, d: FunctionSpec, ds: seq<Path>, ghost start: State, ghost log: seq<Call>,
                     ghost done: seq<Call>)
    returns (outcome: Outcome, made: nat)
    requires Made(server, start, log, done)
    modifies server
    ensures made <= |SigningCalls(d, ds)|
    ensures Made(server, start, log, done + SigningCalls(d, ds)[..made])
    ensures outcome == if made < |SigningCalls(d, ds)| then CallFailed else if SigningForbidden(d, ds)
            then SigningImpossible else Done
  {
    hide Made, DifferentAt;
    ghost var calls := SigningCalls(d, ds);
    outcome, made := Done, 0;
    assert done + calls[..0] == done;
    if DifferentAt(ds, [N.SPEC, N.CODE_SIGNING_CONFIG_ARN]) {
      if d.packageType.Some? && d.packageType.value == IMAGE && d.signing.Some? && d.signing.value != "" {
        return SigningImpossible, 0;
      }
      assert calls[..1] == [SigningCall(d)];
      var answer;
      if d.signing.None? || d.signing.value == "" {
        answer := MakeCall(server, DeleteSigning, start, log, done);
      } else {
        answer := MakeCall(server, PutSigning(d.signing.value), start, log, done);
      }
      if !answer.Accepted? {
        return CallFailed, 0;
      }
      made := 1;
    }
  }

  /** Either the code or the configuration. */
  method UpdateFunction(server: Server, d: FunctionSpec, latest: Resource, ds: seq<Path>,
                        ghost start: State, ghost log: seq<Call>, ghost done: seq<Call>)
    returns (outcome: Outcome, made: nat)
    requires !IsPending(latest) && !SigningForbidden(d, ds) && !TenancyDiffers(ds)
    requires Made(server, start, log, done)
    modifies server
    ensures made <= |LastCall(d, latest, ds)|
    ensures Made(server, start, log, done + LastCall(d, latest, ds)[..made])
    ensures made == |LastCall(d, latest, ds)| ==> outcome == Verdict(d, latest, ds)
    ensures made < |LastCall(d, latest, ds)| ==>
            outcome == CallFailed || (outcome == SourceImageMissing && CodeDiffers(ds))
  {
    hide Made, DifferentAt, DifferentExcept, CodeUpdate, CodePanics, ConfigRequest, FieldsPanic, DurationOutOfRange;
    hide SigningForbidden, TenancyDiffers, IsPending;
    ghost var calls := LastCall(d, latest, ds);
    outcome, made := Done, 0;
    assert done + calls[..0] == done;
    if DifferentAt(ds, CODE_IMAGE_URI) || DifferentAt(ds, CODE_SHA256) || DifferentAt(ds, ARCHITECTURES) {
      var input, panics := BuildCodeRequest(d, latest, ds);
      if panics {
        return Panicked, 0;
      }
      assert calls[..1] == [UpdateCode(input)];
      var answer := MakeCall(server, UpdateCode(input), start, log, done);
      if answer.NoSourceImage? {
        return SourceImageMissing, 0;
      }
      if answer.Failed? {
        return CallFailed, 0;
      }
      made := 1;
    } else if DifferentExcept(ds, EXCEPTED) {
      var input := BuildConfigRequest(d, ds);
      if input.Misfit? {
        return OutOfRange, 0;
      }
      if input.NilDereference? {
        return Panicked, 0;
      }
      assert calls[..1] == [UpdateConfiguration(input.fields)];
      var answer := MakeCall(server, UpdateConfiguration(input.fields), start, log, done);
      if !answer.Accepted? {
        return CallFailed, 0;
      }
      made := 1;
    }
  }

  /** Everything before code and configuration. */
  method SyncOthers(server: Server, d: FunctionSpec, latest: Resource, ds: seq<Path>, ghost start: State,
                    ghost log: seq<Call>)
    returns (outcome: Outcome, made: nat)
    requires Made(server, start, log, [])
    modifies server, server.tagServer
    ensures made <= |Settings(d, latest, ds)|
    ensures Made(server, start, log, Settings(d, latest, ds)[..made])
    ensures outcome == if made < |Settings(d, latest, ds)| then CallFailed
                       else if SigningForbidden(d, ds) then SigningImpossible else Done
  {
    hide Made, TagCalls, SettingCalls, SigningCalls, SigningForbidden;
    ghost var tags, settings, signing := TagCalls(d, latest, ds), SettingCalls(d, ds), SigningCalls(d, ds);
    var ok, more;
    ok, made := SyncTags(server, d, latest, ds, start, log);
    PrefixOfThree(tags, settings, signing, made);
    ExitsCut(d, latest, ds);
    if !ok {
      return CallFailed, made;
    }
    ok, more := SyncSettings(server, d, ds, start, log, tags);
    made := made + more;
    PrefixOfThree(tags, settings, signing, made);
    if !ok {
      return CallFailed, made;
    }
    outcome, more := SyncSigning(server, d, ds, start, log, tags + settings);
    made := made + more;
    PrefixOfThree(tags, settings, signing, made);
  }

  lemma PrefixOfThree(a: seq<Call>, b: seq<Call>, c: seq<Call>, k: nat)
    requires k <= |a| + |b| + |c|
    ensures (a + b + c)[..k] ==
            if k <= |a| then a[..k] else if k <= |a| + |b| then a + b[..k - |a|] else a + b + c[..k - |a| - |b|]
    ensures a[..|a|] == a && b[..|b|] == b && c[..|c|] == c && b[..0] == [] && c[..0] == []
    ensures a + [] == a && a + b + [] == a + b
  {
  }

  /**
    One pass. Whatever fails, the calls made are a prefix of one plan; if none fails the plan decides
    how the pass ends, unless the read at its end fails.
   */
  method CustomUpdateFunction(server: Server, d: FunctionSpec, latest: Resource, ds: seq<Path>)
    returns (outcome: Outcome, made: nat)
    modifies server, server.tagServer
    ensures made <= |Plan(d, latest, ds)|
    ensures server.log == old(server.log) + Plan(d, latest, ds)[..made]
    ensures server.Current() == ApplyAll(old(server.Current()), Plan(d, latest, ds)[..made])
    ensures made == |Plan(d, latest, ds)| ==>
            outcome == Verdict(d, latest, ds) || (outcome == ReadFailed && Verdict(d, latest, ds) == Done)
    ensures made < |Plan(d, latest, ds)| ==>
              outcome == CallFailed
                  || (outcome == SourceImageMissing && made == |Plan(d, latest, ds)| - 1 && CodeDiffers(ds))
    ensures outcome == Pending <==> latest.state == Some("Pending")
    ensures outcome == Pending ==> server.log == old(server.log) && server.Current() == old(server.Current())
    ensures outcome !in {Pending, CallFailed} ==>
              (outcome == SigningImpossible <==>
                DifferentAt(ds, [N.SPEC, N.CODE_SIGNING_CONFIG_ARN]) && d.packageType == Some("Image")
                && d.signing.Some? && d.signing.value != "")
    ensures outcome !in {Pending, CallFailed, SigningImpossible} ==>
              (outcome == TenancyImmutable <==> DifferentAt(ds, [N.SPEC, N.TENANCY_CONFIG]))
    ensures outcome == OutOfRange ==>
              DifferentAt(ds, [N.SPEC, N.DURABLE_CONFIG]) && !InRange(Entry(d.config, N.DURABLE_CONFIG))
  {
    hide ApplyAll, DifferentAt, DifferentExcept, Settings, LastCall;
    hide IsPending, SigningForbidden, TenancyDiffers, CodeDiffers, CodePanics, DurationOutOfRange, FieldsPanic;
    ghost var start, log, settings, last := server.Current(), server.log, Settings(d, latest, ds),
        LastCall(d, latest, ds);
    NothingMade(server);
    VerdictExact(d, latest, ds);
    PlanWhilePending(d, latest, ds);
    if IsPending(latest) {
      return Pending, 0;
    }
    ExitsCut(d, latest, ds);
    outcome, made := SyncOthers(server, d, latest, ds, start, log);
    PrefixOfThree(settings, last, [], made);
    if outcome != Done {
      return;
    }
    if TenancyDiffers(ds) {
      return TenancyImmutable, made;
    }
    var more;
    outcome, more := UpdateFunction(server, d, latest, ds, start, log, settings);
    made := made + more;
    PrefixOfThree(settings, last, [], made);
    if outcome == Done {
      var readable: bool := *;
      outcome := if readable then Done else ReadFailed;
    }
  }

  lemma PlanWhilePending(d: FunctionSpec, latest: Resource, ds: seq<Path>)
    ensures Plan(d, latest, ds) == Settings(d, latest, ds) + LastCall(d, latest, ds) || IsPending(latest)
    ensures IsPending(latest) <==> latest.state == Some("Pending")
    ensures IsPending(latest) ==> Plan(d, latest, ds) == [] && Verdict(d, latest, ds) == Pending
  {
    hide Settings, LastCall;
  }

  /** The two terminal errors end a pass before its last call, and the first also before code signing. */
  lemma ExitsCut(d: FunctionSpec, latest: Resource, ds: seq<Path>)
    ensures SigningForbidden(d, ds) || TenancyDiffers(ds) ==> LastCall(d, latest, ds) == []
    ensures SigningForbidden(d, ds) ==> SigningCalls(d, ds) == []
    ensures |SigningCalls(d, ds)| <= 1 && |LastCall(d, latest, ds)| <= 1
  {
  }

  // ----- the numbers of a create request

  /** In the order the create request checks them. */
  const NUMBER_FIELDS: seq<N.Name> := [N.DURABLE_CONFIG, N.EPHEMERAL_STORAGE, N.MEMORY_SIZE, N.TIMEOUT]

  /** The numbers of the first `i` of these fields that are set, as they are in the spec. */
  ghost function NumbersUpTo(d: FunctionSpec, i: nat): map<N.Name, Tree>
    requires i <= |NUMBER_FIELDS|
  {
    map n | n in NUMBER_FIELDS[..i] && Entry(d.config, n) != Absent :: Entry(d.config, n)
  }

  ghost predicate InRangeUpTo(d: FunctionSpec, i: nat)
    requires i <= |NUMBER_FIELDS|
  {
    forall j :: 0 <= j < i ==> InRange(Entry(d.config, NUMBER_FIELDS[j]))
  }

  /** The first number in a field that does not fit, by the name its error gives it: the innermost field it is in. */
  function FirstMisfit(n: N.Name, t: Tree): Option<N.Name>
    decreases t
  {
    match t
    case Leaf(Number(v)) => if Fits(v) then None else Some(n)
    case Node(fields) => FirstMisfitIn(fields)
    case _ => None
  }

  function FirstMisfitIn(f: Fields): Option<N.Name>
    decreases f
  {
    match f
    case NoFields => None
    case Field(n, t, rest) => if FirstMisfit(n, t).Some? then FirstMisfit(n, t) else FirstMisfitIn(rest)
  }

  /** The fields a create request checks, in order, and the names of their numbers. */
  lemma MisfitNames(first: Option<int>, second: Option<int>, v: int)
    ensures NUMBER_FIELDS == [N.DURABLE_CONFIG, N.EPHEMERAL_STORAGE, N.MEMORY_SIZE, N.TIMEOUT]
    ensures FirstMisfit(N.DURABLE_CONFIG,
                        Node(Field(N.EXECUTION_TIMEOUT, EventInvoke.NumberTree(first),
                             Field(N.RETENTION_PERIOD_IN_DAYS, EventInvoke.NumberTree(second), NoFields)))) ==
            if !FitsOption(first) then Some(N.EXECUTION_TIMEOUT)
            else if !FitsOption(second) then Some(N.RETENTION_PERIOD_IN_DAYS) else None
    ensures FirstMisfit(N.EPHEMERAL_STORAGE, Node(Field(N.SIZE, Leaf(Number(v)), NoFields))) ==
            if Fits(v) then None else Some(N.SIZE)
    ensures FirstMisfit(N.MEMORY_SIZE, Leaf(Number(v))) == if Fits(v) then None else Some(N.MEMORY_SIZE)
    ensures FirstMisfit(N.TIMEOUT, Leaf(Number(v))) == if Fits(v) then None else Some(N.TIMEOUT)
  {
    hide Fits;
    var last := Field(N.RETENTION_PERIOD_IN_DAYS, EventInvoke.NumberTree(second), NoFields);
    assert FirstMisfitIn(last) == if !FitsOption(second) then Some(N.RETENTION_PERIOD_IN_DAYS) else None;
    assert FirstMisfitIn(Field(N.SIZE, Leaf(Number(v)), NoFields)) == if Fits(v) then None else Some(N.SIZE);
    assert FirstMisfitIn(Field(N.EXECUTION_TIMEOUT, EventInvoke.NumberTree(first), last)) ==
           if !FitsOption(first) then Some(N.EXECUTION_TIMEOUT) else FirstMisfitIn(last);
  }

  lemma {:induction false} MisfitExact(n: N.Name, t: Tree)
    ensures FirstMisfit(n, t).None? <==> InRange(t)
    decreases t
  {
    if t.Node? { MisfitInExact(t.fields); }
  }

  lemma {:induction false} MisfitInExact(f: Fields)
    ensures FirstMisfitIn(f).None? <==> FieldsInRange(f)
    decreases f
  {
    if f.Field? {
      MisfitExact(f.name, f.tree);
      MisfitInExact(f.rest);
    }
  }

  /** The guarded conversion of one field. */
  method ConvertField(request: map<N.Name, Tree>, d: FunctionSpec, n: N.Name, ghost i: nat)
    returns (r: Result<map<N.Name, Tree>, N.Name>)
    requires i < |NUMBER_FIELDS| && NUMBER_FIELDS[i] == n
    requires InRangeUpTo(d, i) && request == NumbersUpTo(d, i)
    ensures r.Ok? <==> InRangeUpTo(d, i + 1)
    ensures r.Ok? ==> r.value == NumbersUpTo(d, i + 1)
    ensures r.Err? ==> FirstMisfit(n, Entry(d.config, n)) == Some(r.error)
  {
    hide Narrowed, InRange, FirstMisfit, Entry, NUMBER_FIELDS;
    var t := Entry(d.config, n);
    NarrowedExact(t);
    MisfitExact(n, t);
    AbsentInRange();
    assert NUMBER_FIELDS[..i + 1] == NUMBER_FIELDS[..i] + [n];
    if t == Absent {
      return Ok(request);
    }
    var misfit := FirstMisfit(n, t);
    if misfit.Some? {
      return Err(misfit.value);
    }
    return Ok(request[n := Narrowed(t)]);
  }

  lemma AbsentInRange()
    ensures InRange(Absent)
  {
  }

  /**
    Unlike an update, a create request is refused exactly when some number does not fit, naming the
    first such number; otherwise every number in it is the one in the spec.
   */
  method BuildCreateNumbers(d: FunctionSpec) returns (r: Result<map<N.Name, Tree>, N.Name>)
    ensures r.Ok? <==> InRangeUpTo(d, |NUMBER_FIELDS|)
    ensures r.Ok? ==> r.value == NumbersUpTo(d, |NUMBER_FIELDS|)
    ensures r.Err? ==> exists i :: 0 <= i < |NUMBER_FIELDS| && InRangeUpTo(d, i)
                                   && FirstMisfit(NUMBER_FIELDS[i], Entry(d.config, NUMBER_FIELDS[i])) == Some(r.error)
  {
    hide InRange, FirstMisfit, Entry;
    r := ConvertField(map[], d, N.DURABLE_CONFIG, 0);
    if r.Err? {
      return;
    }
    r := ConvertField(r.value, d, N.EPHEMERAL_STORAGE, 1);
    if r.Err? {
      return;
    }
    r := ConvertField(r.value, d, N.MEMORY_SIZE, 2);
    if r.Err? {
      return;
    }
    r := ConvertField(r.value, d, N.TIMEOUT, 3);
  }

  /** An update converts three of these fields unchecked: what it sends is what was asked for exactly when that fits. */
  lemma UpdateConversion(d: FunctionSpec, n: N.Name)
    requires n in NUMBER_FIELDS && n != N.DURABLE_CONFIG && Entry(d.config, n) != Absent
    ensures Sent(d, n) == Some(Entry(d.config, n)) <==> InRange(Entry(d.config, n))
  {
    NarrowedExact(Entry(d.config, n));
  }
}
