/**
  The event-invoke configuration of a function and of an alias: what is put to the service, what
  is read back, and when the two agree.
 */
module EventInvoke {
  import opened Common
  import opened Deltas
  import opened Int32
  import N = FieldNames

  datatype Target = Target(destination: Option<string>)

  datatype Destinations = Destinations(onFailure: Option<Target>, onSuccess: Option<Target>)

  /** The spec field FunctionEventInvokeConfig. */
  datatype Config = Config(
    destinations: Option<Destinations>,
    functionName: Option<string>,
    maximumAge: Option<int>,
    maximumRetries: Option<int>,
    qualifier: Option<string>)

  /** What a put carries and a get returns; numbers are int32. */
  datatype Wire = Wire(destinations: Option<Destinations>, maximumAge: Option<int>, maximumRetries: Option<int>)

  /** The request that both syncFunctionEventInvokeConfig and syncEventInvokeConfig fill in. */
  function PutPayload(c: Config): Wire {
    Wire(c.destinations, NarrowOption(c.maximumAge), NarrowOption(c.maximumRetries))
  }

  /** The request is filled in one optional field at a time. */
  method BuildPutPayload(c: Config) returns (input: Wire)
    ensures input == PutPayload(c)
    ensures input.destinations == c.destinations
    ensures input.maximumAge == (if c.maximumAge.Some? then Some(Narrow(c.maximumAge.value)) else None)
    ensures input.maximumRetries == (if c.maximumRetries.Some? then Some(Narrow(c.maximumRetries.value)) else None)
  {
    input := Wire(None, None, None);
    if c.destinations.Some? {
      var destinations := Destinations(None, None);
      if c.destinations.value.onFailure.Some? {
        destinations := destinations.(onFailure := Some(Target(None)));
        if c.destinations.value.onFailure.value.destination.Some? {
          destinations := destinations.(onFailure := Some(Target(c.destinations.value.onFailure.value.destination)));
        }
      }
      if c.destinations.value.onSuccess.Some? {
        destinations := destinations.(onSuccess := Some(Target(None)));
        if c.destinations.value.onSuccess.value.destination.Some? {
          destinations := destinations.(onSuccess := Some(Target(c.destinations.value.onSuccess.value.destination)));
        }
      }
      input := input.(destinations := Some(destinations));
    }
    if c.maximumAge.Some? {
      input := input.(maximumAge := Some(Narrow(c.maximumAge.value)));
    }
    if c.maximumRetries.Some? {
      input := input.(maximumRetries := Some(Narrow(c.maximumRetries.value)));
    }
  }

  /** The destination set in an optional target, if any. */
  function Set(t: Option<Target>): Option<string> {
    if t.Some? then t.value.destination else None
  }

  /** The service answers a get with every wrapper structure present, whatever was put. */
  function Served(w: Wire): Wire {
    var d := if w.destinations.Some? then w.destinations.value else Destinations(None, None);
    w.(destinations := Some(Destinations(Some(Target(Set(d.onFailure))), Some(Target(Set(d.onSuccess))))))
  }

  // ----- reading back

  /** The function resource surfaces a target only when its destination is set. */
  function Surfaced(t: Option<Target>): Option<Target> {
    if Set(t).Some? then Some(Target(Set(t))) else None
  }

  function FunctionRead(w: Wire): Config {
    var destinations :=
      if w.destinations.None? then None
      else
        var onFailure := Surfaced(w.destinations.value.onFailure);
        var onSuccess := Surfaced(w.destinations.value.onSuccess);
        if onFailure.Some? || onSuccess.Some? then Some(Destinations(onFailure, onSuccess)) else None;
    Config(destinations, None, w.maximumAge, w.maximumRetries, None)
  }

  predicate WrappersPresent(w: Wire) {
    w.destinations.Some? && w.destinations.value.onFailure.Some? && w.destinations.value.onSuccess.Some?
  }

  /** The alias resource always surfaces all three structures; it dereferences them unchecked. */
  function AliasRead(w: Wire): Config
    requires WrappersPresent(w)
  {
    Config(Some(Destinations(Some(Target(Set(w.destinations.value.onFailure))),
                             Some(Target(Set(w.destinations.value.onSuccess))))),
           None, w.maximumAge, w.maximumRetries, None)
  }

  predicate AnyDestination(d: Option<Destinations>) {
    d.Some? && (Set(d.value.onFailure).Some? || Set(d.value.onSuccess).Some?)
  }

  /** Numbers in range, and nothing set that the service does not return. */
  predicate ReturnedFieldsOnly(c: Config) {
    c.functionName.None? && c.qualifier.None? && FitsOption(c.maximumAge) && FitsOption(c.maximumRetries)
  }

  predicate NoEmptyTarget(t: Option<Target>) {
    t.Some? ==> t.value.destination.Some?
  }

  /** A function's configuration written without empty structures. */
  predicate FunctionCanonical(c: Config) {
    && ReturnedFieldsOnly(c)
    && (c.destinations.Some? ==>
          && AnyDestination(c.destinations)
          && NoEmptyTarget(c.destinations.value.onFailure)
          && NoEmptyTarget(c.destinations.value.onSuccess))
  }

  /** An alias's configuration written with every structure present. */
  predicate AliasCanonical(c: Config) {
    && ReturnedFieldsOnly(c)
    && c.destinations.Some? && c.destinations.value.onFailure.Some? && c.destinations.value.onSuccess.Some?
  }

  /** Whatever the service answers, a destination structure is surfaced exactly when a destination is set in it. */
  lemma FunctionReadCanonical(w: Wire)
    ensures FunctionRead(w).destinations.Some? <==> AnyDestination(w.destinations)
    ensures FitsOption(w.maximumAge) && FitsOption(w.maximumRetries) ==> FunctionCanonical(FunctionRead(w))
  {
  }

  /** Every destination that is set is surfaced as it is, in a target of its own; limits are as they are returned. */
  lemma FunctionReadExact(w: Wire)
    ensures var c := FunctionRead(w);
            && c.maximumAge == w.maximumAge && c.maximumRetries == w.maximumRetries
            && c.functionName.None? && c.qualifier.None?
            && (c.destinations.Some? ==>
                  var read, served := c.destinations.value, w.destinations.value;
                  && (read.onFailure.Some? <==> served.onFailure.Some? && served.onFailure.value.destination.Some?)
                  && (read.onFailure.Some? ==> read.onFailure == served.onFailure)
                  && (read.onSuccess.Some? <==> served.onSuccess.Some? && served.onSuccess.value.destination.Some?)
                  && (read.onSuccess.Some? ==> read.onSuccess == served.onSuccess))
    ensures FunctionRead(w).destinations.Some? <==>
              && w.destinations.Some?
              && ((w.destinations.value.onFailure.Some? && w.destinations.value.onFailure.value.destination.Some?)
                  || (w.destinations.value.onSuccess.Some? && w.destinations.value.onSuccess.value.destination.Some?))
  {
  }

  /** For a function, what is read after a put is what was put exactly when it was canonical. */
  lemma FunctionPutRead(c: Config)
    ensures FunctionRead(Served(PutPayload(c))) == c <==> FunctionCanonical(c)
  {
  }

  /** For an alias the same holds of a different form: leaving DestinationConfig out never settles. */
  lemma AliasPutRead(c: Config)
    ensures WrappersPresent(Served(PutPayload(c)))
    ensures AliasRead(Served(PutPayload(c))) == c <==> AliasCanonical(c)
  {
  }

  /** Putting what was read and reading again changes nothing, for both resources. */
  lemma ReadPutReadFixed(w: Wire)
    requires FitsOption(w.maximumAge) && FitsOption(w.maximumRetries)
    ensures FunctionRead(Served(PutPayload(FunctionRead(Served(w))))) == FunctionRead(Served(w))
    ensures WrappersPresent(Served(w))
    ensures AliasRead(Served(PutPayload(AliasRead(Served(w))))) == AliasRead(Served(w))
    ensures Served(PutPayload(FunctionRead(Served(w)))) == Served(w)
  {
  }

  // ----- the subtree both deltas compare

  function TextTree(s: Option<string>): Tree {
    if s.Some? then Leaf(Text(s.value)) else Absent
  }

  function NumberTree(n: Option<int>): Tree {
    if n.Some? then Leaf(Number(n.value)) else Absent
  }

  function TargetTree(t: Option<Target>): Tree {
    if t.Some? then Node(Field(N.DESTINATION, TextTree(t.value.destination), NoFields)) else Absent
  }

  function DestinationsTree(d: Option<Destinations>): Tree {
    if d.Some? then
      Node(Field(N.ON_FAILURE, TargetTree(d.value.onFailure),
                 Field(N.ON_SUCCESS, TargetTree(d.value.onSuccess), NoFields)))
    else Absent
  }

  function ConfigTree(c: Option<Config>): Tree {
    if c.None? then Absent
    else
      Node(Field(N.DESTINATION_CONFIG, DestinationsTree(c.value.destinations),
           Field(N.FUNCTION_NAME, TextTree(c.value.functionName),
           Field(N.MAXIMUM_EVENT_AGE_IN_SECONDS, NumberTree(c.value.maximumAge),
           Field(N.MAXIMUM_RETRY_ATTEMPTS, NumberTree(c.value.maximumRetries),
           Field(N.QUALIFIER, TextTree(c.value.qualifier), NoFields))))))
  }

  /** Different configurations have different trees. */
  lemma ConfigTreeInjective(c: Option<Config>, d: Option<Config>)
    ensures ConfigTree(c) == ConfigTree(d) <==> c == d
  {
  }

  /** The branches newResourceDelta takes for one target of a destination structure. */
  method CompareTarget(delta: Delta, path: Path, a: Option<Target>, b: Option<Target>)
    modifies delta
    ensures delta.differences == old(delta.differences) + Differences(path, TargetTree(a), TargetTree(b))
  {
    if a.Some? != b.Some? {
      delta.Add(path);
    } else if a.Some? && b.Some? {
      FirstField(delta.differences, path, TargetTree(a).fields, TargetTree(b).fields);
      delta.CompareLeaf(path + [N.DESTINATION], TextTree(a.value.destination), TextTree(b.value.destination));
    }
  }

  method CompareDestinations(delta: Delta, path: Path, a: Option<Destinations>, b: Option<Destinations>)
    modifies delta
    ensures delta.differences == old(delta.differences) + Differences(path, DestinationsTree(a), DestinationsTree(b))
  {
    if a.Some? != b.Some? {
      delta.Add(path);
    } else if a.Some? && b.Some? {
      ghost var fa, fb := DestinationsTree(a).fields, DestinationsTree(b).fields;
      FirstField(delta.differences, path, fa, fb);
      CompareTarget(delta, path + [N.ON_FAILURE], a.value.onFailure, b.value.onFailure);
      FirstField(delta.differences, path, fa.rest, fb.rest);
      CompareTarget(delta, path + [N.ON_SUCCESS], a.value.onSuccess, b.value.onSuccess);
    }
  }

  /** The whole event-invoke branch of newResourceDelta. */
  method CompareConfig(delta: Delta, path: Path, a: Option<Config>, b: Option<Config>)
    modifies delta
    ensures delta.differences == old(delta.differences) + Differences(path, ConfigTree(a), ConfigTree(b))
  {
    if a.Some? != b.Some? {
      delta.Add(path);
    } else if a.Some? && b.Some? {
      ghost var fa, fb := ConfigTree(a).fields, ConfigTree(b).fields;
      assert Names(fa.rest.rest.rest) == Names(fb.rest.rest.rest);
      assert Names(fa.rest) == Names(fb.rest);
      FirstField(delta.differences, path, fa, fb);
      CompareDestinations(delta, path + [N.DESTINATION_CONFIG], a.value.destinations, b.value.destinations);
      FirstField(delta.differences, path, fa.rest, fb.rest);
      delta.CompareLeaf(path + [N.FUNCTION_NAME], TextTree(a.value.functionName), TextTree(b.value.functionName));
      FirstField(delta.differences, path, fa.rest.rest, fb.rest.rest);
      delta.CompareLeaf(path + [N.MAXIMUM_EVENT_AGE_IN_SECONDS], NumberTree(a.value.maximumAge),
                        NumberTree(b.value.maximumAge));
      FirstField(delta.differences, path, fa.rest.rest.rest, fb.rest.rest.rest);
      delta.CompareLeaf(path + [N.MAXIMUM_RETRY_ATTEMPTS], NumberTree(a.value.maximumRetries),
                        NumberTree(b.value.maximumRetries));
      FirstField(delta.differences, path, fa.rest.rest.rest.rest, fb.rest.rest.rest.rest);
      delta.CompareLeaf(path + [N.QUALIFIER], TextTree(a.value.qualifier), TextTree(b.value.qualifier));
    }
  }
}
