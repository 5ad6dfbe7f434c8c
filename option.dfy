/** The `Option` attribute (src/Option.php): which option name a property
    or method listens to, and how its value is taken out of the values
    map. Reflection is not modelled: setting the property or invoking the
    method is a given predicate `accepts` that says whether applying a
    value succeeds. */
module Options {
  import opened Wrappers
  import opened PhpValues
  import Strings

  /** The `name` argument of the constructor: null, one name or a list. */
  datatype NameArg = NoName | OneName(name: string) | NameList(names: seq<string>)

  /** An option attribute: its names (none means "derive one") and whether
      it is required. */
  datatype OptionAttr = OptionAttr(name: Option<seq<string>>, required: bool)

  /** What the attribute is placed on. */
  datatype Target = Property(propertyName: string) | Method(methodName: string)

  datatype OptionError =
    | RequiredNull(name: string)        // InvalidArgumentException
    | MissingRequired(name: string)     // InvalidArgumentException
    | ApplyFailed(target: Target)       // RuntimeException

  function ErrorMessage(e: OptionError): string {
    match e
    case RequiredNull(n) => "Required option '" + n + "' must not be null"
    case MissingRequired(n) => "Missing required option '" + n + "'"
    case ApplyFailed(Property(p)) => "Failed to set property " + p
    case ApplyFailed(Method(m)) => "Failed to invoke method " + m
  }

  /** What resolving an option did: applied the value found under a name,
      or found none and did nothing. */
  datatype Resolution = Applied(name: string, value: Value) | NotFound

  // ---------------------------------------------------------------------
  // names

  /** The constructor: null stays null, a string becomes a one-element
      list and a list is kept as it is. */
  function NewOption(name: NameArg, required: bool): (o: OptionAttr)
    ensures o.required == required
    ensures o.name.None? <==> name.NoName?
    ensures name.OneName? ==> o.name == Some([name.name])
    ensures name.NameList? ==> o.name == Some(name.names)
  {
    match name
    case NoName => OptionAttr(None, required)
    case OneName(n) => OptionAttr(Some([n]), required)
    case NameList(ns) => OptionAttr(Some(ns), required)
  }

  /** The name a method answers to when none is given: a leading "set" is
      cut off (a plain prefix test) and the next letter lowercased. */
  function MethodDefaultName(m: string): (r: string)
    ensures "set" <= m ==> |r| == |m| - 3 && (|r| > 0 ==> r[0] == Strings.Lower(m[3]) && r[1..] == m[4..])
    ensures !("set" <= m) ==> r == m
  {
    Strings.StartsWithIsPrefix(Some(m), "set");
    if Strings.StartsWith(Some(m), "set", true) then Strings.LcFirst(m[3..]) else m
  }

  /** The names an option is looked up under. */
  function Names(o: OptionAttr, t: Target): (names: seq<string>)
    ensures o.name.Some? ==> names == o.name.value
    ensures o.name.None? && t.Property? ==> names == [t.propertyName]
    ensures o.name.None? && t.Method? ==> names == [MethodDefaultName(t.methodName)]
  {
    match o.name
    case Some(ns) => ns
    case None => if t.Property? then [t.propertyName] else [MethodDefaultName(t.methodName)]
  }

  // ---------------------------------------------------------------------
  // extracting and applying the value

  /** The first of `names` that is a key of `values`. */
  function FirstPresent(names: seq<string>, values: map<string, Value>): (r: Option<nat>)
    ensures r.Some? ==>
      && r.value < |names| && names[r.value] in values
      && (forall j :: 0 <= j < r.value ==> names[j] !in values)
    ensures r.None? ==> forall j :: 0 <= j < |names| ==> names[j] !in values
  {
    if names == [] then None
    else if names[0] in values then Some(0)
    else match FirstPresent(names[1..], values)
      case None => None
      case Some(i) => Some(i + 1)
  }

  /** `extractValue` as `applyToProperty`/`applyToMethod` consume it: the
      first name present decides; a required option refuses null there and
      insists on some name being present. Applying the value removes its key
      from `values` and nothing else; a failed apply keeps every key. */
  function Resolve(o: OptionAttr, t: Target, values: map<string, Value>, accepts: Value -> bool)
    : (Result<Resolution, OptionError>, map<string, Value>)
  {
    var names := Names(o, t);
    match FirstPresent(names, values)
    case Some(i) =>
      var n := names[i];
      if o.required && values[n].Null? then (Failure(RequiredNull(n)), values)
      else if accepts(values[n]) then (Success(Applied(n, values[n])), values - {n})
      else (Failure(ApplyFailed(t)), values)
    case None =>
      if o.required then (Failure(MissingRequired(if names == [] then "" else names[0])), values)
      else (Success(NotFound), values)
  }

  /** The loop over the names: the generator yields at the first name it
      finds, and the caller stops after that one value whether applying it
      succeeds or fails, so later names are never looked at. */
  method ResolveOption(o: OptionAttr, t: Target, values: map<string, Value>, accepts: Value -> bool)
    returns (outcome: Result<Resolution, OptionError>, rest: map<string, Value>)
    ensures (outcome, rest) == Resolve(o, t, values, accepts)
  {
    var names := Names(o, t);
    var i := 0;
    while i < |names|
      invariant 0 <= i <= |names|
      invariant forall j :: 0 <= j < i ==> names[j] !in values
    {
      var n := names[i];
      if n in values {
        FirstPresentAt(names, values, i);
        if o.required && values[n].Null? {
          return Failure(RequiredNull(n)), values;
        }
        if accepts(values[n]) {
          return Success(Applied(n, values[n])), values - {n};
        }
        return Failure(ApplyFailed(t)), values;
      }
      i := i + 1;
    }
    FirstPresentNone(names, values);
    if o.required {
      return Failure(MissingRequired(if names == [] then "" else names[0])), values;
    }
    return Success(NotFound), values;
  }

  /** When `names[i]` is present and no earlier name is, `names[i]` is the
      first name present. */
  lemma {:induction false} FirstPresentAt(names: seq<string>, values: map<string, Value>, i: nat)
    requires i < |names| && names[i] in values
    requires forall j :: 0 <= j < i ==> names[j] !in values
    ensures FirstPresent(names, values) == Some(i)
    decreases i
  {
    if i > 0 {
      assert names[0] !in values;
      FirstPresentAt(names[1..], values, i - 1);
    }
  }

  /** When no name is present there is no first one. */
  lemma {:induction false} FirstPresentNone(names: seq<string>, values: map<string, Value>)
    requires forall j :: 0 <= j < |names| ==> names[j] !in values
    ensures FirstPresent(names, values) == None
    decreases |names|
  {
    if names != [] {
      assert names[0] !in values;
      FirstPresentNone(names[1..], values);
    }
  }

  // ---------------------------------------------------------------------
  // properties

  /** The first listed name present wins; only its key is removed, and
      every other entry keeps its value. */
  lemma FirstNameWins(o: OptionAttr, t: Target, values: map<string, Value>, accepts: Value -> bool)
    requires Resolve(o, t, values, accepts).0.Success? && Resolve(o, t, values, accepts).0.value.Applied?
    ensures var (r, rest) := Resolve(o, t, values, accepts);
      var n := r.value.name;
      && n in values && r.value.value == values[n]
      && (exists i :: 0 <= i < |Names(o, t)| && Names(o, t)[i] == n
            && forall j :: 0 <= j < i ==> Names(o, t)[j] !in values)
      && n !in rest
      && forall k :: k != n ==> (k in rest <==> k in values) && (k in rest ==> rest[k] == values[k])
  {
    var names := Names(o, t);
    var i := FirstPresent(names, values).value;
    assert names[i] == Resolve(o, t, values, accepts).0.value.name;
  }

  /** A value is applied exactly when some listed name is present, the
      value found there is acceptable to a required option, and applying it
      succeeds; in particular a success is never followed by the
      missing-option error. */
  lemma AppliedExactly(o: OptionAttr, t: Target, values: map<string, Value>, accepts: Value -> bool)
    ensures Resolve(o, t, values, accepts).0.Success? && Resolve(o, t, values, accepts).0.value.Applied?
      <==> exists i :: 0 <= i < |Names(o, t)| && FirstPresent(Names(o, t), values) == Some(i)
            && !(o.required && values[Names(o, t)[i]].Null?) && accepts(values[Names(o, t)[i]])
  {
  }

  /** A required option whose first present name holds null is refused
      with that name, and nothing is removed. */
  lemma RequiredRefusesNull(o: OptionAttr, t: Target, values: map<string, Value>, accepts: Value -> bool, i: nat)
    requires o.required
    requires i < |Names(o, t)| && Names(o, t)[i] in values && values[Names(o, t)[i]].Null?
    requires forall j :: 0 <= j < i ==> Names(o, t)[j] !in values
    ensures Resolve(o, t, values, accepts) == (Failure(RequiredNull(Names(o, t)[i])), values)
  {
    FirstPresentAt(Names(o, t), values, i);
  }

  /** A required option none of whose names is present is reported under
      its first name (the empty name when the list is empty). */
  lemma RequiredMissing(o: OptionAttr, t: Target, values: map<string, Value>, accepts: Value -> bool)
    requires o.required
    requires forall n :: n in Names(o, t) ==> n !in values
    ensures var names := Names(o, t);
      Resolve(o, t, values, accepts) == (Failure(MissingRequired(if names == [] then "" else names[0])), values)
  {
    FirstPresentNone(Names(o, t), values);
  }

  /** An optional option none of whose names is present applies nothing and
      leaves the values as they were. */
  lemma OptionalMissingChangesNothing(o: OptionAttr, t: Target, values: map<string, Value>, accepts: Value -> bool)
    requires !o.required
    requires forall n :: n in Names(o, t) ==> n !in values
    ensures Resolve(o, t, values, accepts) == (Success(NotFound), values)
  {
    FirstPresentNone(Names(o, t), values);
  }

  /** Whenever resolving fails, or finds nothing, the values are kept as
      they were: only a successful apply consumes a key. */
  lemma OnlyApplyConsumes(o: OptionAttr, t: Target, values: map<string, Value>, accepts: Value -> bool)
    requires !(Resolve(o, t, values, accepts).0.Success? && Resolve(o, t, values, accepts).0.value.Applied?)
    ensures Resolve(o, t, values, accepts).1 == values
  {
  }

  /** Default method names: "setFoo" answers to "foo", "bar" to "bar", and
      the prefix test is literal, so "settle" answers to "tle". */
  lemma MethodDefaultNameExamples()
    ensures MethodDefaultName("setFoo") == "foo"
    ensures MethodDefaultName("bar") == "bar"
    ensures MethodDefaultName("settle") == "tle"
  {
    assert "set" <= "setFoo" && "setFoo"[3..] == "Foo";
    assert "set"[0] != "bar"[0];
    assert "set" <= "settle" && "settle"[3..] == "tle";
  }

  /** Two names, both present: the first one is applied and removed, the
      second stays with its value. */
  method MultipleNamesScenario() returns (outcome: Result<Resolution, OptionError>, rest: map<string, Value>)
    ensures outcome == Success(Applied("foo", Str("baz")))
    ensures rest == map["bar" := Str("oof")]
  {
    var o := NewOption(NameList(["foo", "bar"]), false);
    var values := map["foo" := Str("baz"), "bar" := Str("oof")];
    outcome, rest := ResolveOption(o, Property("baz"), values, v => true);
    FirstPresentAt(["foo", "bar"], values, 0);
    assert rest == values - {"foo"};
    assert "foo" != "bar";
  }
}
