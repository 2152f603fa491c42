/**
 * Circuit-template rule arguments and the resolution of argument references: a value
 * written `$(name)` stands for the argument `name`, whose user value, or else whose
 * default, is substituted; a default may itself be a reference.
 */
module TemplateRules {
  import opened Types
  import opened Text

  /** A rule argument as the template file declares it, before conversion. */
  datatype TemplateArgument = TemplateArgument(
    name: string,
    required: bool,
    defaultValue: Option<string>,
    description: Option<string>)

  /** A rule argument: its name, whether it is required, its default, and the user's value. */
  datatype RuleArgument = RuleArgument(
    name: string,
    required: bool,
    defaultValue: Option<string>,
    description: Option<string>,
    userValue: Option<string>)

  /** A rule value: one string, or a list of strings. */
  datatype Value = Single(value: string) | List(values: seq<string>)

  /** The errors of template processing; `RecursionLimit` marks a chain of references deeper than the fuel. */
  datatype TemplateError =
    | NotProvided(key: string)
    | NoDefault(key: string)
    | InvalidTemplate(key: string)
    | RecursionLimit(key: string)

  /** The message text each error carries. */
  function Message(e: TemplateError): string {
    match e
    case NotProvided(k) => "Argument \"" + k + "\" is required but was not provided"
    case NoDefault(k) => "Argument \"" + k + "\" was not provided and no default value is set"
    case InvalidTemplate(k) => "Invalid template. Argument \"" + k + "\" was expected but not provided"
    case RecursionLimit(k) => "Argument \"" + k + "\" refers to arguments nested too deeply"
  }

  // ---------- lower-casing ----------

  /** Lower-casing of one character (ASCII letters only). */
  function LowerChar(c: char): char {
    if 'A' <= c <= 'Z' then (c as int + 32) as char else c
  }

  /** `to_lowercase`, on ASCII letters. */
  function ToLower(s: string): (r: string)
    ensures |r| == |s|
    ensures forall i :: 0 <= i < |s| ==> r[i] == LowerChar(s[i])
  {
    if |s| == 0 then "" else [LowerChar(s[0])] + ToLower(s[1..])
  }

  predicate IsLower(s: string) {
    ToLower(s) == s
  }

  lemma ToLowerIsLower(s: string)
    ensures IsLower(ToLower(s))
  {
  }

  /** Lower-casing neither creates nor destroys a leading `$(` or a trailing `)`. */
  lemma ToLowerKeepsMarkers(s: string)
    ensures IsArgValue(ToLower(s)) <==> IsArgValue(s)
    ensures EndsWith(ToLower(s), ")") <==> EndsWith(s, ")")
  {
    var t := ToLower(s);
    if |s| >= 2 {
      assert t[0] == LowerChar(s[0]) && t[1] == LowerChar(s[1]);
    }
    if |s| >= 1 {
      assert EndsWith(s, ")") <==> s[|s| - 1] == ')' by {
        assert s[|s| - 1..] == [s[|s| - 1]];
      }
      assert EndsWith(t, ")") <==> t[|t| - 1] == ')' by {
        assert t[|t| - 1..] == [t[|t| - 1]];
      }
    }
  }

  // ---------- arguments ----------

  /** `RuleArgument::try_from`: never fails; the name is stored lower-cased and there is no user value yet. */
  function RuleArgumentFrom(arg: TemplateArgument): (r: Result<RuleArgument, TemplateError>)
    ensures r.Ok?
    ensures r.value.name == ToLower(arg.name) && IsLower(r.value.name)
    ensures r.value.required == arg.required && r.value.defaultValue == arg.defaultValue
    ensures r.value.description == arg.description && r.value.userValue == None
  {
    ToLowerIsLower(arg.name);
    Ok(RuleArgument(ToLower(arg.name), arg.required, arg.defaultValue, arg.description, None))
  }

  /** `set_user_value`: records the user's value and leaves the rest of the argument as it was. */
  function SetUserValue(arg: RuleArgument, value: string): (r: RuleArgument)
    ensures r.userValue == Some(value)
    ensures r == arg.(userValue := Some(value))
  {
    RuleArgument(arg.name, arg.required, arg.defaultValue, arg.description, Some(value))
  }

  /** `is_arg_value`: the value is an argument reference, that is, it starts with `$(`. */
  function IsArgValue(key: string): (b: bool)
    ensures b <==> |key| >= 2 && key[0] == '$' && key[1] == '('
  {
    StartsWith(key, "$(")
  }

  /** `n` repetitions of the marker `$(`. */
  function Markers(n: nat): (s: string)
    ensures |s| == 2 * n
  {
    if n == 0 then "" else "$(" + Markers(n - 1)
  }

  /** The number of leading markers `$(` of a string. */
  function MarkerCount(s: string): nat
    decreases |s|
  {
    if IsArgValue(s) then 1 + MarkerCount(s[2..]) else 0
  }

  /** `trim_start_matches("$(")`: the input with every leading marker removed. */
  function TrimMarkers(s: string): (r: string)
    ensures !IsArgValue(r)
    ensures s == Markers(MarkerCount(s)) + r
    decreases |s|
  {
    if IsArgValue(s) then
      var r := TrimMarkers(s[2..]);
      assert s == "$(" + s[2..];
      assert "$(" + (Markers(MarkerCount(s[2..])) + r) == ("$(" + Markers(MarkerCount(s[2..]))) + r;
      r
    else s
  }

  /** Trimming markers commutes with lower-casing, which never touches `$` or `(`. */
  lemma {:induction false} TrimMarkersToLower(s: string)
    ensures TrimMarkers(ToLower(s)) == ToLower(TrimMarkers(s))
    decreases |s|
  {
    ToLowerKeepsMarkers(s);
    if IsArgValue(s) {
      assert ToLower(s)[2..] == ToLower(s[2..]);
      TrimMarkersToLower(s[2..]);
    }
  }

  /** The key carries the full marker: `$(` in front and `)` at the end. */
  predicate IsMarked(key: string) {
    IsArgValue(key) && EndsWith(key, ")")
  }

  /**
   * `strip_arg_marker`: for a marked key, drops the one trailing `)`, then every leading
   * `$(`, and lower-cases the rest; any other key is only lower-cased.
   */
  function StripArgMarker(key: string): string {
    if IsMarked(key) then ToLower(TrimMarkers(key[..|key| - 1])) else ToLower(key)
  }

  /**
   * What stripping does: a marked key loses its one trailing `)` and all `n >= 1` of its
   * leading markers, and the rest, which starts with no marker, is lower-cased; any other
   * key is only lower-cased.
   */
  lemma StripArgMarkerSpec(key: string)
    ensures IsMarked(key) ==>
              var body := key[..|key| - 1];
              var n := MarkerCount(body);
              && n >= 1 && 2 * n <= |body|
              && body == Markers(n) + body[2 * n..]
              && !IsArgValue(body[2 * n..])
              && StripArgMarker(key) == ToLower(body[2 * n..])
    ensures !IsMarked(key) ==> StripArgMarker(key) == ToLower(key)
  {
    if IsMarked(key) {
      var body := key[..|key| - 1];
      var n := MarkerCount(body);
      var rest := TrimMarkers(body);
      assert body == Markers(n) + rest;
      assert body[2 * n..] == rest;
    }
  }

  /** A stripped key is lower-case, as the stored argument names are. */
  lemma StripArgMarkerIsLower(key: string)
    ensures IsLower(StripArgMarker(key))
  {
    if IsMarked(key) {
      ToLowerIsLower(TrimMarkers(key[..|key| - 1]));
    } else {
      ToLowerIsLower(key);
    }
  }

  /** Stripping twice is stripping once. */
  lemma StripArgMarkerIdempotent(key: string)
    ensures StripArgMarker(StripArgMarker(key)) == StripArgMarker(key)
  {
    var r := StripArgMarker(key);
    if IsMarked(key) {
      var raw := TrimMarkers(key[..|key| - 1]);
      assert r == ToLower(raw);
      ToLowerKeepsMarkers(raw);
      ToLowerIsLower(raw);
    } else {
      assert r == ToLower(key);
      ToLowerKeepsMarkers(key);
      ToLowerIsLower(key);
    }
    assert !IsMarked(r);
    assert StripArgMarker(r) == ToLower(r);
  }

  /** Keys that differ only in the case of their letters name the same argument. */
  lemma StripArgMarkerIgnoresCase(key: string)
    ensures StripArgMarker(ToLower(key)) == StripArgMarker(key)
  {
    ToLowerKeepsMarkers(key);
    var lk := ToLower(key);
    if IsMarked(key) {
      var body := key[..|key| - 1];
      assert lk[..|lk| - 1] == ToLower(body);
      TrimMarkersToLower(body);
      ToLowerIsLower(TrimMarkers(body));
      assert StripArgMarker(lk) == ToLower(ToLower(TrimMarkers(body)));
    } else {
      ToLowerIsLower(key);
    }
  }

  /** The first argument with the given name, as `iter().find`. */
  function FindArgument(args: seq<RuleArgument>, name: string): (r: Option<nat>)
    ensures r.Some? ==> r.value < |args| && args[r.value].name == name
    ensures r.Some? ==> forall j :: 0 <= j < r.value ==> args[j].name != name
    ensures r.None? ==> forall j :: 0 <= j < |args| ==> args[j].name != name
  {
    if |args| == 0 then None
    else if args[0].name == name then Some(0)
    else match FindArgument(args[1..], name)
      case None => None
      case Some(i) => Some(i + 1)
  }

  /** The argument supplies the value: as its user value, or, when optional and unset, as a plain default. */
  predicate Supplies(arg: RuleArgument, value: string) {
    || arg.userValue == Some(value)
    || (arg.userValue.None? && !arg.required && arg.defaultValue == Some(value) && !IsArgValue(value))
  }

  /** One step of resolution: a final outcome, or the reference that a default points to. */
  datatype Lookup = Resolved(result: Result<string, TemplateError>) | Refers(reference: string)

  /**
   * What the matching argument yields: its user value; else, for an optional argument,
   * its default, which is handed back when it is itself a reference; or the error.
   */
  function Decide(name: string, arg: RuleArgument): Lookup {
    match arg.userValue
    case Some(v) => Resolved(Ok(v))
    case None =>
      if arg.required then Resolved(Err(NotProvided(name)))
      else
        match arg.defaultValue
        case None => Resolved(Err(NoDefault(name)))
        case Some(d) => if IsArgValue(d) then Refers(d) else Resolved(Ok(d))
  }

  /** The decision of the first argument called `name`, or the unknown-argument error. */
  function LookupName(name: string, args: seq<RuleArgument>): Lookup {
    if |args| == 0 then Resolved(Err(InvalidTemplate(name)))
    else if args[0].name == name then Decide(name, args[0])
    else LookupName(name, args[1..])
  }

  /**
   * `get_argument_value`: strips the key, looks it up and follows a default that refers
   * to another argument. `fuel` bounds the depth of that recursion; the source has no bound.
   */
  function GetArgumentValue(key: string, args: seq<RuleArgument>, fuel: nat): Result<string, TemplateError>
    decreases fuel
  {
    match LookupName(StripArgMarker(key), args)
    case Resolved(result) => result
    case Refers(d) => if fuel == 0 then Err(RecursionLimit(d)) else GetArgumentValue(d, args, fuel - 1)
  }

  /** The lookup decides by the first argument of that name, and fails exactly when there is none. */
  lemma {:induction false} LookupNameFirstMatch(name: string, args: seq<RuleArgument>)
    ensures FindArgument(args, name).None? ==> LookupName(name, args) == Resolved(Err(InvalidTemplate(name)))
    ensures FindArgument(args, name).Some? ==> LookupName(name, args) == Decide(name, args[FindArgument(args, name).value])
  {
    if |args| > 0 && args[0].name != name {
      LookupNameFirstMatch(name, args[1..]);
      assert args[1..][..] == args[1..];
    }
  }

  /** A user value wins, whatever the argument's `required` flag or default. */
  lemma UserValueWins(key: string, args: seq<RuleArgument>, fuel: nat, i: nat)
    requires FindArgument(args, StripArgMarker(key)) == Some(i)
    requires args[i].userValue.Some?
    ensures GetArgumentValue(key, args, fuel) == Ok(args[i].userValue.value)
  {
    LookupNameFirstMatch(StripArgMarker(key), args);
  }

  /** A key that names no argument is the invalid-template error. */
  lemma UnknownArgument(key: string, args: seq<RuleArgument>, fuel: nat)
    requires forall j :: 0 <= j < |args| ==> args[j].name != StripArgMarker(key)
    ensures GetArgumentValue(key, args, fuel) == Err(InvalidTemplate(StripArgMarker(key)))
  {
    LookupNameFirstMatch(StripArgMarker(key), args);
  }

  /** An optional argument without a user value falls back to its default, as the source prescribes. */
  lemma DefaultFallback(key: string, args: seq<RuleArgument>, fuel: nat, i: nat)
    requires FindArgument(args, StripArgMarker(key)) == Some(i)
    requires args[i].userValue.None?
    ensures args[i].required ==> GetArgumentValue(key, args, fuel) == Err(NotProvided(StripArgMarker(key)))
    ensures !args[i].required && args[i].defaultValue.None? ==>
              GetArgumentValue(key, args, fuel) == Err(NoDefault(StripArgMarker(key)))
    ensures !args[i].required && args[i].defaultValue.Some? && !IsArgValue(args[i].defaultValue.value) ==>
              GetArgumentValue(key, args, fuel) == Ok(args[i].defaultValue.value)
    ensures !args[i].required && args[i].defaultValue.Some? && IsArgValue(args[i].defaultValue.value) ==>
              GetArgumentValue(key, args, fuel) ==
                (if fuel == 0 then Err(RecursionLimit(args[i].defaultValue.value))
                 else GetArgumentValue(args[i].defaultValue.value, args, fuel - 1))
  {
    LookupNameFirstMatch(StripArgMarker(key), args);
  }

  /** Where one lookup step's outcome comes from. */
  lemma {:induction false} LookupNameProvenance(name: string, args: seq<RuleArgument>)
    ensures LookupName(name, args).Resolved? && LookupName(name, args).result.Ok? ==>
              exists i :: 0 <= i < |args| && Supplies(args[i], LookupName(name, args).result.value)
    ensures LookupName(name, args) == Resolved(Err(NotProvided(name))) ==>
              exists i :: 0 <= i < |args| && args[i].name == name && args[i].required && args[i].userValue.None?
    ensures LookupName(name, args).Resolved? && LookupName(name, args).result.Err? ==>
              LookupName(name, args).result.error.key == name && !LookupName(name, args).result.error.RecursionLimit?
    ensures LookupName(name, args) == Resolved(Err(NoDefault(name))) ==>
              exists i :: 0 <= i < |args| && args[i].name == name && !args[i].required
                                          && args[i].userValue.None? && args[i].defaultValue.None?
    ensures LookupName(name, args) == Resolved(Err(InvalidTemplate(name))) ==>
              forall i :: 0 <= i < |args| ==> args[i].name != name
  {
    if |args| > 0 && args[0].name != name {
      LookupNameProvenance(name, args[1..]);
      var r := LookupName(name, args[1..]);
      if r.Resolved? && r.result.Ok? {
        var i :| 0 <= i < |args[1..]| && Supplies(args[1..][i], r.result.value);
        assert Supplies(args[i + 1], r.result.value);
      }
      if r == Resolved(Err(NotProvided(name))) {
        var i :| 0 <= i < |args[1..]| && args[1..][i].name == name && args[1..][i].required && args[1..][i].userValue.None?;
        assert args[i + 1].name == name;
      }
      if r == Resolved(Err(NoDefault(name))) {
        var i :| 0 <= i < |args[1..]| && args[1..][i].name == name && !args[1..][i].required
                 && args[1..][i].userValue.None? && args[1..][i].defaultValue.None?;
        assert args[i + 1] == args[1..][i];
      }
      if r == Resolved(Err(InvalidTemplate(name))) {
        assert forall i :: 1 <= i < |args| ==> args[i].name == args[1..][i - 1].name;
      }
    }
  }

  /**
   * A resolved value is supplied by some argument (a user value or a plain default); a
   * missing required value names a required argument without one; an invalid template
   * names no argument at all.
   */
  lemma {:induction false} GetArgumentValueProvenance(key: string, args: seq<RuleArgument>, fuel: nat)
    ensures GetArgumentValue(key, args, fuel).Ok? ==>
              exists i :: 0 <= i < |args| && Supplies(args[i], GetArgumentValue(key, args, fuel).value)
    ensures GetArgumentValue(key, args, fuel).Err? && GetArgumentValue(key, args, fuel).error.NotProvided? ==>
              exists i :: 0 <= i < |args| && args[i].name == GetArgumentValue(key, args, fuel).error.key
                                          && args[i].required && args[i].userValue.None?
    ensures GetArgumentValue(key, args, fuel).Err? && GetArgumentValue(key, args, fuel).error.NoDefault? ==>
              exists i :: 0 <= i < |args| && args[i].name == GetArgumentValue(key, args, fuel).error.key
                                          && !args[i].required && args[i].userValue.None? && args[i].defaultValue.None?
    ensures GetArgumentValue(key, args, fuel).Err? && GetArgumentValue(key, args, fuel).error.InvalidTemplate? ==>
              forall i :: 0 <= i < |args| ==> args[i].name != GetArgumentValue(key, args, fuel).error.key
    decreases fuel
  {
    var step := LookupName(StripArgMarker(key), args);
    LookupNameProvenance(StripArgMarker(key), args);
    if step.Refers? && fuel > 0 {
      GetArgumentValueProvenance(step.reference, args, fuel - 1);
    }
  }

  /** With fuel to spare, a reference step resolves as the key it refers to; without, it runs out. */
  lemma StepRefers(key: string, args: seq<RuleArgument>, fuel: nat)
    requires LookupName(StripArgMarker(key), args).Refers?
    ensures fuel == 0 ==> GetArgumentValue(key, args, fuel) == Err(RecursionLimit(LookupName(StripArgMarker(key), args).reference))
    ensures fuel > 0 ==> GetArgumentValue(key, args, fuel) == GetArgumentValue(LookupName(StripArgMarker(key), args).reference, args, fuel - 1)
  {
  }

  /** More fuel never changes an outcome that did not run out of fuel. */
  lemma {:induction false} FuelMonotone(key: string, args: seq<RuleArgument>, fuel: nat, more: nat)
    requires fuel <= more
    requires !(GetArgumentValue(key, args, fuel).Err? && GetArgumentValue(key, args, fuel).error.RecursionLimit?)
    ensures GetArgumentValue(key, args, more) == GetArgumentValue(key, args, fuel)
    decreases fuel
  {
    match LookupName(StripArgMarker(key), args)
    case Resolved(_) =>
    case Refers(d) =>
      FuelMonotone(d, args, fuel - 1, more - 1);
  }

  /**
   * A key whose argument's default refers back to the same name never resolves, whatever
   * the fuel: every step leads to the same reference, until the depth bound is reached.
   */
  lemma {:induction false} SelfReferenceNeverResolves(key: string, args: seq<RuleArgument>, fuel: nat)
    requires LookupName(StripArgMarker(key), args).Refers?
    requires StripArgMarker(LookupName(StripArgMarker(key), args).reference) == StripArgMarker(key)
    ensures GetArgumentValue(key, args, fuel) == Err(RecursionLimit(LookupName(StripArgMarker(key), args).reference))
    decreases fuel
  {
    if fuel > 0 {
      SelfReferenceNeverResolves(LookupName(StripArgMarker(key), args).reference, args, fuel - 1);
    }
  }

  /** The one-argument instance: `a` defaults to `$(a)`. */
  lemma SelfReferenceExample(fuel: nat)
    ensures GetArgumentValue("$(a)", [RuleArgument("a", false, Some("$(a)"), None, None)], fuel)
         == Err(RecursionLimit("$(a)"))
  {
    var args := [RuleArgument("a", false, Some("$(a)"), None, None)];
    assert "$(a)"[..3] == "$(a";
    assert TrimMarkers("$(a") == TrimMarkers("a") == "a";
    assert StripArgMarker("$(a)") == "a";
    SelfReferenceNeverResolves("$(a)", args, fuel);
  }
}
