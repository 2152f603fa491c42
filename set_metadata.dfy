/**
 * The `set-metadata` rule of circuit templates: a list of JSON entries, each a key with
 * one value or a list of values, rendered into the text of a JSON object after argument
 * references among the values have been resolved.
 */
module SetMetadata {
  import opened Types
  import opened Text
  import opened TemplateRules

  /** One entry of the JSON metadata. */
  datatype JsonMetadata = JsonMetadata(key: string, value: Value)

  /** The representations of metadata; JSON is the only one. */
  datatype Metadata = Json(metadata: seq<JsonMetadata>)

  /** `format!("\"{}\"", s)`: the string between double quotes, with nothing escaped. */
  function Quote(s: string): (q: string)
    ensures |q| == |s| + 2 && q[0] == '"' && q[|q| - 1] == '"' && q[1..|q| - 1] == s
  {
    "\"" + s + "\""
  }

  /**
   * `collect::<Result<Vec<String>, _>>()`: all the strings when every element succeeded,
   * otherwise the error of the first element that failed.
   */
  function Collect(rs: seq<Result<string, TemplateError>>): Result<seq<string>, TemplateError> {
    if |rs| == 0 then Ok([])
    else
      match rs[0]
      case Err(e) => Err(e)
      case Ok(s) =>
        match Collect(rs[1..])
        case Err(e) => Err(e)
        case Ok(rest) => Ok([s] + rest)
  }

  /**
   * Collecting succeeds exactly when every element does, and then holds every value in
   * order; otherwise it fails with the error of the first element that failed.
   */
  lemma {:induction false} CollectSpec(rs: seq<Result<string, TemplateError>>)
    ensures Collect(rs).Ok? <==> forall i :: 0 <= i < |rs| ==> rs[i].Ok?
    ensures Collect(rs).Ok? ==> |Collect(rs).value| == |rs| && forall i :: 0 <= i < |rs| ==> rs[i] == Ok(Collect(rs).value[i])
    ensures Collect(rs).Err? ==>
              exists i :: 0 <= i < |rs| && rs[i] == Err(Collect(rs).error) && forall j :: 0 <= j < i ==> rs[j].Ok?
  {
    if |rs| > 0 && rs[0].Ok? {
      CollectSpec(rs[1..]);
      assert forall i :: 1 <= i < |rs| ==> rs[i] == rs[1..][i - 1];
      var r := Collect(rs[1..]);
      if r.Err? {
        var i :| 0 <= i < |rs[1..]| && rs[1..][i] == Err(r.error) && forall j :: 0 <= j < i ==> rs[1..][j].Ok?;
        assert rs[i + 1] == Err(Collect(rs).error);
      }
    }
  }

  /** Collecting two lists one after the other collects each, in order. */
  lemma {:induction false} CollectAppend(a: seq<Result<string, TemplateError>>, b: seq<Result<string, TemplateError>>)
    requires Collect(a).Ok? && Collect(b).Ok?
    ensures Collect(a + b) == Ok(Collect(a).value + Collect(b).value)
    decreases |a|
  {
    var ab := a + b;
    var vb := Collect(b).value;
    if |a| == 0 {
      assert ab == b;
      assert Collect(a).value + vb == vb;
    } else {
      var va := Collect(a[1..]).value;
      assert ab[0] == a[0];
      assert ab[1..] == a[1..] + b;
      CollectAppend(a[1..], b);
      assert Collect(ab[1..]) == Ok(va + vb);
      assert Collect(ab) == Ok([a[0].value] + (va + vb));
      assert Collect(a).value == [a[0].value] + va;
      assert [a[0].value] + (va + vb) == ([a[0].value] + va) + vb;
    }
  }

  /** A value that is an argument reference is resolved; any other is taken verbatim. */
  function ResolveValue(value: string, args: seq<RuleArgument>, fuel: nat): Result<string, TemplateError> {
    if IsArgValue(value) then GetArgumentValue(value, args, fuel) else Ok(value)
  }

  /** One list element: the resolved value between double quotes. */
  function RenderListValue(value: string, args: seq<RuleArgument>, fuel: nat): Result<string, TemplateError> {
    match ResolveValue(value, args, fuel)
    case Err(e) => Err(e)
    case Ok(v) => Ok(Quote(v))
  }

  /** Every list element rendered, in order. */
  function RenderListValues(values: seq<string>, args: seq<RuleArgument>, fuel: nat): (rs: seq<Result<string, TemplateError>>)
    ensures |rs| == |values| && forall i :: 0 <= i < |values| ==> rs[i] == RenderListValue(values[i], args, fuel)
  {
    seq(|values|, i requires 0 <= i < |values| => RenderListValue(values[i], args, fuel))
  }

  /** One entry: `"key":"value"` for a single value, `"key":[v1,v2,...]` for a list. */
  function RenderEntry(entry: JsonMetadata, args: seq<RuleArgument>, fuel: nat): Result<string, TemplateError> {
    match entry.value
    case Single(value) =>
      (match ResolveValue(value, args, fuel)
       case Err(e) => Err(e)
       case Ok(v) => Ok(Quote(entry.key) + ":" + Quote(v)))
    case List(values) =>
      match Collect(RenderListValues(values, args, fuel))
      case Err(e) => Err(e)
      case Ok(vs) => Ok(Quote(entry.key) + ":[" + Join(vs, ",") + "]")
  }

  /** Every entry rendered, in order. */
  function RenderEntries(entries: seq<JsonMetadata>, args: seq<RuleArgument>, fuel: nat): (rs: seq<Result<string, TemplateError>>)
    ensures |rs| == |entries| && forall i :: 0 <= i < |entries| ==> rs[i] == RenderEntry(entries[i], args, fuel)
  {
    seq(|entries|, i requires 0 <= i < |entries| => RenderEntry(entries[i], args, fuel))
  }

  /** `SetMetadata::apply_rule`: the rendered entries joined by `,` between braces. */
  function ApplyRule(metadata: Metadata, args: seq<RuleArgument>, fuel: nat): Result<string, TemplateError> {
    match metadata
    case Json(entries) =>
      match Collect(RenderEntries(entries, args, fuel))
      case Err(e) => Err(e)
      case Ok(parts) => Ok("{" + Join(parts, ",") + "}")
  }

  /** The output is an object: `{`, the entries in order joined by `,`, then `}`. */
  lemma ApplyRuleShape(entries: seq<JsonMetadata>, args: seq<RuleArgument>, fuel: nat)
    ensures ApplyRule(Json(entries), args, fuel).Ok? ==>
              exists parts: seq<string> ::
                && |parts| == |entries|
                && (forall i :: 0 <= i < |entries| ==> RenderEntry(entries[i], args, fuel) == Ok(parts[i]))
                && ApplyRule(Json(entries), args, fuel).value == "{" + Join(parts, ",") + "}"
  {
    var r := Collect(RenderEntries(entries, args, fuel));
    CollectSpec(RenderEntries(entries, args, fuel));
    if r.Ok? {
      var parts := r.value;
      assert forall i :: 0 <= i < |entries| ==> RenderEntry(entries[i], args, fuel) == Ok(parts[i]);
    }
  }

  /** Empty metadata gives `{}`. */
  lemma ApplyRuleEmpty(args: seq<RuleArgument>, fuel: nat)
    ensures ApplyRule(Json([]), args, fuel) == Ok("{}")
  {
    assert RenderEntries([], args, fuel) == [];
    assert "{" + Join([], ",") + "}" == "{}";
  }

  /** The rule fails exactly when some entry fails, and then with the first failure: no partial output. */
  lemma ApplyRuleFails(entries: seq<JsonMetadata>, args: seq<RuleArgument>, fuel: nat)
    ensures ApplyRule(Json(entries), args, fuel).Err? <==>
              exists i :: 0 <= i < |entries| && RenderEntry(entries[i], args, fuel).Err?
    ensures ApplyRule(Json(entries), args, fuel).Err? ==>
              exists i :: 0 <= i < |entries| && RenderEntry(entries[i], args, fuel) == Err(ApplyRule(Json(entries), args, fuel).error)
                        && forall j :: 0 <= j < i ==> RenderEntry(entries[j], args, fuel).Ok?
  {
    var rs := RenderEntries(entries, args, fuel);
    CollectSpec(rs);
    if Collect(rs).Err? {
      var i :| 0 <= i < |rs| && rs[i] == Err(Collect(rs).error) && forall j :: 0 <= j < i ==> rs[j].Ok?;
      assert RenderEntry(entries[i], args, fuel).Err?;
    }
  }

  /** A single value renders as `"key":"value"`, the value resolved when it is a reference. */
  lemma SingleEntryFormat(key: string, value: string, args: seq<RuleArgument>, fuel: nat)
    ensures !IsArgValue(value) ==> RenderEntry(JsonMetadata(key, Single(value)), args, fuel) == Ok("\"" + key + "\":\"" + value + "\"")
    ensures IsArgValue(value) && GetArgumentValue(value, args, fuel).Ok? ==>
              RenderEntry(JsonMetadata(key, Single(value)), args, fuel)
              == Ok("\"" + key + "\":\"" + GetArgumentValue(value, args, fuel).value + "\"")
    ensures IsArgValue(value) && GetArgumentValue(value, args, fuel).Err? ==>
              RenderEntry(JsonMetadata(key, Single(value)), args, fuel) == Err(GetArgumentValue(value, args, fuel).error)
  {
    forall v: string ensures Quote(key) + ":" + Quote(v) == "\"" + key + "\":\"" + v + "\"" {
      QuoteConcat(key, ":", v);
    }
  }

  /** The two spellings of a quoted key, a separator and a quoted value agree. */
  lemma QuoteConcat(key: string, sep: string, v: string)
    ensures Quote(key) + sep + Quote(v) == "\"" + key + "\"" + sep + "\"" + v + "\""
  {
  }

  /** Every string quoted, in order. */
  function QuoteAll(values: seq<string>): (q: seq<string>)
    ensures |q| == |values| && forall i :: 0 <= i < |values| ==> q[i] == Quote(values[i])
  {
    seq(|values|, i requires 0 <= i < |values| => Quote(values[i]))
  }

  /** A list whose values all resolve renders as `"key":["v1","v2",...]`, in input order. */
  lemma ListEntryFormat(key: string, values: seq<string>, resolved: seq<string>, args: seq<RuleArgument>, fuel: nat)
    requires |resolved| == |values|
    requires forall i :: 0 <= i < |values| ==> ResolveValue(values[i], args, fuel) == Ok(resolved[i])
    ensures RenderEntry(JsonMetadata(key, List(values)), args, fuel)
         == Ok("\"" + key + "\":[" + Join(QuoteAll(resolved), ",") + "]")
  {
    var rs := RenderListValues(values, args, fuel);
    assert forall i :: 0 <= i < |values| ==> rs[i] == Ok(Quote(resolved[i]));
    CollectSpec(rs);
    assert Collect(rs).Ok?;
    assert Collect(rs).value == QuoteAll(resolved);
    assert Quote(key) + ":[" == "\"" + key + "\":[";
  }

  /** A list fails with the first of its values that does not resolve. */
  lemma ListEntryFails(key: string, values: seq<string>, args: seq<RuleArgument>, fuel: nat, i: nat)
    requires i < |values| && ResolveValue(values[i], args, fuel).Err?
    requires forall j :: 0 <= j < i ==> ResolveValue(values[j], args, fuel).Ok?
    ensures RenderEntry(JsonMetadata(key, List(values)), args, fuel) == Err(ResolveValue(values[i], args, fuel).error)
  {
    var rs := RenderListValues(values, args, fuel);
    assert rs[i].Err?;
    CollectSpec(rs);
    var k :| 0 <= k < |rs| && rs[k] == Err(Collect(rs).error) && forall j :: 0 <= j < k ==> rs[j].Ok?;
    assert k == i;
  }

  /** No value of the entry is an argument reference. */
  predicate Verbatim(entry: JsonMetadata) {
    match entry.value
    case Single(v) => !IsArgValue(v)
    case List(vs) => forall i :: 0 <= i < |vs| ==> !IsArgValue(vs[i])
  }

  /** One entry without references renders the same under any arguments, and never fails. */
  lemma EntryIndependent(entry: JsonMetadata, args: seq<RuleArgument>, fuel: nat, args': seq<RuleArgument>, fuel': nat)
    requires Verbatim(entry)
    ensures RenderEntry(entry, args, fuel).Ok?
    ensures RenderEntry(entry, args, fuel) == RenderEntry(entry, args', fuel')
  {
    match entry.value
    case Single(v) =>
    case List(vs) =>
      ListEntryFormat(entry.key, vs, vs, args, fuel);
      ListEntryFormat(entry.key, vs, vs, args', fuel');
  }

  /** Metadata without references never fails and does not depend on the arguments. */
  lemma VerbatimIndependent(entries: seq<JsonMetadata>, args: seq<RuleArgument>, fuel: nat, args': seq<RuleArgument>, fuel': nat)
    requires forall i :: 0 <= i < |entries| ==> Verbatim(entries[i])
    ensures ApplyRule(Json(entries), args, fuel).Ok?
    ensures ApplyRule(Json(entries), args, fuel) == ApplyRule(Json(entries), args', fuel')
  {
    forall i | 0 <= i < |entries|
      ensures RenderEntry(entries[i], args, fuel).Ok?
      ensures RenderEntry(entries[i], args, fuel) == RenderEntry(entries[i], args', fuel')
    {
      EntryIndependent(entries[i], args, fuel, args', fuel');
    }
    CollectSpec(RenderEntries(entries, args, fuel));
    assert RenderEntries(entries, args, fuel) == RenderEntries(entries, args', fuel');
  }

  /** Two braced strings run together with one `,` in place of the inner `}{`. */
  lemma BracesConcat(ja: string, jb: string)
    ensures var sa := "{" + ja + "}";
            var sb := "{" + jb + "}";
            "{" + (ja + "," + jb) + "}" == sa[..|sa| - 1] + "," + sb[1..]
  {
    var sa := "{" + ja + "}";
    var sb := "{" + jb + "}";
    assert sa[..|sa| - 1] == "{" + ja;
    assert sb[1..] == jb + "}";
  }

  /** Rendering `a + b` renders `a`, then `b`. */
  lemma RenderEntriesAppend(a: seq<JsonMetadata>, b: seq<JsonMetadata>, args: seq<RuleArgument>, fuel: nat)
    ensures RenderEntries(a + b, args, fuel) == RenderEntries(a, args, fuel) + RenderEntries(b, args, fuel)
  {
    assert forall i :: 0 <= i < |a| ==> (a + b)[i] == a[i];
    assert forall i :: |a| <= i < |a + b| ==> (a + b)[i] == b[i - |a|];
  }

  /** The object for `a + b` is the object for `a` and the one for `b` run together with one `,`. */
  lemma ApplyRuleConcat(a: seq<JsonMetadata>, b: seq<JsonMetadata>, args: seq<RuleArgument>, fuel: nat)
    requires |a| > 0 && |b| > 0
    requires ApplyRule(Json(a), args, fuel).Ok? && ApplyRule(Json(b), args, fuel).Ok?
    ensures ApplyRule(Json(a + b), args, fuel).Ok?
    ensures var sa := ApplyRule(Json(a), args, fuel).value;
            var sb := ApplyRule(Json(b), args, fuel).value;
            ApplyRule(Json(a + b), args, fuel).value == sa[..|sa| - 1] + "," + sb[1..]
  {
    var ra := RenderEntries(a, args, fuel);
    var rb := RenderEntries(b, args, fuel);
    var pa := Collect(ra).value;
    var pb := Collect(rb).value;
    assert ApplyRule(Json(a + b), args, fuel) == Ok("{" + Join(pa + pb, ",") + "}") by {
      RenderEntriesAppend(a, b, args, fuel);
      CollectAppend(ra, rb);
    }
    JoinAppend(pa, pb, ",");
    BracesConcat(Join(pa, ","), Join(pb, ","));
  }

  /** Keys and values are copied as they are: a double quote inside a key is not escaped. */
  lemma KeysNotEscaped()
    ensures ApplyRule(Json([JsonMetadata("a\"b", Single("c"))]), [], 0) == Ok("{\"a\"b\":\"c\"}")
  {
    var entries := [JsonMetadata("a\"b", Single("c"))];
    assert !IsArgValue("c");
    assert Quote("a\"b") == "\"a\"b\"";
    assert Quote("c") == "\"c\"";
    assert "\"a\"b\"" + ":" + "\"c\"" == "\"a\"b\":\"c\"";
    var rs := RenderEntries(entries, [], 0);
    assert rs == [Ok("\"a\"b\":\"c\"")];
    assert rs[1..] == [];
    assert ["\"a\"b\":\"c\""] + [] == ["\"a\"b\":\"c\""];
    assert Collect(rs) == Ok(["\"a\"b\":\"c\""]);
    assert Join(["\"a\"b\":\"c\""], ",") == "\"a\"b\":\"c\"";
    assert "{" + "\"a\"b\":\"c\"" + "}" == "{\"a\"b\":\"c\"}";
  }
}
