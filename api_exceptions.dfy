/** The OpenAPI error responses of the API exceptions (app/api/exceptions.py): the `example`
    and `response` class methods and `include_exception_responses`, which merges consecutive
    exceptions with the same status code into one documented response. */
module ApiExceptions {

  /** The Python values that occur in a responses dictionary. */
  datatype Value =
    | Null
    | Text(s: string)
    // a response model class, or the `Union` of several; the distinct class names in order
    | Model(names: seq<string>)
    | Dict(entries: map<string, Value>)
    // any other value (a list, a number, ...)
    | Other

  /** A subclass of BaseAPIException, described by the class attributes the documentation
      reads: its name, `status_code`, the name of its `model`, `_content_type`, and the
      model's `model_config.get("json_schema_extra")` (Null when absent). */
  datatype ExceptionClass = ExceptionClass(
    name: string,
    statusCode: int,
    model: string,
    contentType: string,
    schemaExtra: Value)

  /** `example()`: the "example" entry of `json_schema_extra` when it is a dict, else None. */
  function Example(e: ExceptionClass): (v: Value)
    ensures !e.schemaExtra.Dict? ==> v == Null
    ensures e.schemaExtra.Dict? && "example" in e.schemaExtra.entries ==> v == e.schemaExtra.entries["example"]
    ensures e.schemaExtra.Dict? && "example" !in e.schemaExtra.entries ==> v == Null
  {
    match e.schemaExtra
    case Dict(entries) => if "example" in entries then entries["example"] else Null
    case _ => Null
  }

  /** `response()`: the model, and `json_schema_extra` under the content type. */
  function Response(e: ExceptionClass): (v: Value)
    ensures v.Dict? && v.entries.Keys == {"model", "content"}
    ensures v.entries["model"] == Model([e.model])
    ensures v.entries["content"] == Dict(map[e.contentType := e.schemaExtra])
  {
    Dict(map["model" := Model([e.model]), "content" := Dict(map[e.contentType := e.schemaExtra])])
  }

  // ---------------------------------------------------------------------------
  // itertools.groupby by status code

  /** The runs concatenated back together. */
  function Flatten(runs: seq<seq<ExceptionClass>>): seq<ExceptionClass>
  {
    if runs == [] then [] else runs[0] + Flatten(runs[1..])
  }

  /** Every run is nonempty and all its members share one status code. */
  ghost predicate UniformRuns(runs: seq<seq<ExceptionClass>>)
  {
    forall k :: 0 <= k < |runs| ==>
      |runs[k]| > 0 && forall i :: 0 <= i < |runs[k]| ==> runs[k][i].statusCode == runs[k][0].statusCode
  }

  /** Consecutive runs have different status codes. */
  ghost predicate MaximalRuns(runs: seq<seq<ExceptionClass>>)
    requires UniformRuns(runs)
  {
    forall k :: 0 <= k < |runs| - 1 ==> runs[k][0].statusCode != runs[k + 1][0].statusCode
  }

  /** `groupby(args, lambda e: e.status_code)`: the maximal runs of consecutive exceptions
      with equal status codes. */
  function GroupBy(args: seq<ExceptionClass>): (runs: seq<seq<ExceptionClass>>)
    ensures UniformRuns(runs) && MaximalRuns(runs)
    ensures Flatten(runs) == args
    ensures args == [] <==> runs == []
    ensures runs != [] ==> runs[0][0] == args[0]
    decreases |args|
  {
    if args == [] then []
    else
      var rest := GroupBy(args[1..]);
      assert args == [args[0]] + args[1..];
      if rest != [] && rest[0][0].statusCode == args[0].statusCode then
        JoinFirstRun(args[0], rest);
        [[args[0]] + rest[0]] + rest[1..]
      else
        StartNewRun(args[0], rest);
        [[args[0]]] + rest
  }

  /** Putting an exception in front of a first run with its status code keeps the runs
      uniform and maximal. */
  lemma JoinFirstRun(x: ExceptionClass, rest: seq<seq<ExceptionClass>>)
    requires UniformRuns(rest) && MaximalRuns(rest)
    requires rest != [] && rest[0][0].statusCode == x.statusCode
    ensures UniformRuns([[x] + rest[0]] + rest[1..])
    ensures MaximalRuns([[x] + rest[0]] + rest[1..])
    ensures Flatten([[x] + rest[0]] + rest[1..]) == [x] + Flatten(rest)
  {
    JoinUniform(x, rest);
    JoinMaximal(x, rest);
    JoinFlatten(x, rest);
  }

  lemma JoinMaximal(x: ExceptionClass, rest: seq<seq<ExceptionClass>>)
    requires UniformRuns(rest) && MaximalRuns(rest)
    requires rest != [] && rest[0][0].statusCode == x.statusCode
    requires UniformRuns([[x] + rest[0]] + rest[1..])
    ensures MaximalRuns([[x] + rest[0]] + rest[1..])
  {
    var runs: seq<seq<ExceptionClass>> := [[x] + rest[0]] + rest[1..];
    forall k | 0 <= k < |runs| - 1
      ensures runs[k][0].statusCode != runs[k + 1][0].statusCode
    {
      assert runs[k + 1] == rest[k + 1];
      if k > 0 { assert runs[k] == rest[k]; } else { assert runs[0][0] == x; }
    }
  }

  lemma JoinFlatten(x: ExceptionClass, rest: seq<seq<ExceptionClass>>)
    requires rest != []
    ensures Flatten([[x] + rest[0]] + rest[1..]) == [x] + Flatten(rest)
  {
    var runs: seq<seq<ExceptionClass>> := [[x] + rest[0]] + rest[1..];
    assert runs[1..] == rest[1..];
    assert Flatten(runs) == ([x] + rest[0]) + Flatten(rest[1..]);
  }

  lemma JoinUniform(x: ExceptionClass, rest: seq<seq<ExceptionClass>>)
    requires UniformRuns(rest)
    requires rest != [] && rest[0][0].statusCode == x.statusCode
    ensures UniformRuns([[x] + rest[0]] + rest[1..])
  {
    var runs: seq<seq<ExceptionClass>> := [[x] + rest[0]] + rest[1..];
    forall k | 0 <= k < |runs|
      ensures |runs[k]| > 0 && forall i :: 0 <= i < |runs[k]| ==> runs[k][i].statusCode == runs[k][0].statusCode
    {
      if k > 0 {
        assert runs[k] == rest[k];
      } else {
        var r0: seq<ExceptionClass> := runs[0];
        forall i | 0 <= i < |r0| ensures r0[i].statusCode == r0[0].statusCode {
          if i > 0 { assert r0[i] == rest[0][i - 1]; }
        }
      }
    }
  }

  /** An exception whose status differs from the first run's starts a run of its own. */
  lemma StartNewRun(x: ExceptionClass, rest: seq<seq<ExceptionClass>>)
    requires UniformRuns(rest) && MaximalRuns(rest)
    requires rest == [] || rest[0][0].statusCode != x.statusCode
    ensures UniformRuns([[x]] + rest)
    ensures MaximalRuns([[x]] + rest)
    ensures Flatten([[x]] + rest) == [x] + Flatten(rest)
  {
    var runs := [[x]] + rest;
    assert runs[1..] == rest;
    assert forall k :: 1 <= k < |runs| ==> runs[k] == rest[k - 1];
  }

  /** The status codes occurring in the arguments. */
  ghost function Statuses(args: seq<ExceptionClass>): set<int>
  {
    set i | 0 <= i < |args| :: args[i].statusCode
  }

  // ---------------------------------------------------------------------------
  // One run's entry

  /** The distinct names in order of first occurrence, as `Union[...]` keeps them. */
  function Dedup(names: seq<string>): (r: seq<string>)
    ensures forall x :: x in r <==> x in names
    ensures forall i, j :: 0 <= i < j < |r| ==> r[i] != r[j]
    decreases |names|
  {
    if names == [] then []
    else
      var d := Dedup(names[..|names| - 1]);
      var last := names[|names| - 1];
      assert names == names[..|names| - 1] + [last];
      if last in d then d else d + [last]
  }

  function ModelsOf(errs: seq<ExceptionClass>): (r: seq<string>)
    ensures |r| == |errs| && forall i :: 0 <= i < |errs| ==> r[i] == errs[i].model
  {
    seq(|errs|, i requires 0 <= i < |errs| => errs[i].model)
  }

  /** `{"value": err.example()}`. */
  function ExampleEntry(e: ExceptionClass): Value
  {
    Dict(map["value" := Example(e)])
  }

  /** The nested defaultdict after the inner loop: per content type, the examples keyed by
      class name, each update overriding an earlier one of the same name. */
  function RunContent(errs: seq<ExceptionClass>): map<string, map<string, Value>>
    decreases |errs|
  {
    if errs == [] then map[]
    else
      var c := RunContent(errs[..|errs| - 1]);
      var e := errs[|errs| - 1];
      var examples := if e.contentType in c then c[e.contentType] else map[];
      c[e.contentType := examples[e.name := ExampleEntry(e)]]
  }

  /** `dict(content)`: each content type maps to `{"examples": ...}`. */
  function ContentValue(c: map<string, map<string, Value>>): Value
  {
    Dict(map ct | ct in c :: Dict(map["examples" := Dict(c[ct])]))
  }

  /** The entry of one run: the exception's own `response()` for a run of one, otherwise the
      Union of the models and the combined examples. */
  function EntryFor(errs: seq<ExceptionClass>): Value
    requires |errs| > 0
  {
    if |errs| == 1 then Response(errs[0])
    else Dict(map["model" := Model(Dedup(ModelsOf(errs))), "content" := ContentValue(RunContent(errs))])
  }

  /** The `responses.update` calls in order: a later run replaces an earlier entry. */
  function Merge(runs: seq<seq<ExceptionClass>>): map<int, Value>
    requires UniformRuns(runs)
    decreases |runs|
  {
    if runs == [] then map[]
    else
      var init := runs[..|runs| - 1];
      assert UniformRuns(init) by { assert forall k :: 0 <= k < |init| ==> init[k] == runs[k]; }
      var last := runs[|runs| - 1];
      Merge(init)[last[0].statusCode := EntryFor(last)]
  }

  // ---------------------------------------------------------------------------
  // include_exception_responses

  /** The inner loop over one run, filling the nested defaultdict. */
  method FillContent(errs: seq<ExceptionClass>) returns (content: map<string, map<string, Value>>)
    ensures content == RunContent(errs)
  {
    content := map[];
    for n := 0 to |errs|
      invariant content == RunContent(errs[..n])
    {
      var err := errs[n];
      assert errs[..n + 1][..n] == errs[..n];
      var examples := if err.contentType in content then content[err.contentType] else map[];
      content := content[err.contentType := examples[err.name := ExampleEntry(err)]];
    }
    assert errs[..|errs|] == errs;
  }

  /** include_exception_responses: one entry per run of `groupby`, set in run order. */
  method IncludeExceptionResponses(args: seq<ExceptionClass>) returns (responses: map<int, Value>)
    ensures responses == Merge(GroupBy(args))
  {
    var runs := GroupBy(args);
    responses := map[];
    for k := 0 to |runs|
      invariant responses == MergePrefix(runs, k)
    {
      var errs := runs[k];
      var entry;
      if |errs| == 1 {
        entry := Response(errs[0]);
      } else {
        var content := FillContent(errs);
        entry := Dict(map["model" := Model(Dedup(ModelsOf(errs))), "content" := ContentValue(content)]);
      }
      MergePrefixStep(runs, k);
      responses := responses[errs[0].statusCode := entry];
    }
    assert runs[..|runs|] == runs;
  }

  /** The entries after the first k runs. */
  function MergePrefix(runs: seq<seq<ExceptionClass>>, k: nat): map<int, Value>
    requires UniformRuns(runs) && k <= |runs|
  {
    UniformPrefix(runs, k);
    Merge(runs[..k])
  }

  lemma UniformPrefix(runs: seq<seq<ExceptionClass>>, k: nat)
    requires UniformRuns(runs) && k <= |runs|
    ensures UniformRuns(runs[..k])
  {
    assert forall j :: 0 <= j < k ==> runs[..k][j] == runs[j];
  }

  lemma MergePrefixStep(runs: seq<seq<ExceptionClass>>, k: nat)
    requires UniformRuns(runs) && k < |runs|
    ensures MergePrefix(runs, k + 1) == MergePrefix(runs, k)[runs[k][0].statusCode := EntryFor(runs[k])]
  {
    UniformPrefix(runs, k + 1);
    assert runs[..k + 1][..k] == runs[..k];
  }

  // ---------------------------------------------------------------------------
  // Properties of the result

  /** No exceptions: an empty dictionary. */
  lemma NoExceptionsNoResponses()
    ensures Merge(GroupBy([])) == map[]
  {
  }

  /** The keys are exactly the status codes of the runs. */
  lemma {:induction false} MergeKeys(runs: seq<seq<ExceptionClass>>)
    requires UniformRuns(runs)
    ensures Merge(runs).Keys == set k | 0 <= k < |runs| :: runs[k][0].statusCode
    decreases |runs|
  {
    if runs != [] {
      var init := runs[..|runs| - 1];
      assert forall k :: 0 <= k < |init| ==> init[k] == runs[k];
      MergeKeys(init);
      var s := set k | 0 <= k < |runs| :: runs[k][0].statusCode;
      var si := set k | 0 <= k < |init| :: init[k][0].statusCode;
      assert s == si + {runs[|runs| - 1][0].statusCode} by {
        forall x | x in s ensures x in si + {runs[|runs| - 1][0].statusCode} {
          var k :| 0 <= k < |runs| && runs[k][0].statusCode == x;
          if k < |init| { assert init[k][0].statusCode == x; }
        }
      }
    }
  }

  /** Every member of a run of uniform runs is a member of the flattened list, and back. */
  lemma {:induction false} FlattenStatuses(runs: seq<seq<ExceptionClass>>)
    requires UniformRuns(runs)
    ensures Statuses(Flatten(runs)) == set k | 0 <= k < |runs| :: runs[k][0].statusCode
    decreases |runs|
  {
    if runs != [] {
      var rest := runs[1..];
      assert UniformRuns(rest) by { assert forall k :: 0 <= k < |rest| ==> rest[k] == runs[k + 1]; }
      FlattenStatuses(rest);
      var f := Flatten(runs);
      assert f == runs[0] + Flatten(rest);
      var s := set k | 0 <= k < |runs| :: runs[k][0].statusCode;
      var sr := set k | 0 <= k < |rest| :: rest[k][0].statusCode;
      assert Statuses(runs[0]) == {runs[0][0].statusCode} by {
        assert runs[0][0].statusCode in Statuses(runs[0]);
      }
      StatusesAppend(runs[0], Flatten(rest));
      assert s == {runs[0][0].statusCode} + sr by {
        forall x | x in s ensures x in {runs[0][0].statusCode} + sr {
          var k :| 0 <= k < |runs| && runs[k][0].statusCode == x;
          if k > 0 { assert rest[k - 1][0].statusCode == x; }
        }
        forall x | x in sr ensures x in s {
          var k :| 0 <= k < |rest| && rest[k][0].statusCode == x;
          assert runs[k + 1][0].statusCode == x;
        }
      }
    }
  }

  lemma StatusesAppend(a: seq<ExceptionClass>, b: seq<ExceptionClass>)
    ensures Statuses(a + b) == Statuses(a) + Statuses(b)
  {
    var ab := a + b;
    forall x | x in Statuses(ab) ensures x in Statuses(a) + Statuses(b) {
      var i :| 0 <= i < |ab| && ab[i].statusCode == x;
      if i < |a| { assert a[i] == ab[i]; } else { assert b[i - |a|] == ab[i]; }
    }
    forall x | x in Statuses(a) + Statuses(b) ensures x in Statuses(ab) {
      if x in Statuses(a) {
        var i :| 0 <= i < |a| && a[i].statusCode == x;
        assert ab[i] == a[i];
      } else {
        var i :| 0 <= i < |b| && b[i].statusCode == x;
        assert ab[|a| + i] == b[i];
      }
    }
  }

  /** The result's keys are exactly the status codes occurring in the arguments. */
  lemma ResponseKeys(args: seq<ExceptionClass>)
    ensures Merge(GroupBy(args)).Keys == Statuses(args)
  {
    var runs := GroupBy(args);
    MergeKeys(runs);
    FlattenStatuses(runs);
  }

  /** A single exception is documented by its own `response()`. */
  lemma SingleException(e: ExceptionClass)
    ensures Merge(GroupBy([e])) == map[e.statusCode := Response(e)]
  {
    assert [e][1..] == [];
    assert GroupBy([e]) == [[e]];
    assert [[e]][..0] == [];
  }

  /** The entry of a run is the one of the last run with that status code: a later run that
      is not adjacent replaces an earlier one. */
  lemma {:induction false} MergeLastRunWins(runs: seq<seq<ExceptionClass>>, k: nat)
    requires UniformRuns(runs)
    requires k < |runs|
    requires forall j :: k < j < |runs| ==> runs[j][0].statusCode != runs[k][0].statusCode
    ensures runs[k][0].statusCode in Merge(runs)
    ensures Merge(runs)[runs[k][0].statusCode] == EntryFor(runs[k])
    decreases |runs|
  {
    var init := runs[..|runs| - 1];
    assert forall j :: 0 <= j < |init| ==> init[j] == runs[j];
    if k < |runs| - 1 {
      MergeLastRunWins(init, k);
    }
  }

  /** Two non-adjacent runs with one status: the second one's entry is what remains. */
  lemma LaterRunOverwrites(a: ExceptionClass, b: ExceptionClass, c: ExceptionClass)
    requires a.statusCode == c.statusCode && a.statusCode != b.statusCode
    ensures Merge(GroupBy([a, b, c])) == map[a.statusCode := Response(c), b.statusCode := Response(b)]
  {
    assert [a, b, c][1..] == [b, c];
    assert [b, c][1..] == [c];
    assert [c][1..] == [];
    assert GroupBy([c]) == [[c]];
    assert GroupBy([b, c]) == [[b], [c]];
    var runs := GroupBy([a, b, c]);
    assert runs == [[a], [b], [c]];
    assert runs[..2] == [[a], [b]];
    assert [[a], [b]][..1] == [[a]];
    assert [[a]][..0] == [];
    assert Merge([[a]]) == map[a.statusCode := Response(a)];
    assert Merge([[a], [b]]) == map[a.statusCode := Response(a), b.statusCode := Response(b)];
    assert Merge(runs) == Merge(runs[..2])[c.statusCode := Response(c)];
  }

  /** The combined content has, per content type, exactly the class names of the run with
      that content type as its example keys, each holding `{"value": example()}` of the last
      such class. */
  lemma {:induction false} RunContentKeys(errs: seq<ExceptionClass>)
    ensures forall ct :: ct in RunContent(errs) <==> exists i :: 0 <= i < |errs| && errs[i].contentType == ct
    ensures forall ct, n :: ct in RunContent(errs) && n in RunContent(errs)[ct] <==>
              exists i :: 0 <= i < |errs| && errs[i].contentType == ct && errs[i].name == n
    decreases |errs|
  {
    if errs != [] {
      var init := errs[..|errs| - 1];
      RunContentKeys(init);
      assert forall i :: 0 <= i < |init| ==> init[i] == errs[i];
    }
  }

  /** A run of several: the model is the Union of the run's models and every class of the
      run has an example entry under its content type. */
  lemma MultiRunEntry(errs: seq<ExceptionClass>)
    requires |errs| >= 2
    ensures EntryFor(errs).Dict? && EntryFor(errs).entries.Keys == {"model", "content"}
    ensures var m := EntryFor(errs).entries["model"];
            m.Model? && forall x :: x in m.names <==> exists i :: 0 <= i < |errs| && errs[i].model == x
    ensures forall i :: 0 <= i < |errs| ==>
              var content := EntryFor(errs).entries["content"];
              content.Dict? && errs[i].contentType in content.entries
              && content.entries[errs[i].contentType] == Dict(map["examples" := Dict(RunContent(errs)[errs[i].contentType])])
              && errs[i].name in RunContent(errs)[errs[i].contentType]
  {
    RunContentKeys(errs);
    var names := ModelsOf(errs);
    forall x ensures x in Dedup(names) <==> exists i :: 0 <= i < |errs| && errs[i].model == x {
      if x in names {
        var i :| 0 <= i < |names| && names[i] == x;
        assert errs[i].model == x;
      }
      if exists i :: 0 <= i < |errs| && errs[i].model == x {
        var i :| 0 <= i < |errs| && errs[i].model == x;
        assert names[i] == x;
      }
    }
  }
}
