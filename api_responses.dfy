/** `build_responses` (app/api/responses.py): the OpenAPI `responses` dictionary of a route,
    built in layers; the main status code first, then additional responses, then the error
    responses of the exceptions, then extra headers merged into existing entries. */
module ApiResponses {
  import opened Wrappers
  import opened ApiExceptions

  /** The entries after the three `update` steps. An empty or absent optional argument is
      falsy and skips its step; updating with an empty dictionary would change nothing. */
  function Layered(statusCode: int, docsModel: Value, exceptions: seq<ExceptionClass>,
                   additionalResponses: map<int, Value>): map<int, Value>
  {
    map[statusCode := Dict(map["model" := docsModel])] + additionalResponses + Merge(GroupBy(exceptions))
  }

  /** Each layer adds or replaces entries: exceptions win over additional responses, which
      win over the main entry; the main status code always has an entry. */
  lemma LayeredEntries(statusCode: int, docsModel: Value, exceptions: seq<ExceptionClass>,
                       additionalResponses: map<int, Value>)
    ensures var r := Layered(statusCode, docsModel, exceptions, additionalResponses);
            && r.Keys == {statusCode} + additionalResponses.Keys + Statuses(exceptions)
            && (forall s :: s in Merge(GroupBy(exceptions)) ==> r[s] == Merge(GroupBy(exceptions))[s])
            && (forall s :: s in additionalResponses && s !in Statuses(exceptions) ==> r[s] == additionalResponses[s])
            && (statusCode !in additionalResponses && statusCode !in Statuses(exceptions) ==>
                  r[statusCode] == Dict(map["model" := docsModel]))
  {
    ResponseKeys(exceptions);
  }

  /** A status whose entry, or whose existing "headers" entry, is not a dictionary: `.get`
      or the `**` unpacking raises. */
  datatype BuildError = NotADict(status: int)

  /** `responses[status]["headers"] = {**current_headers, **headers}` for one status. */
  function WithHeaders(status: int, entry: Value, headers: map<string, Value>): (r: Result<Value, BuildError>)
    ensures r.Success? <==> entry.Dict? && ("headers" in entry.entries ==> entry.entries["headers"].Dict?)
    ensures r.Success? ==> r.value.Dict? && r.value.entries.Keys == entry.entries.Keys + {"headers"}
    ensures r.Success? ==> forall k :: k in entry.entries && k != "headers" ==> r.value.entries[k] == entry.entries[k]
    ensures r.Failure? ==> r.error == NotADict(status)
  {
    if !entry.Dict? then Failure(NotADict(status))
    else
      var current := if "headers" in entry.entries then entry.entries["headers"] else Dict(map[]);
      if !current.Dict? then Failure(NotADict(status))
      else Success(Dict(entry.entries["headers" := Dict(current.entries + headers)]))
  }

  /** Merging the headers of every status that has an entry; statuses without one are skipped. */
  ghost predicate HeadersMerged(before: map<int, Value>, additionalHeaders: map<int, map<string, Value>>,
                                after: map<int, Value>)
  {
    && after.Keys == before.Keys
    && (forall s :: s in before && s !in additionalHeaders ==> after[s] == before[s])
    && (forall s :: s in before && s in additionalHeaders ==>
          WithHeaders(s, before[s], additionalHeaders[s]) == Success(after[s]))
  }

  /** Some status with an entry and extra headers cannot take them. */
  ghost predicate HeadersFail(before: map<int, Value>, additionalHeaders: map<int, map<string, Value>>)
  {
    exists s :: s in before && s in additionalHeaders && WithHeaders(s, before[s], additionalHeaders[s]).Failure?
  }

  /** `additional_headers.items()`: the dictionary as its (status, headers) pairs in
      insertion order; a dictionary has each status at most once. */
  predicate DistinctStatuses(pairs: seq<(int, map<string, Value>)>)
  {
    forall i, j :: 0 <= i < j < |pairs| ==> pairs[i].0 != pairs[j].0
  }

  /** The dictionary the pairs list. */
  function HeadersMap(pairs: seq<(int, map<string, Value>)>): (m: map<int, map<string, Value>>)
    ensures forall s :: s in m <==> exists i :: 0 <= i < |pairs| && pairs[i].0 == s
    decreases |pairs|
  {
    if pairs == [] then map[]
    else
      var init := pairs[..|pairs| - 1];
      assert forall i :: 0 <= i < |pairs| - 1 ==> pairs[i] == init[i];
      HeadersMap(init)[pairs[|pairs| - 1].0 := pairs[|pairs| - 1].1]
  }

  /** With distinct statuses every pair is found in the dictionary. */
  lemma {:induction false} HeadersMapLookup(pairs: seq<(int, map<string, Value>)>, i: int)
    requires DistinctStatuses(pairs)
    requires 0 <= i < |pairs|
    ensures HeadersMap(pairs)[pairs[i].0] == pairs[i].1
    decreases |pairs|
  {
    var init := pairs[..|pairs| - 1];
    if i < |pairs| - 1 {
      assert init[i] == pairs[i];
      assert DistinctStatuses(init) by {
        forall a, b | 0 <= a < b < |init| ensures init[a].0 != init[b].0 {
          assert init[a] == pairs[a] && init[b] == pairs[b];
        }
      }
      HeadersMapLookup(init, i);
    }
  }

  /** build_responses. */
  method BuildResponses(statusCode: int, docsModel: Value, exceptions: seq<ExceptionClass>,
                        additionalResponses: map<int, Value>,
                        additionalHeaders: seq<(int, map<string, Value>)>)
    returns (r: Result<map<int, Value>, BuildError>)
    requires DistinctStatuses(additionalHeaders)
    ensures var layered := Layered(statusCode, docsModel, exceptions, additionalResponses);
            var headers := HeadersMap(additionalHeaders);
            && (r.Success? <==> !HeadersFail(layered, headers))
            && (r.Success? ==> HeadersMerged(layered, headers, r.value))
            && (r.Failure? ==> r.error.status in layered && r.error.status in headers
                               && WithHeaders(r.error.status, layered[r.error.status],
                                              headers[r.error.status]).Failure?)
  {
    var responses := LayerResponses(statusCode, docsModel, exceptions, additionalResponses);
    r := AddHeaders(responses, additionalHeaders);
  }

  /** The first three steps. */
  method LayerResponses(statusCode: int, docsModel: Value, exceptions: seq<ExceptionClass>,
                        additionalResponses: map<int, Value>)
    returns (responses: map<int, Value>)
    ensures responses == Layered(statusCode, docsModel, exceptions, additionalResponses)
  {
    var main: map<int, Value> := map[statusCode := Dict(map["model" := docsModel])];
    responses := main;
    if |additionalResponses| > 0 {
      responses := responses + additionalResponses;
    } else {
      assert additionalResponses == map[];
      assert main + additionalResponses == main;
    }
    assert responses == main + additionalResponses;
    if |exceptions| > 0 {
      var fromExceptions := IncludeExceptionResponses(exceptions);
      responses := responses + fromExceptions;
    } else {
      assert exceptions == [];
      NoExceptionsNoResponses();
      assert responses + map[] == responses;
    }
  }

  /** The loop over `additional_headers`: the entries of the responses stay where they are,
      and each status that has an entry takes its extra headers; the first status, in
      dictionary order, that cannot take them stops the build. */
  method AddHeaders(layered: map<int, Value>, additionalHeaders: seq<(int, map<string, Value>)>)
    returns (r: Result<map<int, Value>, BuildError>)
    requires DistinctStatuses(additionalHeaders)
    ensures var headers := HeadersMap(additionalHeaders);
            && (r.Success? <==> !HeadersFail(layered, headers))
            && (r.Success? ==> HeadersMerged(layered, headers, r.value))
            && (r.Failure? ==> r.error.status in layered && r.error.status in headers
                               && WithHeaders(r.error.status, layered[r.error.status],
                                              headers[r.error.status]).Failure?)
  {
    var responses := layered;
    for k := 0 to |additionalHeaders|
      invariant responses.Keys == layered.Keys
      invariant HeadersMerged(layered, HeadersMap(additionalHeaders[..k]), responses)
    {
      var (status, headers) := additionalHeaders[k];
      HeadersStep(additionalHeaders, k);
      if status in responses {
        var merged := WithHeaders(status, responses[status], headers);
        if merged.Failure? {
          HeadersMapLookup(additionalHeaders, k);
          return Failure(merged.error);
        }
        responses := responses[status := merged.value];
      }
    }
    assert additionalHeaders[..|additionalHeaders|] == additionalHeaders;
    r := Success(responses);
    SuccessHasNoFailure(layered, HeadersMap(additionalHeaders), responses);
  }

  /** One more pair adds one status, one the earlier pairs do not have. */
  lemma HeadersStep(pairs: seq<(int, map<string, Value>)>, k: int)
    requires DistinctStatuses(pairs)
    requires 0 <= k < |pairs|
    ensures HeadersMap(pairs[..k + 1]) == HeadersMap(pairs[..k])[pairs[k].0 := pairs[k].1]
    ensures pairs[k].0 !in HeadersMap(pairs[..k])
  {
    assert pairs[..k + 1][..k] == pairs[..k];
  }

  /** Headers merged into every status means none of them failed. */
  lemma SuccessHasNoFailure(before: map<int, Value>, headers: map<int, map<string, Value>>, after: map<int, Value>)
    requires HeadersMerged(before, headers, after)
    ensures !HeadersFail(before, headers)
  {
  }

  // ---------------------------------------------------------------------------
  // Properties

  /** With no optional arguments the result is the main status with its model only. */
  lemma NoOptionalArguments(statusCode: int, docsModel: Value)
    ensures Layered(statusCode, docsModel, [], map[]) == map[statusCode := Dict(map["model" := docsModel])]
    ensures !HeadersFail(Layered(statusCode, docsModel, [], map[]), map[])
  {
    NoExceptionsNoResponses();
  }

  /** The main status code always has an entry, whatever the later layers add or replace. */
  lemma StatusCodeAlwaysPresent(statusCode: int, docsModel: Value, exceptions: seq<ExceptionClass>,
                                additionalResponses: map<int, Value>,
                                additionalHeaders: map<int, map<string, Value>>, after: map<int, Value>)
    requires HeadersMerged(Layered(statusCode, docsModel, exceptions, additionalResponses), additionalHeaders, after)
    ensures statusCode in after
  {
  }

  /** An exception's status replaces an additional response, the main entry included. */
  lemma ExceptionsOverride(statusCode: int, docsModel: Value, e: ExceptionClass,
                           additionalResponses: map<int, Value>)
    ensures Layered(statusCode, docsModel, [e], additionalResponses)[e.statusCode] == Response(e)
  {
    SingleException(e);
  }

  /** Headers for a status that has no entry are dropped. */
  lemma HeadersForMissingStatusIgnored(before: map<int, Value>, additionalHeaders: map<int, map<string, Value>>,
                                       after: map<int, Value>, s: int)
    requires HeadersMerged(before, additionalHeaders, after)
    requires s in additionalHeaders && s !in before
    ensures s !in after
  {
  }

  /** The header merge keeps the existing header names and lets the new ones win. */
  lemma HeaderMerge(before: map<int, Value>, additionalHeaders: map<int, map<string, Value>>,
                    after: map<int, Value>, s: int)
    requires HeadersMerged(before, additionalHeaders, after)
    requires s in before && s in additionalHeaders
    ensures var current := if "headers" in before[s].entries then before[s].entries["headers"] else Dict(map[]);
            && after[s].Dict? && "headers" in after[s].entries
            && after[s].entries["headers"] == Dict(current.entries + additionalHeaders[s])
            && (forall n :: n in current.entries && n !in additionalHeaders[s] ==>
                  after[s].entries["headers"].entries[n] == current.entries[n])
            && (forall n :: n in additionalHeaders[s] ==>
                  after[s].entries["headers"].entries[n] == additionalHeaders[s][n])
  {
  }
}
