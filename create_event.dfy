/** The event-ingestion endpoint: `CreateEventSchema`, the payload rules, and `POST`, which
    turns the request body into a 201, 400 or 500 response. */
module CreateEvent {
  import opened Wrappers

  /** A parsed JSON value. A JSON number is a finite real; an object maps each key to the
      value the parser kept for it. */
  datatype Json =
    | JNull
    | JBool(b: bool)
    | JNumber(n: real)
    | JString(s: string)
    | JArray(items: seq<Json>)
    | JObject(fields: map<string, Json>)

  /** The kinds of value the validation library names in its type-mismatch messages;
      `Undefined` stands for a missing key. */
  datatype Kind = Undefined | Null | Boolean | Number | String | Array | Object

  function KindOf(v: Option<Json>): Kind {
    match v
    case None => Undefined
    case Some(JNull) => Null
    case Some(JBool(_)) => Boolean
    case Some(JNumber(_)) => Number
    case Some(JString(_)) => String
    case Some(JArray(_)) => Array
    case Some(JObject(_)) => Object
  }

  /** The text of an issue: the schema's own message, or the library's default message for a
      value of the wrong kind, whose wording is not part of this model. */
  datatype Message = Custom(text: string) | TypeMismatch(expected: Kind, received: Kind)

  /** One validation issue: where in the payload it was found, and its message. */
  datatype Issue = Issue(path: seq<string>, message: Message)

  /** One entry of the object schema: a string of length at least 1, a number (with ""
      read as missing), or a string that may be absent. */
  datatype Rule =
    | MandatoryString(field: string, mandatory: string)
    | MandatoryNumber(field: string, mandatory: string)
    | OptionalString(field: string)

  /** `CreateEventSchema`, in declaration order (which is the order of its issues). */
  const Schema: seq<Rule> := [
    MandatoryString("process_id", "process_id is mandatory"),
    MandatoryString("key", "key is mandatory"),
    MandatoryString("status", "status is mandatory"),
    MandatoryString("message", "message is mandatory"),
    MandatoryNumber("type", "type is mandatory"),
    MandatoryNumber("sequence", "sequence is mandatory"),
    OptionalString("predecessor")
  ]

  function Lookup(fields: map<string, Json>, key: string): Option<Json> {
    if key in fields then Some(fields[key]) else None
  }

  /** The preprocessing step of the two numeric fields: an empty string counts as missing. */
  function BlankAsMissing(v: Option<Json>): Option<Json> {
    if v == Some(JString("")) then None else v
  }

  /** What the rule accepts, stated on the raw value. */
  predicate Satisfies(rule: Rule, v: Option<Json>) {
    match rule
    case MandatoryString(_, _) => v.Some? && v.value.JString? && v.value.s != ""
    case MandatoryNumber(_, _) => v.Some? && v.value.JNumber?
    case OptionalString(_) => v.None? || v.value.JString?
  }

  /** Checks one field as the library does: first the kind, then the minimum length.
      The numeric fields report their own message for every failure, since the schema
      gives it for the whole field; a string of the wrong kind gets the default message. */
  function Check(rule: Rule, v: Option<Json>): (r: Option<Issue>)
    ensures r.None? <==> Satisfies(rule, v)
    ensures r.Some? ==> r.value.path == [rule.field]
  {
    match rule
    case MandatoryString(field, mandatory) =>
      if v.Some? && v.value.JString? then
        if |v.value.s| >= 1 then None else Some(Issue([field], Custom(mandatory)))
      else Some(Issue([field], TypeMismatch(String, KindOf(v))))
    case MandatoryNumber(field, mandatory) =>
      var w := BlankAsMissing(v);
      if w.Some? && w.value.JNumber? then None else Some(Issue([field], Custom(mandatory)))
    case OptionalString(field) =>
      if v.None? || v.value.JString? then None else Some(Issue([field], TypeMismatch(String, KindOf(v))))
  }

  /** The issues of every rule, in rule order; keys the schema does not name are ignored. */
  function CheckAll(rules: seq<Rule>, fields: map<string, Json>): (issues: seq<Issue>)
    ensures |issues| <= |rules|
    ensures forall k :: 0 <= k < |issues| ==> |issues[k].path| == 1
  {
    if rules == [] then []
    else
      var issue := Check(rules[0], Lookup(fields, rules[0].field));
      (if issue.Some? then [issue.value] else []) + CheckAll(rules[1..], fields)
  }

  /** `CreateEventSchema.safeParse(body)`: the list of issues, empty when the body passes.
      A body that is not an object fails as a whole, with an empty path. */
  function Validate(body: Json): (issues: seq<Issue>)
    ensures !body.JObject? ==> |issues| == 1 && issues[0].path == []
    ensures body.JObject? ==> |issues| <= |Schema| && forall k :: 0 <= k < |issues| ==> |issues[k].path| == 1
  {
    if body.JObject? then CheckAll(Schema, body.fields)
    else [Issue([], TypeMismatch(Object, KindOf(Some(body))))]
  }

  /** The payload rules stated field by field: four non-empty strings, two numbers and an
      optional string. */
  predicate WellFormed(body: Json) {
    body.JObject? &&
    var f := body.fields;
    (forall k :: k in {"process_id", "key", "status", "message"} ==>
       k in f && f[k].JString? && f[k].s != "") &&
    "type" in f && f["type"].JNumber? &&
    "sequence" in f && f["sequence"].JNumber? &&
    ("predecessor" in f ==> f["predecessor"].JString?)
  }

  lemma {:induction false} CheckAllEmptyIff(rules: seq<Rule>, fields: map<string, Json>)
    ensures CheckAll(rules, fields) == [] <==>
            forall i :: 0 <= i < |rules| ==> Satisfies(rules[i], Lookup(fields, rules[i].field))
  {
    if rules != [] {
      CheckAllEmptyIff(rules[1..], fields);
      assert forall i :: 1 <= i < |rules| ==> rules[i] == rules[1..][i - 1];
    }
  }

  /** A payload passes the schema exactly when it meets the payload rules. */
  lemma {:induction false} ValidateEmptyIff(body: Json)
    ensures Validate(body) == [] <==> WellFormed(body)
  {
    if body.JObject? {
      var f := body.fields;
      CheckAllEmptyIff(Schema, f);
      if Validate(body) == [] {
        assert Satisfies(Schema[0], Lookup(f, "process_id"));
        assert Satisfies(Schema[1], Lookup(f, "key"));
        assert Satisfies(Schema[2], Lookup(f, "status"));
        assert Satisfies(Schema[3], Lookup(f, "message"));
        assert Satisfies(Schema[4], Lookup(f, "type"));
        assert Satisfies(Schema[5], Lookup(f, "sequence"));
        assert Satisfies(Schema[6], Lookup(f, "predecessor"));
      }
      if WellFormed(body) {
        assert "process_id" in {"process_id", "key", "status", "message"};
        assert "key" in {"process_id", "key", "status", "message"};
        assert "status" in {"process_id", "key", "status", "message"};
        assert "message" in {"process_id", "key", "status", "message"};
      }
    }
  }

  /** The key an issue is filed under: the first path segment, or the text "undefined"
      when the path is empty, as a JavaScript property key would read it. */
  function FieldKey(issue: Issue): string {
    if issue.path == [] then "undefined" else issue.path[0]
  }

  function FieldKeys(issues: seq<Issue>): set<string> {
    set i | 0 <= i < |issues| :: FieldKey(issues[i])
  }

  /** No later issue is filed under the same key as issue `i`. */
  predicate LastFor(issues: seq<Issue>, i: int)
    requires 0 <= i < |issues|
  {
    forall j :: i < j < |issues| ==> FieldKey(issues[j]) != FieldKey(issues[i])
  }

  /** The error map that `details` reports, defined from the back, keeping the first entry
      seen: an independent reference for the fold of the handler. */
  function ErrorMap(issues: seq<Issue>): map<string, Message> {
    if issues == [] then map[] else FileIfNew(issues[0], ErrorMap(issues[1..]))
  }

  /** Files an issue under its key unless a later issue already holds that key. */
  function FileIfNew(issue: Issue, later: map<string, Message>): (m: map<string, Message>)
    ensures m.Keys == later.Keys + {FieldKey(issue)}
    ensures FieldKey(issue) in later ==> m == later
  {
    var key := FieldKey(issue);
    if key in later then later else later[key := issue.message]
  }

  /** The error map holds one entry per key the issues are filed under, and no other. */
  lemma {:induction false} ErrorMapKeys(issues: seq<Issue>)
    ensures ErrorMap(issues).Keys == FieldKeys(issues)
    decreases |issues|
  {
    if issues != [] {
      ErrorMapKeys(issues[1..]);
      assert FieldKeys(issues) == {FieldKey(issues[0])} + FieldKeys(issues[1..]) by {
        assert forall i :: 1 <= i < |issues| ==> issues[i] == issues[1..][i - 1];
      }
    }
  }

  /** Each key holds the message of the last issue filed under it. */
  lemma {:induction false} ErrorMapLastWins(issues: seq<Issue>, i: int)
    requires 0 <= i < |issues| && LastFor(issues, i)
    ensures FieldKey(issues[i]) in ErrorMap(issues) && ErrorMap(issues)[FieldKey(issues[i])] == issues[i].message
    decreases |issues|
  {
    var key := FieldKey(issues[i]);
    var tail := issues[1..];
    if i == 0 {
      ErrorMapKeys(tail);
      assert key !in FieldKeys(tail) by {
        forall j | 0 <= j < |tail| ensures FieldKey(tail[j]) != key {
          assert tail[j] == issues[j + 1];
        }
      }
    } else {
      assert tail[i - 1] == issues[i];
      assert LastFor(tail, i - 1) by {
        forall j | i - 1 < j < |tail| ensures FieldKey(tail[j]) != key {
          assert tail[j] == issues[j + 1];
        }
      }
      ErrorMapLastWins(tail, i - 1);
    }
  }

  /** Filing one more issue overwrites its key's entry. */
  lemma {:induction false} ErrorMapSnoc(issues: seq<Issue>, issue: Issue)
    ensures ErrorMap(issues + [issue]) == ErrorMap(issues)[FieldKey(issue) := issue.message]
    decreases |issues|
  {
    var longer := issues + [issue];
    if issues == [] {
      assert longer == [issue] && longer[1..] == [];
    } else {
      assert longer[0] == issues[0] && longer[1..] == issues[1..] + [issue];
      ErrorMapSnoc(issues[1..], issue);
      FileIfNewUpdate(issues[0], ErrorMap(issues[1..]), FieldKey(issue), issue.message);
    }
  }

  /** Filing an earlier issue commutes with overwriting a key afterwards. */
  lemma {:induction false} FileIfNewUpdate(first: Issue, m: map<string, Message>, key: string, msg: Message)
    ensures FileIfNew(first, m[key := msg]) == FileIfNew(first, m)[key := msg]
  {
  }

  /** The `reduce` of the handler: walks the issues in order and writes each message under
      its key, so that a later issue overwrites an earlier one for the same field. */
  method FieldErrors(issues: seq<Issue>) returns (acc: map<string, Message>)
    ensures acc == ErrorMap(issues)
  {
    acc := map[];
    var i := 0;
    while i < |issues|
      invariant 0 <= i <= |issues|
      invariant acc == ErrorMap(issues[..i])
    {
      ErrorMapSnoc(issues[..i], issues[i]);
      assert issues[..i + 1] == issues[..i] + [issues[i]];
      acc := acc[FieldKey(issues[i]) := issues[i].message];
      i := i + 1;
    }
    assert issues[..i] == issues;
  }

  /** The fields named by rules that the payload breaks. */
  function FailingFields(rules: seq<Rule>, fields: map<string, Json>): set<string> {
    set i | 0 <= i < |rules| && !Satisfies(rules[i], Lookup(fields, rules[i].field)) :: rules[i].field
  }

  predicate DistinctFields(rules: seq<Rule>) {
    forall i, j :: 0 <= i < j < |rules| ==> rules[i].field != rules[j].field
  }

  /** The issues are filed exactly under the fields whose rule is broken. */
  lemma {:induction false} IssueKeysAreFailingFields(rules: seq<Rule>, fields: map<string, Json>)
    ensures FieldKeys(CheckAll(rules, fields)) == FailingFields(rules, fields)
    decreases |rules|
  {
    if rules != [] {
      var rest := rules[1..];
      var issue := Check(rules[0], Lookup(fields, rules[0].field));
      var head := if issue.Some? then [issue.value] else [];
      IssueKeysAreFailingFields(rest, fields);
      assert CheckAll(rules, fields) == head + CheckAll(rest, fields);
      FieldKeysAppend(head, CheckAll(rest, fields));
      assert FieldKeys(head) == if issue.Some? then {rules[0].field} else {} by {
        if issue.Some? {
          assert head[0] == issue.value && FieldKey(issue.value) == rules[0].field;
        }
      }
      FailingFieldsCons(rules, fields);
    }
  }

  lemma {:induction false} FieldKeysAppend(head: seq<Issue>, tail: seq<Issue>)
    ensures FieldKeys(head + tail) == FieldKeys(head) + FieldKeys(tail)
  {
    assert forall i :: 0 <= i < |head| ==> (head + tail)[i] == head[i];
    assert forall i :: 0 <= i < |tail| ==> (head + tail)[|head| + i] == tail[i];
  }

  lemma {:induction false} FailingFieldsCons(rules: seq<Rule>, fields: map<string, Json>)
    requires rules != []
    ensures FailingFields(rules, fields) ==
            (if Satisfies(rules[0], Lookup(fields, rules[0].field)) then {} else {rules[0].field}) +
            FailingFields(rules[1..], fields)
  {
    assert forall i :: 1 <= i < |rules| ==> rules[i] == rules[1..][i - 1];
  }

  /** With one rule per field, the entry of a field whose rule is broken is the message of
      that rule's own issue. */
  lemma {:induction false} ErrorMapOfCheckAll(rules: seq<Rule>, fields: map<string, Json>, i: int)
    requires DistinctFields(rules)
    requires 0 <= i < |rules| && !Satisfies(rules[i], Lookup(fields, rules[i].field))
    ensures rules[i].field in ErrorMap(CheckAll(rules, fields)) &&
            ErrorMap(CheckAll(rules, fields))[rules[i].field] == Check(rules[i], Lookup(fields, rules[i].field)).value.message
    decreases |rules|
  {
    var rest := rules[1..];
    var tail := CheckAll(rest, fields);
    var issue := Check(rules[0], Lookup(fields, rules[0].field));
    ErrorMapCons(issue, tail);
    assert CheckAll(rules, fields) == (if issue.Some? then [issue.value] else []) + tail;
    if i > 0 {
      assert rest[i - 1] == rules[i];
      assert DistinctFields(rest);
      ErrorMapOfCheckAll(rest, fields, i - 1);
    } else {
      FirstFieldNotInRest(rules, fields);
    }
  }

  /** With one rule per field, the later rules file nothing under the first rule's field. */
  lemma {:induction false} FirstFieldNotInRest(rules: seq<Rule>, fields: map<string, Json>)
    requires DistinctFields(rules) && rules != []
    ensures rules[0].field !in ErrorMap(CheckAll(rules[1..], fields))
  {
    var rest := rules[1..];
    IssueKeysAreFailingFields(rest, fields);
    ErrorMapKeys(CheckAll(rest, fields));
    forall j | 0 <= j < |rest| ensures rest[j].field != rules[0].field {
      assert rest[j] == rules[j + 1];
    }
  }

  /** The error map of a list with at most one more issue in front. */
  lemma {:induction false} ErrorMapCons(first: Option<Issue>, tail: seq<Issue>)
    ensures ErrorMap((if first.Some? then [first.value] else []) + tail) ==
            if first.Some? then FileIfNew(first.value, ErrorMap(tail)) else ErrorMap(tail)
  {
    var issues := (if first.Some? then [first.value] else []) + tail;
    if first.Some? {
      assert issues[0] == first.value && issues[1..] == tail;
    } else {
      assert issues == tail;
    }
  }

  /** On a rejected object, `details` names exactly the schema fields whose rule is broken. */
  lemma {:induction false} DetailsKeysOfObject(fields: map<string, Json>)
    ensures ErrorMap(Validate(JObject(fields))).Keys == FailingFields(Schema, fields)
  {
    IssueKeysAreFailingFields(Schema, fields);
    ErrorMapKeys(CheckAll(Schema, fields));
  }

  lemma {:induction false} SchemaFieldsDistinct()
    ensures DistinctFields(Schema)
  {
  }

  /** On a rejected object, the entry of a field whose rule is broken is the message of
      that field's own issue, whatever the other fields hold. */
  lemma {:induction false} DetailsOfBrokenField(fields: map<string, Json>, i: int)
    requires 0 <= i < |Schema| && !Satisfies(Schema[i], Lookup(fields, Schema[i].field))
    ensures var d := ErrorMap(Validate(JObject(fields)));
            Schema[i].field in d && d[Schema[i].field] == Check(Schema[i], Lookup(fields, Schema[i].field)).value.message
  {
    SchemaFieldsDistinct();
    ErrorMapOfCheckAll(Schema, fields, i);
  }

  /** A mandatory string that is present but empty is reported with the schema's own message. */
  lemma {:induction false} EmptyStringReported(fields: map<string, Json>, i: int)
    requires 0 <= i < |Schema| && Schema[i].MandatoryString?
    requires Lookup(fields, Schema[i].field) == Some(JString(""))
    ensures var d := ErrorMap(Validate(JObject(fields)));
            Schema[i].field in d && d[Schema[i].field] == Custom(Schema[i].mandatory)
  {
    DetailsOfBrokenField(fields, i);
  }

  /** A numeric field that is missing, empty or not a number is reported with the schema's
      own message. */
  lemma {:induction false} BadNumberReported(fields: map<string, Json>, i: int)
    requires 0 <= i < |Schema| && Schema[i].MandatoryNumber?
    requires !(Schema[i].field in fields && fields[Schema[i].field].JNumber?)
    ensures var d := ErrorMap(Validate(JObject(fields)));
            Schema[i].field in d && d[Schema[i].field] == Custom(Schema[i].mandatory)
  {
    DetailsOfBrokenField(fields, i);
  }

  lemma {:induction false} CheckAllSameChecks(rules: seq<Rule>, f: map<string, Json>, g: map<string, Json>)
    requires forall i :: 0 <= i < |rules| ==>
               Check(rules[i], Lookup(f, rules[i].field)) == Check(rules[i], Lookup(g, rules[i].field))
    ensures CheckAll(rules, f) == CheckAll(rules, g)
    decreases |rules|
  {
    if rules != [] {
      assert forall i :: 1 <= i < |rules| ==> rules[i] == rules[1..][i - 1];
      CheckAllSameChecks(rules[1..], f, g);
    }
  }

  /** An empty string in `type` or `sequence` is validated exactly as if the key were absent. */
  lemma {:induction false} BlankNumberIsMissing(fields: map<string, Json>, key: string)
    requires key in {"type", "sequence"}
    ensures Validate(JObject(fields[key := JString("")])) == Validate(JObject(fields - {key}))
  {
    CheckAllSameChecks(Schema, fields[key := JString("")], fields - {key});
  }

  /** Keys the schema does not name never change the validation outcome. */
  lemma {:induction false} UnknownKeyIgnored(fields: map<string, Json>, key: string, value: Json)
    requires forall i :: 0 <= i < |Schema| ==> Schema[i].field != key
    ensures Validate(JObject(fields[key := value])) == Validate(JObject(fields))
  {
    CheckAllSameChecks(Schema, fields[key := value], fields);
  }

  /** A body that is not a JSON object is reported under the single key "undefined". */
  lemma {:induction false} NonObjectReported(body: Json)
    requires !body.JObject?
    ensures ErrorMap(Validate(body)) == map["undefined" := TypeMismatch(Object, KindOf(Some(body)))]
  {
  }

  /** A response body: `{message}`, `{error}` or `{error, details}`. */
  datatype Body =
    | MessageBody(message: string)
    | ErrorBody(error: string)
    | DetailedErrorBody(error: string, details: map<string, Message>)

  datatype Response = Response(status: int, body: Body)

  /** `POST`: the body is `None` when reading it as JSON threw, which lands in the handler's
      catch-all. Nothing is stored. */
  method Post(body: Option<Json>) returns (response: Response)
    ensures response.status == 500 <==> body.None?
    ensures body.None? ==> response.body == ErrorBody("Internal Server Error")
    ensures response.status == 201 <==> body.Some? && WellFormed(body.value)
    ensures response.status == 201 ==> response.body == MessageBody("Event created")
    ensures response.status == 400 <==> body.Some? && !WellFormed(body.value)
    ensures response.status == 400 ==>
              response.body == DetailedErrorBody("Validation failed", ErrorMap(Validate(body.value)))
  {
    if body.None? {
      return Response(500, ErrorBody("Internal Server Error"));
    }
    var issues := Validate(body.value);
    ValidateEmptyIff(body.value);
    if issues != [] {
      var fieldErrors := FieldErrors(issues);
      return Response(400, DetailedErrorBody("Validation failed", fieldErrors));
    }
    return Response(201, MessageBody("Event created"));
  }
}
