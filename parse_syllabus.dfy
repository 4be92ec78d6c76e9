/** The server action that turns pasted syllabus text into a validated list of
    events through a language model: input guard, configuration guard, one
    model call, JSON extraction, parsing and schema validation. The model
    call is a reply handed in by the caller and `JSON.parse` a function
    parameter. */
module ParseSyllabus {
  import opened Common
  import opened Text
  import opened GoogleCalendar

  // ---------------------------------------------------------------------
  // JSON extraction

  /** `extractJson`: from the first `{` to the last `}` inclusive when there
      is a `}` after the first `{`; otherwise the input unchanged. */
  function ExtractJson(content: string): (r: string)
    ensures |r| <= |content|
  {
    var first := IndexOf(content, '{');
    var last := LastIndexOf(content, '}');
    if first >= 0 && last >= 0 && last > first then content[first..last + 1] else content
  }

  /** Whether `extractJson` cuts the input down. */
  predicate HasBraces(content: string) {
    var first := IndexOf(content, '{');
    var last := LastIndexOf(content, '}');
    first >= 0 && last > first
  }

  /** In the slicing case the result starts with `{`, ends with `}`, sits in
      the input at the first `{`, and nothing before it is a `{` and nothing
      after it a `}`. */
  lemma ExtractJsonSlice(content: string)
    requires HasBraces(content)
    ensures var r := ExtractJson(content); var first := IndexOf(content, '{');
      && |r| >= 2 && r[0] == '{' && r[|r| - 1] == '}'
      && OccursAt(content, r, first)
      && '{' !in content[..first]
      && '}' !in content[first + |r|..]
  {
  }

  /** Without a `{` followed later by a `}`, the input is returned as is. */
  lemma ExtractJsonNoBraces(content: string)
    requires !HasBraces(content)
    ensures ExtractJson(content) == content
  {
  }

  /** Extracting twice gives what extracting once gives. */
  lemma ExtractJsonIdempotent(content: string)
    ensures ExtractJson(ExtractJson(content)) == ExtractJson(content)
  {
    var r := ExtractJson(content);
    if HasBraces(content) {
      ExtractJsonSlice(content);
      assert IndexOf(r, '{') == 0;
      assert LastIndexOf(r, '}') == |r| - 1;
      assert r[0..|r|] == r;
    }
  }

  // ---------------------------------------------------------------------
  // Schema

  /** A JSON value as `JSON.parse` yields it; object members in source order. */
  datatype Json =
    | JNull
    | JBool(b: bool)
    | JNumber(n: real)
    | JString(s: string)
    | JArray(items: seq<Json>)
    | JObject(members: seq<(string, Json)>)

  /** The value of a member; with a repeated key the last one counts, as in
      `JSON.parse`. */
  function Member(members: seq<(string, Json)>, key: string): Option<Json> {
    if |members| == 0 then None
    else if members[|members| - 1].0 == key then Some(members[|members| - 1].1)
    else Member(members[..|members| - 1], key)
  }

  function Field(j: Json, key: string): Option<Json> {
    if j.JObject? then Member(j.members, key) else None
  }

  /** `z.string().min(1)`. */
  function NonEmptyString(v: Option<Json>): Option<string> {
    match v
    case Some(JString(s)) => if |s| >= 1 then Some(s) else None
    case _ => None
  }

  /** `z.number().int().nonnegative()`. */
  function Count(v: Option<Json>): Option<int> {
    match v
    case Some(JNumber(n)) => if n >= 0.0 && n == n.Floor as real then Some(n.Floor) else None
    case _ => None
  }

  predicate IsSyllabusKind(s: string) {
    s == "quiz" || s == "assignment" || s == "exam"
  }

  /** `ParsedEventSchema`: title and date non-empty strings, type one of the
      three categories, description a string that defaults to `""` when the
      member is missing. Other members are dropped. */
  function ValidateEvent(j: Json): (r: Option<ParsedEvent>)
    ensures r.Some? ==> |r.value.title| >= 1 && |r.value.date| >= 1 && IsSyllabusKind(r.value.kind)
  {
    if !j.JObject? then None
    else
      var title := NonEmptyString(Field(j, "title"));
      var kind := Field(j, "type");
      var date := NonEmptyString(Field(j, "date"));
      var description := Field(j, "description");
      if title.None? || date.None? then None
      else if !(kind.Some? && kind.value.JString? && IsSyllabusKind(kind.value.s)) then None
      else if description.Some? && !description.value.JString? then None
      else
        var d := if description.None? then "" else description.value.s;
        Some(ParsedEvent(title.value, kind.value.s, date.value, d))
  }

  /** The three counts of the `summary` object. */
  datatype Counts = Counts(quizzes: int, assignments: int, exams: int)

  /** `ParsedSyllabus`. */
  datatype ParsedSyllabus = ParsedSyllabus(summary: Counts, events: seq<ParsedEvent>)

  function ValidateEvents(items: seq<Json>): (r: Option<seq<ParsedEvent>>)
    ensures r.Some? ==> |r.value| == |items|
  {
    if |items| == 0 then Some([])
    else
      match (ValidateEvent(items[0]), ValidateEvents(items[1..]))
      case (Some(e), Some(rest)) => Some([e] + rest)
      case _ => None
  }

  /** `ParsedSyllabusSchema`. */
  function ValidateSyllabus(j: Json): Option<ParsedSyllabus> {
    var summary := Field(j, "summary");
    var events := Field(j, "events");
    if !(summary.Some? && summary.value.JObject?) then None
    else
      var q := Count(Field(summary.value, "quizzes"));
      var a := Count(Field(summary.value, "assignments"));
      var e := Count(Field(summary.value, "exams"));
      if q.None? || a.None? || e.None? then None
      else if !(events.Some? && events.value.JArray?) then None
      else
        match ValidateEvents(events.value.items)
        case None => None
        case Some(evs) => Some(ParsedSyllabus(Counts(q.value, a.value, e.value), evs))
  }

  /** An event accepted by the schema. */
  predicate GoodEvent(e: ParsedEvent) {
    |e.title| >= 1 && |e.date| >= 1 && IsSyllabusKind(e.kind)
  }

  /** A syllabus accepted by the schema. */
  predicate GoodSyllabus(p: ParsedSyllabus) {
    && p.summary.quizzes >= 0 && p.summary.assignments >= 0 && p.summary.exams >= 0
    && forall i :: 0 <= i < |p.events| ==> GoodEvent(p.events[i])
  }

  /** Every event in a validated syllabus meets the event schema, and every
      count is a non-negative integer. */
  lemma {:induction false} ValidateEventsGood(items: seq<Json>)
    ensures var r := ValidateEvents(items);
      r.Some? ==> forall i :: 0 <= i < |r.value| ==> GoodEvent(r.value[i]) && ValidateEvent(items[i]) == Some(r.value[i])
  {
    if |items| > 0 {
      ValidateEventsGood(items[1..]);
    }
  }

  lemma ValidateSyllabusGood(j: Json)
    ensures var r := ValidateSyllabus(j); r.Some? ==> GoodSyllabus(r.value)
  {
    var events := Field(j, "events");
    if events.Some? && events.value.JArray? {
      ValidateEventsGood(events.value.items);
    }
  }

  /** The JSON form of an event, as the model is asked to write it. */
  function EventJson(e: ParsedEvent): Json {
    JObject([("title", JString(e.title)), ("type", JString(e.kind)), ("date", JString(e.date)), ("description", JString(e.description))])
  }

  function SyllabusJson(p: ParsedSyllabus): Json {
    JObject([
      ("summary", JObject([
        ("quizzes", JNumber(p.summary.quizzes as real)),
        ("assignments", JNumber(p.summary.assignments as real)),
        ("exams", JNumber(p.summary.exams as real))])),
      ("events", JArray(EventsJson(p.events)))])
  }

  function EventsJson(events: seq<ParsedEvent>): (r: seq<Json>)
    ensures |r| == |events|
  {
    if |events| == 0 then [] else [EventJson(events[0])] + EventsJson(events[1..])
  }

  lemma {:induction false} MemberUnique(members: seq<(string, Json)>, i: nat, key: string)
    requires i < |members| && members[i].0 == key
    requires forall j :: i < j < |members| ==> members[j].0 != key
    ensures Member(members, key) == Some(members[i].1)
    decreases |members|
  {
    if i < |members| - 1 {
      MemberUnique(members[..|members| - 1], i, key);
    }
  }

  lemma {:induction false} MemberMissing(members: seq<(string, Json)>, key: string)
    requires forall j :: 0 <= j < |members| ==> members[j].0 != key
    ensures Member(members, key) == None
    decreases |members|
  {
    if |members| > 0 {
      MemberMissing(members[..|members| - 1], key);
    }
  }

  /** The schema accepts every well-formed event and gives it back unchanged. */
  lemma ValidateEventJson(e: ParsedEvent)
    requires GoodEvent(e)
    ensures ValidateEvent(EventJson(e)) == Some(e)
  {
    var m := EventJson(e).members;
    assert "type"[0] != "date"[0];
    MemberUnique(m, 0, "title");
    MemberUnique(m, 1, "type");
    MemberUnique(m, 2, "date");
    MemberUnique(m, 3, "description");
  }

  /** A missing description defaults to `""`; a present one that is not a
      string is rejected. */
  lemma DescriptionDefault(title: string, kind: string, date: string, description: Option<Json>)
    requires |title| >= 1 && |date| >= 1 && IsSyllabusKind(kind)
    ensures var j := JObject([("title", JString(title)), ("type", JString(kind)), ("date", JString(date))]
        + (if description.Some? then [("description", description.value)] else []));
      && (description.None? ==> ValidateEvent(j) == Some(ParsedEvent(title, kind, date, "")))
      && (description.Some? && !description.value.JString? ==> ValidateEvent(j) == None)
  {
    var m := [("title", JString(title)), ("type", JString(kind)), ("date", JString(date))]
      + (if description.Some? then [("description", description.value)] else []);
    assert "type"[0] != "date"[0];
    MemberUnique(m, 0, "title");
    MemberUnique(m, 1, "type");
    MemberUnique(m, 2, "date");
    if description.Some? {
      MemberUnique(m, 3, "description");
    } else {
      MemberMissing(m, "description");
    }
  }

  lemma {:induction false} ValidateEventsJson(events: seq<ParsedEvent>)
    requires forall i :: 0 <= i < |events| ==> GoodEvent(events[i])
    ensures ValidateEvents(EventsJson(events)) == Some(events)
  {
    var items := EventsJson(events);
    if |events| > 0 {
      ValidateEventJson(events[0]);
      assert items[1..] == EventsJson(events[1..]);
      ValidateEventsJson(events[1..]);
      assert [events[0]] + events[1..] == events;
    }
  }

  /** A well-formed syllabus written as JSON validates to itself. */
  lemma ValidateSyllabusJson(p: ParsedSyllabus)
    requires GoodSyllabus(p)
    ensures ValidateSyllabus(SyllabusJson(p)) == Some(p)
  {
    ValidateEventsJson(p.events);
    var j := SyllabusJson(p);
    var top := j.members;
    MemberUnique(top, 0, "summary");
    MemberUnique(top, 1, "events");
    var sm := top[0].1.members;
    MemberUnique(sm, 0, "quizzes");
    MemberUnique(sm, 1, "assignments");
    MemberUnique(sm, 2, "exams");
    var q := p.summary.quizzes as real;
    assert q.Floor == p.summary.quizzes;
    var a := p.summary.assignments as real;
    assert a.Floor == p.summary.assignments;
    var e := p.summary.exams as real;
    assert e.Floor == p.summary.exams;
  }

  // ---------------------------------------------------------------------
  // The action

  /** What reading the model's reply as JSON gives: it throws, or it yields
      the value of `choices?.[0]?.message?.content` (absent when any step of
      the chain is missing). A throw carries the parser's error message. */
  datatype ReplyBody = BodyNotJson(message: string) | BodyJson(content: Option<Json>)

  /** JavaScript truthiness of a parsed value (`undefined` is absent). */
  predicate JsonTruthy(v: Option<Json>) {
    match v
    case None => false
    case Some(JNull) => false
    case Some(JBool(b)) => b
    case Some(JNumber(n)) => n != 0.0
    case Some(JString(s)) => s != ""
    case Some(_) => true
  }

  /** The model call: the request rejects, or a response with its status,
      its body text (`""` when reading it fails) and its JSON body. */
  datatype LlmReply =
    | NetworkError(message: string)
    | Reply(status: int, text: string, body: ReplyBody)

  /** What the action resolves to; `ActionThrows` is a rejected promise. */
  datatype ActionResult =
    | ActionOk(data: ParsedSyllabus)
    | ActionError(error: string)
    | ActionThrows(message: string)

  /** `String(formData.get("syllabus") || "").trim()`. */
  function SyllabusText(field: Option<string>): string {
    Trim(field.GetOr(""))
  }

  /** Whether the action goes as far as calling the model. */
  predicate CallsModel(field: Option<string>, apiKey: Option<string>) {
    SyllabusText(field) != "" && Truthy(apiKey)
  }

  /** `parseSyllabusAction`. */
  function Action(field: Option<string>, apiKey: Option<string>, reply: LlmReply, parseJson: string -> Option<Json>): (r: ActionResult)
    ensures r.ActionOk? ==> GoodSyllabus(r.data)
  {
    var syllabusText := SyllabusText(field);
    if syllabusText == "" then ActionError("Paste your syllabus first.")
    else if !Truthy(apiKey) then ActionError("Missing OPENAI_API_KEY on the server.")
    else
      match reply
      case NetworkError(m) => ActionThrows(m)
      case Reply(status, text, body) =>
        if !(200 <= status <= 299) then ActionError("LLM request failed (" + IntToString(status) + "). " + text)
        else
          match body
          case BodyNotJson(m) => ActionThrows(m)
          case BodyJson(content) =>
            if !JsonTruthy(content) then ActionError("LLM returned empty output.")
            else
              // On a value that is not a string `extractJson` calls an
              // `indexOf` that does not exist; the TypeError is caught with
              // the parse errors.
              if !content.value.JString? then ActionError("LLM returned invalid JSON.")
              else
                match parseJson(ExtractJson(content.value.s))
                case None => ActionError("LLM returned invalid JSON.")
                case Some(parsed) =>
                  ValidateSyllabusGood(parsed);
                  match ValidateSyllabus(parsed)
                  case None => ActionError("Parsed JSON did not match schema.")
                  case Some(data) => ActionOk(data)
  }

  /** The content of an ok reply: a falsy value is empty output, a truthy
      value that is not a string is invalid JSON, and a non-empty string is
      extracted and parsed. */
  lemma ContentCases(field: Option<string>, apiKey: Option<string>, status: int, text: string, content: Option<Json>,
                     parseJson: string -> Option<Json>)
    requires CallsModel(field, apiKey) && 200 <= status <= 299
    ensures var r := Action(field, apiKey, Reply(status, text, BodyJson(content)), parseJson);
      && (!JsonTruthy(content) ==> r == ActionError("LLM returned empty output."))
      && (JsonTruthy(content) && !content.value.JString? ==> r == ActionError("LLM returned invalid JSON."))
      && (JsonTruthy(content) && content.value.JString? && parseJson(ExtractJson(content.value.s)).None? ==>
            r == ActionError("LLM returned invalid JSON."))
  {
  }

  /** Empty or blank input is answered before the key is looked at or the
      model called: the result does not depend on key, reply or parser. */
  lemma BlankInputShortCircuits(field: Option<string>, apiKey: Option<string>, reply: LlmReply, parseJson: string -> Option<Json>)
    requires IsBlank(field.GetOr(""))
    ensures Action(field, apiKey, reply, parseJson) == ActionError("Paste your syllabus first.")
  {
  }

  /** When the model is not called the reply has no effect. */
  lemma NoCallNoReply(field: Option<string>, apiKey: Option<string>, r1: LlmReply, r2: LlmReply, p1: string -> Option<Json>, p2: string -> Option<Json>)
    requires !CallsModel(field, apiKey)
    ensures Action(field, apiKey, r1, p1) == Action(field, apiKey, r2, p2)
    ensures Action(field, apiKey, r1, p1).ActionError?
  {
  }

  /** A success carries exactly what the schema made of the parsed slice of
      the content, and only an ok reply with non-empty content gets there. */
  lemma ActionOkMeansValidated(field: Option<string>, apiKey: Option<string>, reply: LlmReply, parseJson: string -> Option<Json>)
    requires Action(field, apiKey, reply, parseJson).ActionOk?
    ensures CallsModel(field, apiKey)
    ensures reply.Reply? && 200 <= reply.status <= 299 && reply.body.BodyJson?
    ensures reply.body.content.Some? && reply.body.content.value.JString? && reply.body.content.value.s != ""
    ensures var parsed := parseJson(ExtractJson(reply.body.content.value.s));
      parsed.Some? && ValidateSyllabus(parsed.value) == Some(Action(field, apiKey, reply, parseJson).data)
  {
  }

  /** A model reply holding a well-formed syllabus, wrapped in any text
      without braces and parsed faithfully, is accepted as that syllabus. */
  lemma ActionAcceptsWellFormedReply(field: Option<string>, apiKey: Option<string>, status: int, text: string, content: string,
                                     parseJson: string -> Option<Json>, p: ParsedSyllabus)
    requires CallsModel(field, apiKey) && 200 <= status <= 299 && content != ""
    requires GoodSyllabus(p) && parseJson(ExtractJson(content)) == Some(SyllabusJson(p))
    ensures Action(field, apiKey, Reply(status, text, BodyJson(Some(JString(content)))), parseJson) == ActionOk(p)
  {
    ValidateSyllabusJson(p);
  }
}
