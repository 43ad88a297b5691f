/** The request and response shaping of the Cloudflare server: how a reply
    envelope becomes a result or an error message, how the tools wrap what
    they return, how the DNS record bodies and the list endpoints are
    built, and how listed zones and records are projected. The HTTP
    exchange itself is a parameter: a reply comes in as its parsed JSON
    body (and, for raw replies, its content type and text). */
module Cloudflare {
  import opened Wrappers
  import opened Strings
  import opened Json

  // ---------------------------------------------------------------------
  // The reply envelope: cf and cfText

  const ApiPrefix := "Cloudflare API: "
  const UnknownError := "Unknown error"

  /** What reading `data.success` raises when the body is JSON `null`. */
  const NullBodyError := "Cannot read properties of null (reading 'success')"

  /** `data.errors?.[0]?.message`. */
  function FirstMessage(data: Value): Option<Value>
    requires !data.Null?
  {
    OptionalProperty(OptionalProperty(Property(data, "errors"), "0"), "message")
  }

  /** `data.errors?.[0]?.message || JSON.stringify(data.errors) || 'Unknown error'`:
      `JSON.stringify` of a present value is never empty, and of an absent
      one is `undefined`. */
  function FailureMessage(data: Value): string
    requires !data.Null?
  {
    var first := FirstMessage(data);
    var errors := Property(data, "errors");
    if JsTruthy(first) then JsString(first.value)
    else if errors.Some? then Stringify(errors.value)
    else UnknownError
  }

  /** The check `cf` and `cfText` make on a parsed reply: `data.result`
      (possibly undefined) when `data.success` is truthy, else the error
      they throw. */
  function Envelope(data: Value): Result<Option<Value>, string> {
    if data.Null? then Err(NullBodyError)
    else if !JsTruthy(Property(data, "success")) then Err(ApiPrefix + FailureMessage(data))
    else Ok(Property(data, "result"))
  }

  /** An object reply succeeds exactly when its `success` is truthy, and
      then yields its `result`; otherwise the message carries the prefix. */
  lemma EnvelopeOutcome(data: Value)
    requires data.Obj?
    ensures Envelope(data).Ok? <==> JsTruthy(Property(data, "success"))
    ensures Envelope(data).Ok? ==> Envelope(data).value == Property(data, "result")
    ensures Envelope(data).Err? ==> StartsWith(Envelope(data).error, ApiPrefix)
  {
  }

  /** `"0"` names the first element of an array. */
  lemma FirstIndex(items: seq<Value>)
    ensures Property(Arr(items), "0") == if items == [] then None else Some(items[0])
  {
    assert Digits(0) == "0";
    assert IsIndex("0");
    assert DigitsValue("0") == 0;
  }

  /** The usual failure: the first error's non-empty message is reported. */
  lemma EnvelopeFirstError(data: Value, es: seq<Value>, m: string)
    requires data.Obj? && !JsTruthy(Property(data, "success"))
    requires Property(data, "errors") == Some(Arr(es))
    requires es != [] && es[0].Obj? && Property(es[0], "message") == Some(Str(m)) && m != ""
    ensures Envelope(data) == Err(ApiPrefix + m)
  {
    FirstIndex(es);
  }

  /** A failure with an empty error list reports the list's JSON text. */
  lemma EnvelopeEmptyErrors(data: Value)
    requires data.Obj? && !JsTruthy(Property(data, "success"))
    requires Property(data, "errors") == Some(Arr([]))
    ensures Envelope(data) == Err(ApiPrefix + "[]")
  {
    FirstIndex([]);
    EmptyListText();
  }

  /** A failure whose error list has no truthy first message reports the
      list's JSON text: `JSON.stringify(data.errors)` is never empty, so the
      'Unknown error' fallback is not reached while the list is present. */
  lemma EnvelopeListFallback(data: Value, es: seq<Value>)
    requires data.Obj? && !JsTruthy(Property(data, "success"))
    requires Property(data, "errors") == Some(Arr(es))
    requires es == [] || !JsTruthy(OptionalProperty(Some(es[0]), "message"))
    ensures Envelope(data) == Err(ApiPrefix + Stringify(Arr(es)))
  {
    FirstIndex(es);
  }

  lemma EmptyListText()
    ensures Stringify(Arr([])) == "[]"
  {
    assert StringifyItems(Arr([]), []) == "";
  }

  /** A failure without an error list reports 'Unknown error'. */
  lemma EnvelopeNoErrors(data: Value)
    requires data.Obj? && !JsTruthy(Property(data, "success"))
    requires Property(data, "errors").None?
    ensures Envelope(data) == Err(ApiPrefix + UnknownError)
  {
  }

  // ---------------------------------------------------------------------
  // Raw replies: cfRaw

  const JsonType := "application/json"

  /** What `cfRaw` returns: the body text, or the `result` of a JSON reply. */
  datatype RawBody = Text(text: string) | Parsed(result: Option<Value>)

  /** `cfRaw` on a reply with content-type header `header`, body text `text`
      and, when that text is JSON, its parsed value `data`. Only an explicit
      `success: false` fails, and without the list fallback. */
  function Raw(header: Option<string>, text: string, data: Value): Result<RawBody, string> {
    var contentType := if header.Some? then header.value else "";
    if !Contains(contentType, JsonType) then Ok(Text(text))
    else if data.Null? then Err(NullBodyError)
    else if Property(data, "success") == Some(Bool(false)) then
      var first := FirstMessage(data);
      Err(ApiPrefix + if JsTruthy(first) then JsString(first.value) else UnknownError)
    else Ok(Parsed(Property(data, "result")))
  }

  /** A reply that is not JSON is returned as its text, whatever it says. */
  lemma RawText(header: Option<string>, text: string, data: Value)
    requires header.None? || !Contains(header.value, JsonType)
    ensures Raw(header, text, data) == Ok(Text(text))
  {
  }

  /** On a JSON object reply `cfRaw` fails exactly when `success` is
      literally `false`; so it accepts whatever the envelope check accepts,
      with the same result, and fails only where the envelope check fails. */
  lemma RawLenient(contentType: string, text: string, data: Value)
    requires Contains(contentType, JsonType) && data.Obj?
    ensures Raw(Some(contentType), text, data).Err? <==> Property(data, "success") == Some(Bool(false))
    ensures Envelope(data).Ok? ==> Raw(Some(contentType), text, data) == Ok(Parsed(Envelope(data).value))
    ensures Raw(Some(contentType), text, data).Err? ==> Envelope(data).Err?
  {
  }

  /** Where the two differ: a missing `success` is a failure for `cf` and a
      result for `cfRaw`, and an empty error list is reported as `[]` by `cf`
      and as 'Unknown error' by `cfRaw`. */
  lemma RawDiffers(contentType: string, text: string, data: Value)
    requires Contains(contentType, JsonType) && data.Obj?
    ensures Property(data, "success").None? ==>
              Envelope(data).Err? && Raw(Some(contentType), text, data) == Ok(Parsed(Property(data, "result")))
    ensures Property(data, "success") == Some(Bool(false)) && Property(data, "errors") == Some(Arr([])) ==>
              Envelope(data) == Err(ApiPrefix + "[]")
              && Raw(Some(contentType), text, data) == Err(ApiPrefix + UnknownError)
  {
    FirstIndex([]);
    EmptyListText();
  }

  // ---------------------------------------------------------------------
  // Tool results: success and error

  /** What a tool returns: its text items (each `{type: 'text', text}`). */
  datatype ToolResult = ToolResult(texts: seq<string>)

  /** `success(data)`: a string as it is, anything else as its JSON text. */
  function Success(data: Value): ToolResult {
    ToolResult([if data.Str? then data.s else Stringify(data)])
  }

  /** `error(message)`: the JSON text of `{error: message}`. */
  function Error(message: string): ToolResult {
    ToolResult([Stringify(Obj([Member("error", Str(message))]))])
  }

  /** `{"error":"`, the text before the escaped message. */
  const ErrorOpen := "{" + (Quote("error") + ":" + "\"")

  /** An error result is one text item that reads back as the message. */
  lemma ErrorReadsBack(message: string)
    ensures |Error(message).texts| == 1
    ensures var t := Error(message).texts[0];
            |t| >= |ErrorOpen| + 2
            && t[..|ErrorOpen|] == ErrorOpen
            && t[|t| - 2..] == "\"}"
            && Unescape(t[|ErrorOpen|..|t| - 2]) == Some(message)
  {
    var t := Error(message).texts[0];
    assert t == ErrorOpen + Escape(message) + "\"}" by {
      ErrorText(message);
    }
    assert t[|ErrorOpen|..|t| - 2] == Escape(message);
    UnescapeEscape(message);
  }

  /** A string without quotes, backslashes or control characters is its
      own escape. */
  lemma {:induction false} EscapePlain(s: string)
    requires forall i :: 0 <= i < |s| ==> s[i] >= ' ' && s[i] != '"' && s[i] != '\\'
    ensures Escape(s) == s
    decreases |s|
  {
    if s != [] {
      EscapePlain(s[1..]);
      assert [s[0]] + s[1..] == s;
    }
  }

  lemma ErrorText(message: string)
    ensures Error(message).texts[0] == ErrorOpen + Escape(message) + "\"}"
  {
    var e := "error";
    EscapePlain(e);
    var q := Quote(e);
    var m := Escape(message);
    var v := Obj([Member(e, Str(message))]);
    var piece := q + ":" + ("\"" + m + "\"");
    assert StringifyMembers(v, v.members) == piece;
    assert Stringify(v) == "{" + piece + "}";
    var open := (q + ":") + "\"";
    assert piece == open + m + "\"" by {
      Regroup(q + ":", "\"", m, "\"");
    }
    assert "{" + piece + "}" == ("{" + open) + m + ("\"" + "}") by {
      Regroup("{", open, m, "\"");
      Regroup2("{" + open, m, "\"", "}");
    }
  }

  lemma Regroup(a: string, b: string, c: string, d: string)
    ensures a + (b + c + d) == a + b + c + d
  {
  }

  lemma Regroup2(a: string, b: string, c: string, d: string)
    ensures a + b + c + d == a + b + (c + d)
  {
  }

  /** Different messages give different error results. */
  lemma ErrorInjective(m1: string, m2: string)
    requires Error(m1) == Error(m2)
    ensures m1 == m2
  {
    var t := Error(m1).texts[0];
    assert Unescape(t[|ErrorOpen|..|t| - 2]) == Some(m1) by {
      ErrorReadsBack(m1);
    }
    assert Unescape(t[|ErrorOpen|..|t| - 2]) == Some(m2) by {
      ErrorReadsBack(m2);
    }
  }

  /** A string is passed through unquoted, so a string result and a JSON
      result are the same tool result exactly when the string is that
      value's JSON text. */
  lemma SuccessCollides(s: string, v: Value)
    requires !v.Str?
    ensures Success(Str(s)) == Success(v) <==> s == Stringify(v)
  {
  }

  /** The text `[]` and an empty list give the same tool result. */
  lemma SuccessStringLikeList()
    ensures Success(Str("[]")) == Success(Arr([]))
  {
    SuccessCollides("[]", Arr([]));
    EmptyListText();
  }

  /** `error(m)` carries no failure flag: it is exactly `success({error: m})`. */
  lemma ErrorIsSuccessOfObject(message: string)
    ensures Error(message) == Success(Obj([Member("error", Str(message))]))
  {
  }

  // ---------------------------------------------------------------------
  // DNS record bodies

  datatype RecordType = A | AAAA | CNAME | TXT | MX | NS | SRV | CAA

  function TypeName(t: RecordType): string {
    match t
    case A => "A"
    case AAAA => "AAAA"
    case CNAME => "CNAME"
    case TXT => "TXT"
    case MX => "MX"
    case NS => "NS"
    case SRV => "SRV"
    case CAA => "CAA"
  }

  /** The types whose records can be proxied. */
  predicate Proxiable(t: RecordType) {
    t == A || t == AAAA || t == CNAME
  }

  /** The types whose records carry a priority. */
  predicate Prioritised(t: RecordType) {
    t == MX || t == SRV
  }

  /** A request body: a JavaScript object whose fields are assigned one by
      one (the order of its keys does not matter to the API). */
  type Body = map<string, Value>

  /** `{ type, name, content, ttl }`. */
  function BaseBody(t: RecordType, name: string, content: string, ttl: int): Body {
    map["type" := Str(TypeName(t)), "name" := Str(name), "content" := Str(content), "ttl" := Num(ttl)]
  }

  /** The body `dns-records-create` sends, built field by field: the base
      fields (TTL 1 by default), `proxied` (false by default) for exactly the
      proxiable types, and `priority` for MX and SRV when one is given. */
  method CreateBody(t: RecordType, name: string, content: string, ttl: Option<int>,
                    proxied: Option<bool>, priority: Option<int>) returns (body: Body)
    ensures body - {"proxied", "priority"} == BaseBody(t, name, content, if ttl.Some? then ttl.value else 1)
    ensures "proxied" in body <==> Proxiable(t)
    ensures "priority" in body <==> Prioritised(t) && priority.Some?
    ensures "proxied" in body ==> body["proxied"] == Bool(proxied.Some? && proxied.value)
    ensures "priority" in body ==> body["priority"] == Num(priority.value)
  {
    var ttlValue := if ttl.Some? then ttl.value else 1;
    var proxiedValue := proxied.Some? && proxied.value;
    body := BaseBody(t, name, content, ttlValue);
    ghost var optional := {"proxied", "priority"};
    assert body - optional == BaseBody(t, name, content, ttlValue);
    if Proxiable(t) {
      Unaffected(body, "proxied", Bool(proxiedValue), optional);
      body := body["proxied" := Bool(proxiedValue)];
    }
    if Prioritised(t) && priority.Some? {
      Unaffected(body, "priority", Num(priority.value), optional);
      body := body["priority" := Num(priority.value)];
    }
  }

  /** Assigning one of the fields set aside leaves the rest of the object. */
  lemma Unaffected(body: Body, key: string, v: Value, aside: set<string>)
    requires key in aside
    ensures body[key := v] - aside == body - aside
  {
  }

  /** The body `dns-records-update` sends: the base fields (TTL 1 by default)
      and `proxied` only when it is given and the type is proxiable; never a
      priority. */
  method UpdateBody(t: RecordType, name: string, content: string, ttl: Option<int>,
                    proxied: Option<bool>) returns (body: Body)
    ensures body - {"proxied"} == BaseBody(t, name, content, if ttl.Some? then ttl.value else 1)
    ensures "proxied" in body <==> proxied.Some? && Proxiable(t)
    ensures "proxied" in body ==> body["proxied"] == Bool(proxied.value)
    ensures "priority" !in body
  {
    var ttlValue := if ttl.Some? then ttl.value else 1;
    body := BaseBody(t, name, content, ttlValue);
    if proxied.Some? && Proxiable(t) {
      body := body["proxied" := Bool(proxied.value)];
    }
  }

  // ---------------------------------------------------------------------
  // List endpoints

  /** A request path and its query parameters, in order (URL encoding of
      the values is not modelled). */
  datatype Endpoint = Endpoint(path: string, query: seq<(string, string)>)

  /** `Math.min(per_page, 50)` with `per_page` defaulting to 20. */
  function ZonesPageSize(perPage: Option<int>): (n: int)
    ensures n <= 50
    ensures perPage.None? ==> n == 20
    ensures perPage.Some? && perPage.value <= 50 ==> n == perPage.value
    ensures perPage.Some? && perPage.value > 50 ==> n == 50
  {
    var p := if perPage.Some? then perPage.value else 20;
    if p < 50 then p else 50
  }

  /** `Math.min(per_page, 100)` with `per_page` defaulting to 100. */
  function RecordsPageSize(perPage: Option<int>): (n: int)
    ensures n <= 100
    ensures perPage.None? ==> n == 100
    ensures perPage.Some? && perPage.value <= 100 ==> n == perPage.value
    ensures perPage.Some? && perPage.value > 100 ==> n == 100
  {
    var p := if perPage.Some? then perPage.value else 100;
    if p < 100 then p else 100
  }

  /** An optional string argument that is present and non-empty (truthy). */
  predicate Given(s: Option<string>) {
    s.Some? && s.value != ""
  }

  /** The `zones-list` endpoint: the page (1 by default), the clamped page
      size, then the name filter only when one is given. */
  method ZonesEndpoint(name: Option<string>, page: Option<int>, perPage: Option<int>) returns (e: Endpoint)
    ensures e.path == "/zones"
    ensures |e.query| >= 2
    ensures e.query[0] == ("page", Decimal(if page.Some? then page.value else 1))
    ensures e.query[1] == ("per_page", Decimal(ZonesPageSize(perPage)))
    ensures e.query[2..] == if Given(name) then [("name", name.value)] else []
  {
    var p := if page.Some? then page.value else 1;
    e := Endpoint("/zones", [("page", Decimal(p)), ("per_page", Decimal(ZonesPageSize(perPage)))]);
    if Given(name) {
      e := e.(query := e.query + [("name", name.value)]);
    }
  }

  /** The `dns-records-list` endpoint: the page (1 by default), the clamped
      page size, then the type filter and the name filter, each only when
      given. */
  method RecordsEndpoint(zoneId: string, rtype: Option<RecordType>, name: Option<string>,
                         page: Option<int>, perPage: Option<int>) returns (e: Endpoint)
    ensures e.path == "/zones/" + zoneId + "/dns_records"
    ensures |e.query| >= 2
    ensures e.query[0] == ("page", Decimal(if page.Some? then page.value else 1))
    ensures e.query[1] == ("per_page", Decimal(RecordsPageSize(perPage)))
    ensures e.query[2..] == (if rtype.Some? then [("type", TypeName(rtype.value))] else [])
                            + (if Given(name) then [("name", name.value)] else [])
  {
    var p := if page.Some? then page.value else 1;
    e := Endpoint("/zones/" + zoneId + "/dns_records",
                  [("page", Decimal(p)), ("per_page", Decimal(RecordsPageSize(perPage)))]);
    if rtype.Some? {
      e := e.(query := e.query + [("type", TypeName(rtype.value))]);
    }
    if Given(name) {
      e := e.(query := e.query + [("name", name.value)]);
    }
  }

  // ---------------------------------------------------------------------
  // Projections of listed zones and records

  /** One output field: its key and the property path it reads, the first
      step plain and the later ones optional (`z.plan?.name`). */
  datatype FieldPath = FieldPath(key: string, first: string, rest: seq<string>)

  const ZoneFields := [FieldPath("id", "id", []), FieldPath("name", "name", []),
                       FieldPath("status", "status", []), FieldPath("paused", "paused", []),
                       FieldPath("nameServers", "name_servers", []), FieldPath("plan", "plan", ["name"])]

  const RecordFields := [FieldPath("id", "id", []), FieldPath("type", "type", []),
                         FieldPath("name", "name", []), FieldPath("content", "content", []),
                         FieldPath("ttl", "ttl", []), FieldPath("proxied", "proxied", []),
                         FieldPath("priority", "priority", [])]

  function Follow(v: Option<Value>, path: seq<string>): Option<Value>
    decreases |path|
  {
    if path == [] then v else Follow(OptionalProperty(v, path[0]), path[1..])
  }

  function Read(z: Value, f: FieldPath): Option<Value>
    requires !z.Null?
  {
    Follow(Property(z, f.first), f.rest)
  }

  /** The projected object as `JSON.stringify` writes it: a field whose
      value is undefined is left out. */
  function Project(z: Value, fields: seq<FieldPath>): seq<Member>
    requires !z.Null?
    decreases |fields|
  {
    if fields == [] then []
    else
      var v := Read(z, fields[0]);
      (if v.Some? then [Member(fields[0].key, v.value)] else []) + Project(z, fields[1..])
  }

  predicate DistinctKeys(fields: seq<FieldPath>) {
    forall i, j :: 0 <= i < j < |fields| ==> fields[i].key != fields[j].key
  }

  lemma DistinctTail(fields: seq<FieldPath>)
    requires fields != [] && DistinctKeys(fields)
    ensures DistinctKeys(fields[1..])
    ensures forall j :: 0 <= j < |fields| - 1 ==> fields[1..][j].key != fields[0].key
  {
    var tail := fields[1..];
    forall i, j | 0 <= i < j < |tail| ensures tail[i].key != tail[j].key {
      assert tail[i] == fields[i + 1] && tail[j] == fields[j + 1];
    }
    forall j | 0 <= j < |tail| ensures tail[j].key != fields[0].key {
      assert tail[j] == fields[j + 1];
    }
  }

  /** The projection carries no key but the fields'. */
  lemma {:induction false} ProjectKeys(z: Value, fields: seq<FieldPath>)
    requires !z.Null?
    ensures forall k :: k in Keys(Project(z, fields)) ==> exists i :: 0 <= i < |fields| && fields[i].key == k
    decreases |fields|
  {
    if fields != [] {
      var tail := fields[1..];
      ProjectKeys(z, tail);
      var head := if Read(z, fields[0]).Some? then [Member(fields[0].key, Read(z, fields[0]).value)] else [];
      assert Project(z, fields) == head + Project(z, tail);
      KeysAppend(head, Project(z, tail));
      forall k | k in Keys(Project(z, fields)) ensures exists i :: 0 <= i < |fields| && fields[i].key == k {
        if k in Keys(head) {
          assert fields[0].key == k;
        } else {
          var j :| 0 <= j < |tail| && tail[j].key == k;
          assert fields[j + 1].key == k;
        }
      }
    }
  }

  /** With distinct keys, each field's value is found under its key:
      absent exactly when the field reads as undefined. */
  lemma {:induction false} ProjectGet(z: Value, fields: seq<FieldPath>, i: nat)
    requires !z.Null? && DistinctKeys(fields) && i < |fields|
    ensures Get(Project(z, fields), fields[i].key) == Read(z, fields[i])
    decreases |fields|
  {
    var tail := fields[1..];
    DistinctTail(fields);
    var head := if Read(z, fields[0]).Some? then [Member(fields[0].key, Read(z, fields[0]).value)] else [];
    var rest := Project(z, tail);
    assert Project(z, fields) == head + rest;
    if i == 0 {
      if head == [] {
        assert head + rest == rest;
        ProjectKeys(z, tail);
        GetFound(rest, fields[0].key);
        assert fields[0].key !in Keys(rest);

      }
    } else {
      ProjectGet(z, tail, i - 1);
      GetAfterHead(head, rest, fields[i].key);
    }
  }

  /** A key the leading members do not carry is looked up behind them. */
  lemma {:induction false} GetAfterHead(head: seq<Member>, rest: seq<Member>, key: string)
    requires |head| <= 1 && (head != [] ==> head[0].key != key)
    ensures Get(head + rest, key) == Get(rest, key)
  {
    if head != [] {
      assert (head + rest)[1..] == rest;
    } else {
      assert head + rest == rest;
    }
  }

  /** What `items.map(…)` raises on a `null` element. */
  function NullItemError(fields: seq<FieldPath>): string
    requires fields != []
  {
    "Cannot read properties of null (reading '" + fields[0].first + "')"
  }

  /** `items.map(…)`: one projected object per item, or the error the
      first `null` item raises. */
  function ProjectAll(items: seq<Value>, fields: seq<FieldPath>): Result<seq<Value>, string>
    requires fields != []
    decreases |items|
  {
    if items == [] then Ok([])
    else if items[0].Null? then Err(NullItemError(fields))
    else
      match ProjectAll(items[1..], fields)
      case Err(e) => Err(e)
      case Ok(rest) => Ok([Obj(Project(items[0], fields))] + rest)
  }

  /** The map fails exactly when some item is `null`; otherwise it keeps the
      length and order, projecting each item in place. */
  lemma {:induction false} ProjectAllSpec(items: seq<Value>, fields: seq<FieldPath>)
    requires fields != []
    ensures ProjectAll(items, fields).Ok? <==> forall i :: 0 <= i < |items| ==> !items[i].Null?
    ensures ProjectAll(items, fields).Ok? ==>
              var vs := ProjectAll(items, fields).value;
              |vs| == |items| && forall i :: 0 <= i < |items| ==> !items[i].Null? && vs[i] == Obj(Project(items[i], fields))
    decreases |items|
  {
    if items != [] {
      ProjectAllSpec(items[1..], fields);
      if !items[0].Null? {
        assert forall i :: 0 < i < |items| ==> items[i] == items[1..][i - 1];
      }
    }
  }

  /** A listing tool after its `cf` call: the envelope's error, the error
      `variable.map(…)` raises on a result that is not an array, or the
      projected list. */
  function ListReply(data: Value, variable: string, fields: seq<FieldPath>): ToolResult
    requires fields != []
  {
    match Envelope(data)
    case Err(m) => Error(m)
    case Ok(result) =>
      if result.None? then Error("Cannot read properties of undefined (reading 'map')")
      else if result.value.Null? then Error("Cannot read properties of null (reading 'map')")
      else if !result.value.Arr? then Error(variable + ".map is not a function")
      else
        match ProjectAll(result.value.items, fields)
        case Err(m) => Error(m)
        case Ok(vs) => Success(Arr(vs))
  }

  function ZonesList(data: Value): ToolResult {
    ListReply(data, "zones", ZoneFields)
  }

  function RecordsList(data: Value): ToolResult {
    ListReply(data, "records", RecordFields)
  }

  /** A successful listing of zones is one JSON array, as long as the
      zones and in their order, each element holding exactly the defined
      ones among `id`, `name`, `status`, `paused`, `nameServers` (read from
      `name_servers`) and `plan` (the plan's name). */
  lemma ZonesListed(data: Value, zones: seq<Value>)
    requires data.Obj? && JsTruthy(Property(data, "success"))
    requires Property(data, "result") == Some(Arr(zones))
    requires forall i :: 0 <= i < |zones| ==> !zones[i].Null?
    ensures exists vs: seq<Value> ::
              ZonesList(data) == Success(Arr(vs)) && |vs| == |zones|
              && forall i :: 0 <= i < |zones| ==> vs[i] == Obj(Project(zones[i], ZoneFields))
  {
    ProjectAllSpec(zones, ZoneFields);
    var vs := ProjectAll(zones, ZoneFields).value;
    assert ZonesList(data) == Success(Arr(vs));
  }

  lemma ZoneFieldsDistinct()
    ensures DistinctKeys(ZoneFields)
    ensures forall i :: 0 <= i < |ZoneFields| ==> ZoneFields[i].key in ["id", "name", "status", "paused", "nameServers", "plan"]
  {
  }

  /** Each projected zone: its fields read from the zone, and no other key. */
  lemma ZoneProjection(z: Value)
    requires !z.Null?
    ensures var ms := Project(z, ZoneFields);
            Get(ms, "id") == Property(z, "id") && Get(ms, "name") == Property(z, "name")
            && Get(ms, "status") == Property(z, "status") && Get(ms, "paused") == Property(z, "paused")
            && Get(ms, "nameServers") == Property(z, "name_servers")
            && Get(ms, "plan") == OptionalProperty(Property(z, "plan"), "name")
            && forall k :: k in Keys(ms) ==> k in ["id", "name", "status", "paused", "nameServers", "plan"]
  {
    ZoneFieldsDistinct();
    ProjectKeys(z, ZoneFields);
    ProjectGet(z, ZoneFields, 0);
    ProjectGet(z, ZoneFields, 1);
    ProjectGet(z, ZoneFields, 2);
    ProjectGet(z, ZoneFields, 3);
    ProjectGet(z, ZoneFields, 4);
    ProjectGet(z, ZoneFields, 5);
  }
}
