/** The `POST /api/categorize` handler: it gates the request, asks the
    classifier for a verdict (the reply is an input here), flattens and cleans
    the reply, parses and schema-checks it, and resolves the verdict against
    the category snapshot, reusing a category or getting-or-creating one. */
module CategorizeRoute {
  import opened Wrappers
  import opened Text
  import opened CategoryModel
  import opened CategoryActions

  // ---------------------------------------------------------------------------
  // Requests and responses.

  /** The fields read from the request body. A field the body does not carry
      is `None`. */
  datatype RequestBody = RequestBody(title: Option<string>, content: Option<string>, userId: Option<string>)

  /** What the handler answers: a plain-text response with a status, or the
      JSON body `{ categoryId, categoryTitle, action, reasoning }` (status 200). */
  datatype Response =
    | Plain(status: nat, body: string)
    | Resolved(categoryId: string, categoryTitle: string, action: string, reasoning: string)

  /** The prefix the outer `catch` puts before the message of any thrown error;
      it answers with status 500. */
  const Caught := "Failed to categorize entry: "
  const NoContent := "No content received from AI"
  const InvalidJson := "AI returned invalid JSON"
  const MissingId := "Category ID missing for existing category"
  const DefaultTitle := "General"

  /** JavaScript truthiness of an optional string: present and not empty. */
  predicate Truthy(s: Option<string>) {
    s.Some? && s.value != ""
  }

  /** `a || b` for an optional string. */
  function Or(a: Option<string>, b: string): (r: string)
    ensures Truthy(a) ==> r == a.value
    ensures !Truthy(a) ==> r == b
  {
    if Truthy(a) then a.value else b
  }

  /** The request gate: 401 without a user id, 400 when the content is
      missing or consists of whitespace only, otherwise nothing. */
  function Gate(body: RequestBody): (r: Option<Response>)
    ensures !Truthy(body.userId) ==> r == Some(Plain(401, "Unauthorized"))
    ensures Truthy(body.userId) && (body.content.None? || AllWhitespace(body.content.value)) ==>
              r == Some(Plain(400, "Content is required"))
    ensures r.None? <==>
              Truthy(body.userId) && body.content.Some? && !AllWhitespace(body.content.value)
  {
    BlankIffAllWhitespace(Or(body.content, ""));
    if !Truthy(body.userId) then Some(Plain(401, "Unauthorized"))
    else if !Truthy(body.content) || Trim(body.content.value) == "" then Some(Plain(400, "Content is required"))
    else None
  }

  /** The text handed to the classifier: the content, after a `Title:` line
      and a `Content:` label when the title is present and non-empty. */
  function EntryText(title: Option<string>, content: string): (r: string)
    ensures |content| <= |r| && r[|r| - |content|..] == content
    ensures Truthy(title) ==> StartsWith(r, "Title: " + title.value + "\n\n")
    ensures !Truthy(title) ==> r == content
  {
    if Truthy(title) then
      var head := "Title: " + title.value + "\n\n";
      var r := head + "Content: " + content;
      assert r[..|head|] == head;
      r
    else content
  }

  // ---------------------------------------------------------------------------
  // The classifier's reply.

  /** One element of an array reply; `kind` is its `type` field. */
  datatype ContentPart = ContentPart(kind: string, text: Option<string>)

  /** `completion.choices[0]?.message?.content`: absent, a string, or an array
      of parts. */
  datatype Reply = NoReply | TextReply(text: string) | PartsReply(parts: seq<ContentPart>)

  /** JavaScript truthiness of the reply: a non-empty string or any array. */
  predicate HasContent(reply: Reply) {
    match reply
    case NoReply => false
    case TextReply(s) => s != ""
    case PartsReply(_) => true
  }

  /** `filter(item => item.type === 'text')`: exactly the `'text'` parts are
      kept (their order is kept too, `TextPartsAppend`). */
  function TextParts(parts: seq<ContentPart>): (r: seq<ContentPart>)
    ensures forall p :: p in r ==> p in parts && p.kind == "text"
    ensures forall p :: p in parts && p.kind == "text" ==> p in r
  {
    if parts == [] then []
    else if parts[0].kind == "text" then [parts[0]] + TextParts(parts[1..])
    else TextParts(parts[1..])
  }

  /** `item.text || ''`. */
  function PartText(p: ContentPart): string {
    Or(p.text, "")
  }

  /** `map(item => item.text || '')`. */
  function PartTexts(parts: seq<ContentPart>): (r: seq<string>)
    ensures |r| == |parts|
    ensures forall i :: 0 <= i < |parts| ==> r[i] == PartText(parts[i])
  {
    if parts == [] then [] else [PartText(parts[0])] + PartTexts(parts[1..])
  }

  /** `join('')`. */
  function Join(ss: seq<string>): string {
    if ss == [] then "" else ss[0] + Join(ss[1..])
  }

  /** Reference reading of the array case: part by part, in order, the text
      of each `'text'` part (empty when it has none) and nothing for any
      other part. */
  function TextOfParts(parts: seq<ContentPart>): string {
    if parts == [] then ""
    else (if parts[0].kind == "text" then PartText(parts[0]) else "") + TextOfParts(parts[1..])
  }

  /** The filter-map-join pipeline is the in-order concatenation of the texts
      of the `'text'` parts. */
  lemma {:induction false} FlattenPartsInOrder(parts: seq<ContentPart>)
    ensures Join(PartTexts(TextParts(parts))) == TextOfParts(parts)
  {
    if parts != [] {
      FlattenPartsInOrder(parts[1..]);
      if parts[0].kind == "text" {
        assert TextParts(parts) == [parts[0]] + TextParts(parts[1..]);
        assert PartTexts([parts[0]] + TextParts(parts[1..]))
            == [PartText(parts[0])] + PartTexts(TextParts(parts[1..]));
      }
    }
  }

  /** The filter keeps the order of the parts: filtering two runs of parts is
      filtering the first and then the second. */
  lemma {:induction false} TextPartsAppend(ps: seq<ContentPart>, qs: seq<ContentPart>)
    ensures TextParts(ps + qs) == TextParts(ps) + TextParts(qs)
  {
    if ps == [] {
      assert ps + qs == qs;
    } else {
      assert (ps + qs)[0] == ps[0];
      assert (ps + qs)[1..] == ps[1..] + qs;
      TextPartsAppend(ps[1..], qs);
    }
  }

  /** The reply as one string: a string is used as it is, an array is
      filtered, mapped and joined, which reads the texts of its `'text'`
      parts in order. */
  function Flatten(reply: Reply): (r: string)
    requires !reply.NoReply?
    ensures reply.TextReply? ==> r == reply.text
    ensures reply.PartsReply? ==> r == TextOfParts(reply.parts)
  {
    match reply
    case TextReply(s) => s
    case PartsReply(parts) =>
      FlattenPartsInOrder(parts);
      Join(PartTexts(TextParts(parts)))
  }

  /** An array with no `'text'` part flattens to the empty string. */
  lemma {:induction false} NoTextPartsFlattenEmpty(parts: seq<ContentPart>)
    requires forall i :: 0 <= i < |parts| ==> parts[i].kind != "text"
    ensures Flatten(PartsReply(parts)) == ""
  {
    var k := |parts|;
    while k > 0
      invariant 0 <= k <= |parts|
      invariant TextOfParts(parts[k..]) == ""
    {
      k := k - 1;
      assert parts[k..][1..] == parts[k + 1..];
    }
    assert parts[0..] == parts;
  }

  // ---------------------------------------------------------------------------
  // Removing code fences: `replace(/```json\n?|\n?```/g, "")`.

  /** The global replace, scanning left to right: at each position the first
      alternative that matches (the longest form of it) is removed, otherwise
      the character is kept. */
  function StripFences(s: string): (r: string)
    ensures |r| <= |s|
    decreases |s|
  {
    if StartsWith(s, "```json\n") then StripFences(s[8..])
    else if StartsWith(s, "```json") then StripFences(s[7..])
    else if StartsWith(s, "\n```") then StripFences(s[4..])
    else if StartsWith(s, "```") then StripFences(s[3..])
    else if s == [] then []
    else [s[0]] + StripFences(s[1..])
  }

  /** The cleaned reply: fences removed, then trimmed. It carries no
      surrounding whitespace, and a reply without fences is only trimmed. */
  function Clean(s: string): (r: string)
    ensures |r| <= |s| && Trimmed(r)
    ensures NoFence(s) ==> r == Trim(s)
  {
    if NoFence(s) then NoFenceUnchanged(s); Trim(StripFences(s))
    else Trim(StripFences(s))
  }

  /** Three backticks start at position `i` of `s`. */
  predicate FenceAt(s: string, i: int) {
    0 <= i && i + 3 <= |s| && s[i] == '`' && s[i + 1] == '`' && s[i + 2] == '`'
  }

  /** `s` holds no run of three backticks. */
  predicate NoFence(s: string) {
    forall i :: 0 <= i < |s| ==> !FenceAt(s, i)
  }

  lemma NoFenceTail(s: string)
    requires NoFence(s) && s != []
    ensures NoFence(s[1..])
  {
    forall i | 0 <= i < |s[1..]| ensures !FenceAt(s[1..], i) {
      assert !FenceAt(s, i + 1);
    }
  }

  /** Where no fence starts at the first or (after a newline) the second
      position, none of the replace's alternatives matches at the start. */
  lemma NoAlternativeAtStart(s: string)
    requires s != [] && !FenceAt(s, 0) && !(s[0] == '\n' && FenceAt(s, 1))
    ensures !StartsWith(s, "```json\n") && !StartsWith(s, "```json")
    ensures !StartsWith(s, "\n```") && !StartsWith(s, "```")
  {
    assert !StartsWith(s, "```") by {
      if |s| >= 3 { assert s[..3][0] == s[0] && s[..3][1] == s[1] && s[..3][2] == s[2]; }
    }
    assert !StartsWith(s, "\n```") by {
      if |s| >= 4 { assert s[..4][1] == s[1] && s[..4][2] == s[2] && s[..4][3] == s[3]; }
    }
    assert !StartsWith(s, "```json") by {
      if |s| >= 7 { assert s[..7][..3] == s[..3]; }
    }
    assert !StartsWith(s, "```json\n") by {
      if |s| >= 8 { assert s[..8][..3] == s[..3]; }
    }
  }

  /** There the replace keeps the first character and moves on. */
  lemma KeepFirst(s: string)
    requires s != [] && !FenceAt(s, 0) && !(s[0] == '\n' && FenceAt(s, 1))
    ensures StripFences(s) == [s[0]] + StripFences(s[1..])
  {
    NoAlternativeAtStart(s);
  }

  /** Text without fences goes through the replace unchanged. */
  lemma {:induction false} NoFenceUnchanged(s: string)
    requires NoFence(s)
    ensures StripFences(s) == s
  {
    if s != [] {
      assert !FenceAt(s, 0);
      assert |s| > 1 ==> !FenceAt(s, 1);
      KeepFirst(s);
      NoFenceTail(s);
      NoFenceUnchanged(s[1..]);
    }
  }

  /** A closing fence after fence-free text is removed and nothing else is. */
  lemma {:induction false} ClosingFenceRemoved(p: string)
    requires NoFence(p)
    ensures StripFences(p + "\n```") == p
  {
    var s := p + "\n```";
    if p == [] {
      assert s == "\n```";
      assert StartsWith(s, "\n```");
      assert StripFences(s) == StripFences(s[4..]);
    } else {
      assert !FenceAt(s, 0) by {
        if |p| >= 3 { assert !FenceAt(p, 0); } else { assert s[|p|] == '\n'; }
      }
      assert !FenceAt(s, 1) by {
        if |p| >= 4 { assert !FenceAt(p, 1); } else if |p| >= 1 { assert s[|p|] == '\n'; }
      }
      KeepFirst(s);
      assert s[1..] == p[1..] + "\n```";
      NoFenceTail(p);
      ClosingFenceRemoved(p[1..]);
    }
  }

  /** A payload wrapped in a json fence is cleaned to the trimmed payload. */
  lemma FencedPayloadCleaned(p: string)
    requires NoFence(p)
    ensures Clean("```json\n" + p + "\n```") == Trim(p)
  {
    var s := "```json\n" + p + "\n```";
    assert StartsWith(s, "```json\n");
    assert s[8..] == p + "\n```";
    ClosingFenceRemoved(p);
  }

  // ---------------------------------------------------------------------------
  // The verdict and its schema (`CategoryResponseSchema`).

  /** What `JSON.parse` may produce. */
  datatype Json =
    | JNull
    | JBool(b: bool)
    | JNumber(n: real)
    | JString(s: string)
    | JArray(items: seq<Json>)
    | JObject(fields: map<string, Json>)

  datatype Action = Existing | New

  function ActionName(a: Action): string {
    match a
    case Existing => "existing"
    case New => "new"
  }

  /** A reply that passed the schema; the optional fields are `None` when the
      object does not carry them. */
  datatype Verdict = Verdict(
    action: Action,
    categoryId: Option<string>,
    newTitle: Option<string>,
    newColor: Option<string>,
    reasoning: string)

  /** The keys the schema reads; any other key is dropped. */
  const SchemaKeys: set<string> :=
    {"categoryAction", "categoryId", "newCategoryTitle", "newCategoryColor", "reasoning"}

  /** `z.string().optional()` at `key`: an absent key or a string. */
  predicate OptionalStringField(m: map<string, Json>, key: string) {
    key !in m || m[key].JString?
  }

  /** The schema as a predicate on a parsed value. */
  predicate Conforms(j: Json) {
    && j.JObject?
    && "categoryAction" in j.fields
    && j.fields["categoryAction"] in [JString("existing"), JString("new")]
    && OptionalStringField(j.fields, "categoryId")
    && OptionalStringField(j.fields, "newCategoryTitle")
    && OptionalStringField(j.fields, "newCategoryColor")
    && "reasoning" in j.fields && j.fields["reasoning"].JString?
  }

  function SchemaError(key: string): string {
    "Invalid verdict field: " + key
  }

  function OptionalString(m: map<string, Json>, key: string): Result<Option<string>> {
    if key !in m then Ok(None)
    else if m[key].JString? then Ok(Some(m[key].s))
    else Err(SchemaError(key))
  }

  /** The string at `key`, if the object carries one there. */
  function StringAt(m: map<string, Json>, key: string): Option<string> {
    if key in m && m[key].JString? then Some(m[key].s) else None
  }

  /** The schema check, field by field in declaration order. An accepted
      verdict carries the object's action and reasoning and, for each
      optional key, its string or `None` when the key is absent. */
  function Validate(j: Json): (r: Result<Verdict>)
    ensures r.Ok? <==> Conforms(j)
    ensures r.Ok? ==>
              && j.fields["categoryAction"] == JString(ActionName(r.value.action))
              && j.fields["reasoning"] == JString(r.value.reasoning)
              && r.value.categoryId == StringAt(j.fields, "categoryId")
              && r.value.newTitle == StringAt(j.fields, "newCategoryTitle")
              && r.value.newColor == StringAt(j.fields, "newCategoryColor")
  {
    if !j.JObject? then Err(SchemaError("(root)"))
    else
      var m := j.fields;
      if "categoryAction" !in m || m["categoryAction"] !in [JString("existing"), JString("new")] then
        Err(SchemaError("categoryAction"))
      else
        var action := if m["categoryAction"] == JString("existing") then Existing else New;
        match OptionalString(m, "categoryId")
        case Err(e) => Err(e)
        case Ok(categoryId) =>
          match OptionalString(m, "newCategoryTitle")
          case Err(e) => Err(e)
          case Ok(newTitle) =>
            match OptionalString(m, "newCategoryColor")
            case Err(e) => Err(e)
            case Ok(newColor) =>
              if "reasoning" !in m || !m["reasoning"].JString? then Err(SchemaError("reasoning"))
              else Ok(Verdict(action, categoryId, newTitle, newColor, m["reasoning"].s))
  }

  /** `m` with `key` set to the string `value` when there is one. */
  function WithOptional(m: map<string, Json>, key: string, value: Option<string>): (r: map<string, Json>)
    ensures key in r <==> key in m || value.Some?
    ensures value.Some? ==> r[key] == JString(value.value)
    ensures value.None? ==> r == m
    ensures forall k :: k != key ==> (k in r <==> k in m) && (k in m ==> r[k] == m[k])
  {
    if value.Some? then m[key := JString(value.value)] else m
  }

  /** The verdict written back as the JSON object it was read from. */
  function Encode(v: Verdict): Json {
    var required := map["categoryAction" := JString(ActionName(v.action)), "reasoning" := JString(v.reasoning)];
    JObject(
      WithOptional(WithOptional(WithOptional(required, "categoryId", v.categoryId),
                                "newCategoryTitle", v.newTitle),
                   "newCategoryColor", v.newColor))
  }

  /** Reading back an encoded verdict gives the verdict. */
  lemma ValidateEncode(v: Verdict)
    ensures Validate(Encode(v)) == Ok(v)
  {
    var j := Encode(v);
    var m := j.fields;
    assert m["categoryAction"] == JString(ActionName(v.action));
    assert m["reasoning"] == JString(v.reasoning);
    assert StringAt(m, "categoryId") == v.categoryId;
    assert StringAt(m, "newCategoryTitle") == v.newTitle;
    assert StringAt(m, "newCategoryColor") == v.newColor;
    assert Conforms(j);
    var r := Validate(j).value;
    assert r.action == v.action by {
      assert JString(ActionName(r.action)) == JString(ActionName(v.action));
    }
  }

  /** A value that passes the schema is, on the schema's keys, exactly the
      encoding of the verdict read from it; other keys are dropped. */
  lemma EncodeValidated(j: Json)
    requires Validate(j).Ok?
    ensures var m := j.fields;
      Encode(Validate(j).value).fields == map k | k in m && k in SchemaKeys :: m[k]
  {
    var m := j.fields;
    var e := Encode(Validate(j).value).fields;
    var want := map k | k in m && k in SchemaKeys :: m[k];
    assert e.Keys == want.Keys;
    forall k | k in e ensures e[k] == want[k] { }
  }

  // ---------------------------------------------------------------------------
  // Resolving a verdict against the category snapshot.

  /** `find(c => String(c._id) === id)`. */
  function FindId(known: seq<Category>, id: string): (r: Option<Category>)
    ensures r.Some? ==> r.value in known && NatToDecimal(r.value.id) == id
    ensures r.None? ==> forall c :: c in known ==> NatToDecimal(c.id) != id
  {
    if known == [] then None
    else if NatToDecimal(known[0].id) == id then Some(known[0])
    else FindId(known[1..], id)
  }

  /** `find(c => c.title === title)` for a title that may be undefined, which
      no stored title equals. */
  function FindTitleOf(known: seq<Category>, title: Option<string>): (r: Option<Category>)
    ensures r.Some? ==> title.Some? && r.value in known && r.value.title == title.value
    ensures r.None? ==> title.None? || forall c :: c in known ==> c.title != title.value
  {
    if title.None? then None else FindTitle(known, title.value)
  }

  /** What the decision tree settles on before any write. */
  datatype Plan =
    | Reuse(category: Category)
    | Mint(title: string, color: string)
    | Refuse(status: nat, message: string)

  /** The category id is missing or whitespace-only (`!id || !id.trim()`). */
  predicate BlankId(id: Option<string>) {
    !Truthy(id) || IsBlank(id.value)
  }

  /** The decision tree over `categoryAction`, with `fallback` the colour the
      route generates for a category it has to create. */
  function Decide(v: Verdict, known: seq<Category>, fallback: string): (p: Plan)
    ensures p.Reuse? ==> p.category in known
    ensures p.Refuse? ==> v.action == Existing && BlankId(v.categoryId) && p == Refuse(400, MissingId)
    ensures v.action == New ==> p == Mint(Or(v.newTitle, DefaultTitle), Or(v.newColor, fallback))
  {
    match v.action
    case New => Mint(Or(v.newTitle, DefaultTitle), Or(v.newColor, fallback))
    case Existing =>
      if BlankId(v.categoryId) then
        match FindTitleOf(known, v.newTitle)
        case Some(c) => Reuse(c)
        case None => Refuse(400, MissingId)
      else
        match FindId(known, v.categoryId.value)
        case None => Mint(Or(v.categoryId, DefaultTitle), fallback)
        case Some(c) => Reuse(c)
  }

  /** An unknown, non-blank id is used itself as the title: the "General"
      alternative of `categoryId || "General"` is never taken. */
  lemma UnknownIdBecomesTitle(v: Verdict, known: seq<Category>, fallback: string)
    requires v.action == Existing && !BlankId(v.categoryId)
    requires forall c :: c in known ==> NatToDecimal(c.id) != v.categoryId.value
    ensures Decide(v, known, fallback) == Mint(v.categoryId.value, fallback)
    ensures v.categoryId.value != DefaultTitle ==> Decide(v, known, fallback).title != DefaultTitle
  {
  }

  // ---------------------------------------------------------------------------
  // The whole handler.

  /** The external calls the handler makes, in order. */
  datatype Call = ListCategories | Classify(entryText: string) | GetOrCreateCall(title: string, color: string)

  /** The response, the Category collection afterwards, and the calls made. */
  datatype Outcome = Outcome(response: Response, records: seq<Category>, calls: seq<Call>)

  /** The response to a verdict that passed the schema, the collection
      afterwards and the calls made, given the calls made so far. A refusal
      is a 400 or a 500, a resolved response echoes the verdict's action and
      reasoning, and the collection changes only by one appended, valid
      record, together with one more call. */
  function Resolution(records: seq<Category>, v: Verdict, fallback: string, calls: seq<Call>): (r: Outcome)
    ensures r.response.Plain? ==> r.response.status == 400 || r.response.status == 500
    ensures r.response.Resolved? ==> r.response.action == ActionName(v.action) && r.response.reasoning == v.reasoning
    ensures || r.records == records
            || (&& |r.calls| == |calls| + 1 && |r.records| == |records| + 1 && r.records[..|records|] == records
                && ValidColor(r.records[|records|].color))
  {
    match Decide(v, SortByTitle(records), fallback)
    case Refuse(status, message) => Outcome(Plain(status, message), records, calls)
    case Reuse(c) =>
      Outcome(Resolved(NatToDecimal(c.id), c.title, ActionName(v.action), v.reasoning), records, calls)
    case Mint(title, color) =>
      var out := GetOrCreate(records, title, color);
      var calls' := calls + [GetOrCreateCall(title, color)];
      match out.0
      case Err(m) => Outcome(Plain(500, Caught + m), out.1, calls')
      case Ok(c) =>
        Outcome(Resolved(NatToDecimal(c.id), c.title, ActionName(v.action), v.reasoning), out.1, calls')
  }

  /** The classifier's reply read as a verdict, or the body of the 500
      response that refuses it: an absent or empty reply, cleaned text that
      does not parse, or a parsed value outside the schema. */
  function ReadVerdict(reply: Reply, parse: string -> Option<Json>): (r: Result<Verdict>)
    ensures !HasContent(reply) ==> r == Err(Caught + NoContent)
    ensures HasContent(reply) && parse(Clean(Flatten(reply))).None? ==> r == Err(InvalidJson)
    ensures HasContent(reply) && parse(Clean(Flatten(reply))).Some? ==>
      var j := parse(Clean(Flatten(reply))).value;
      && (r.Ok? <==> Conforms(j))
      && (r.Ok? ==> r.value == Validate(j).value)
      && (r.Err? ==> StartsWith(r.message, Caught))
  {
    if !HasContent(reply) then Err(Caught + NoContent)
    else
      match parse(Clean(Flatten(reply)))
      case None => Err(InvalidJson)
      case Some(j) =>
        match Validate(j)
        case Err(m) =>
          assert (Caught + m)[..|Caught|] == Caught;
          Err(Caught + m)
        case Ok(v) => Ok(v)
  }

  /** The handler on the collection's contents, for a given fallback colour.
      A refusal is a 400, 401 or 500; a resolved response names the action
      "existing" or "new"; the collection only ever gains one record at its
      end. */
  function Respond(records: seq<Category>, request: Result<RequestBody>, reply: Reply,
                   parse: string -> Option<Json>, fallback: string): (r: Outcome)
    ensures r.response.Plain? ==> r.response.status == 400 || r.response.status == 401 || r.response.status == 500
    ensures r.response.Resolved? ==> r.response.action == "existing" || r.response.action == "new"
    ensures || r.records == records
            || (&& |r.records| == |records| + 1 && r.records[..|records|] == records
                && ValidColor(r.records[|records|].color))
  {
    match request
    case Err(m) => Outcome(Plain(500, Caught + m), records, [])
    case Ok(body) =>
      match Gate(body)
      case Some(refusal) => Outcome(refusal, records, [])
      case None =>
        var calls := [ListCategories, Classify(EntryText(body.title, body.content.value))];
        match ReadVerdict(reply, parse)
        case Err(m) => Outcome(Plain(500, m), records, calls)
        case Ok(v) => Resolution(records, v, fallback, calls)
  }

  /** The handler as written: the fallback colour is `hsl(hue, 70%, 80%)`.
      That colour is never stored: whatever the handler appends carries a
      colour given by the verdict. */
  function PostOutcome(records: seq<Category>, request: Result<RequestBody>, reply: Reply,
                       parse: string -> Option<Json>, hue: nat): (r: Outcome)
    ensures forall k :: |records| <= k < |r.records| ==> r.records[k].color != Some(Hsl(hue))
  {
    var r := Respond(records, request, reply, parse, Hsl(hue));
    HslColorRejected(hue);
    AppendedColorsValid(records, r.records, Hsl(hue));
    r
  }

  /** A collection that gained at most one record with a valid colour holds
      no new record with an invalid colour. */
  lemma AppendedColorsValid(records: seq<Category>, after: seq<Category>, color: string)
    requires !ValidColor(Some(color))
    requires || after == records
             || (&& |after| == |records| + 1 && after[..|records|] == records
                 && ValidColor(after[|records|].color))
    ensures forall k :: |records| <= k < |after| ==> after[k].color != Some(color)
  {
  }

  /** `POST`: the handler run against the category store. */
  method Post(store: CategoryStore, request: Result<RequestBody>, reply: Reply,
              parse: string -> Option<Json>, hue: nat)
    returns (response: Response, calls: seq<Call>)
    requires store.Valid() && hue < 360
    modifies store
    ensures store.Valid()
    ensures Outcome(response, store.records, calls) == PostOutcome(old(store.records), request, reply, parse, hue)
  {
    calls := [];
    if request.Err? {
      return Plain(500, Caught + request.message), calls;
    }
    var body := request.value;
    var refusal := Gate(body);
    if refusal.Some? {
      return refusal.value, calls;
    }
    var existingCategories := store.GetAll();
    calls := [ListCategories, Classify(EntryText(body.title, body.content.value))];
    var verdict := ReadVerdict(reply, parse);
    ghost var fallback := Hsl(hue);
    ghost var spec := Respond(store.records, request, reply, parse, fallback);
    if verdict.Err? {
      assert spec == Outcome(Plain(500, verdict.message), store.records, calls);
      return Plain(500, verdict.message), calls;
    }
    assert spec == Resolution(store.records, verdict.value, fallback, calls);
    response, calls := Resolve(store, existingCategories, verdict.value, hue, calls);
  }

  /** The decision tree of `POST` over a validated verdict: `categoryId` and
      `categoryTitle` are assigned per branch, and the branches that create a
      category call the store. */
  method Resolve(store: CategoryStore, existingCategories: seq<Category>, v: Verdict, hue: nat, calls0: seq<Call>)
    returns (response: Response, calls: seq<Call>)
    requires store.Valid() && existingCategories == SortByTitle(store.records)
    modifies store
    ensures store.Valid()
    ensures Outcome(response, store.records, calls) == Resolution(old(store.records), v, Hsl(hue), calls0)
  {
    calls := calls0;
    ghost var plan := Decide(v, existingCategories, Hsl(hue));
    var categoryId: string;
    var categoryTitle: string;
    if v.action == Existing {
      if BlankId(v.categoryId) {
        var found := FindTitleOf(existingCategories, v.newTitle);
        if found.Some? {
          assert plan == Reuse(found.value);
          categoryId := NatToDecimal(found.value.id);
          categoryTitle := found.value.title;
        } else {
          assert plan == Refuse(400, MissingId);
          return Plain(400, MissingId), calls;
        }
      } else {
        var existingCategory := FindId(existingCategories, v.categoryId.value);
        if existingCategory.None? {
          var newTitle := Or(v.categoryId, DefaultTitle);
          var newColor := Hsl(hue);
          assert plan == Mint(newTitle, newColor);
          calls := calls + [GetOrCreateCall(newTitle, newColor)];
          var newCategory := store.Create(newTitle, newColor);
          if newCategory.Err? {
            return Plain(500, Caught + newCategory.message), calls;
          }
          categoryId := NatToDecimal(newCategory.value.id);
          categoryTitle := newCategory.value.title;
        } else {
          assert plan == Reuse(existingCategory.value);
          categoryId := NatToDecimal(existingCategory.value.id);
          categoryTitle := existingCategory.value.title;
        }
      }
    } else {
      var newTitle := Or(v.newTitle, DefaultTitle);
      var newColor := Or(v.newColor, Hsl(hue));
      assert plan == Mint(newTitle, newColor);
      calls := calls + [GetOrCreateCall(newTitle, newColor)];
      var newCategory := store.Create(newTitle, newColor);
      if newCategory.Err? {
        return Plain(500, Caught + newCategory.message), calls;
      }
      categoryId := NatToDecimal(newCategory.value.id);
      categoryTitle := newCategory.value.title;
    }
    response := Resolved(categoryId, categoryTitle, ActionName(v.action), v.reasoning);
  }
}
