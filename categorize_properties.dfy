/** What the categorisation handler guarantees: the order of its checks,
    which outcomes write to the Category collection, and what each branch of
    the decision tree resolves to. */
module CategorizeProperties {
  import opened Wrappers
  import opened Text
  import opened CategoryModel
  import opened CategoryActions
  import opened CategorizeRoute

  /** The request passes the gate. */
  predicate Admitted(body: RequestBody) {
    Gate(body).None?
  }

  function CallsBeforeVerdict(body: RequestBody): seq<Call>
    requires Admitted(body)
  {
    [ListCategories, Classify(EntryText(body.title, body.content.value))]
  }

  // ---------------------------------------------------------------------------
  // The request gate.

  /** A request without a user id is answered 401 before the categories are
      read or the classifier is called, and nothing is written. */
  lemma MissingUserUnauthorized(records: seq<Category>, body: RequestBody, reply: Reply,
                                parse: string -> Option<Json>, fallback: string)
    requires !Truthy(body.userId)
    ensures Respond(records, Ok(body), reply, parse, fallback) == Outcome(Plain(401, "Unauthorized"), records, [])
  {
  }

  /** A request with a user id whose content is missing or whitespace-only is
      answered 400, again with no call made and nothing written. */
  lemma BlankContentRejected(records: seq<Category>, body: RequestBody, reply: Reply,
                             parse: string -> Option<Json>, fallback: string)
    requires Truthy(body.userId)
    requires body.content.None? || AllWhitespace(body.content.value)
    ensures Respond(records, Ok(body), reply, parse, fallback) == Outcome(Plain(400, "Content is required"), records, [])
  {
  }

  // ---------------------------------------------------------------------------
  // Replies the handler refuses.

  /** A reply that is absent, does not parse once cleaned, or parses to a
      value outside the schema is answered 500 after exactly the listing and
      the classifier call: `createCategory` is never reached. */
  lemma RefusedReplyWritesNothing(records: seq<Category>, body: RequestBody, reply: Reply,
                                  parse: string -> Option<Json>, fallback: string)
    requires Admitted(body) && ReadVerdict(reply, parse).Err?
    ensures var o := Respond(records, Ok(body), reply, parse, fallback);
      && o.response == Plain(500, ReadVerdict(reply, parse).message)
      && o.records == records
      && o.calls == CallsBeforeVerdict(body)
  {
  }

  /** Cleaned text that is no JSON gives 500 "AI returned invalid JSON". */
  lemma InvalidJsonRefused(records: seq<Category>, body: RequestBody, reply: Reply,
                           parse: string -> Option<Json>, fallback: string)
    requires Admitted(body) && HasContent(reply) && parse(Clean(Flatten(reply))).None?
    ensures Respond(records, Ok(body), reply, parse, fallback)
         == Outcome(Plain(500, InvalidJson), records, CallsBeforeVerdict(body))
  {
  }

  /** A parsed value whose `categoryAction` is neither "existing" nor "new",
      or whose `reasoning` is not a string, fails the schema and goes to the
      outer handler's 500. */
  lemma SchemaViolationRefused(records: seq<Category>, body: RequestBody, reply: Reply,
                               parse: string -> Option<Json>, fallback: string, j: Json)
    requires Admitted(body) && HasContent(reply) && parse(Clean(Flatten(reply))) == Some(j)
    requires j.JObject?
    requires || "categoryAction" !in j.fields
             || j.fields["categoryAction"] !in [JString("existing"), JString("new")]
             || "reasoning" !in j.fields
             || !j.fields["reasoning"].JString?
    ensures var o := Respond(records, Ok(body), reply, parse, fallback);
      && o.response.Plain? && o.response.status == 500 && StartsWith(o.response.body, Caught)
      && o.records == records
      && o.calls == CallsBeforeVerdict(body)
  {
    var m := Validate(j).message;
    assert (Caught + m)[..|Caught|] == Caught;
  }

  /** A fenced reply whose payload parses to a verdict's encoding is resolved
      as that verdict. */
  lemma FencedVerdictResolved(records: seq<Category>, body: RequestBody, payload: string,
                              parse: string -> Option<Json>, fallback: string, v: Verdict)
    requires Admitted(body) && NoFence(payload)
    requires parse(Trim(payload)) == Some(Encode(v))
    ensures Respond(records, Ok(body), TextReply("```json\n" + payload + "\n```"), parse, fallback)
         == Resolution(records, v, fallback, CallsBeforeVerdict(body))
  {
    FencedPayloadCleaned(payload);
    ValidateEncode(v);
  }

  // ---------------------------------------------------------------------------
  // The decision tree.

  /** The snapshot holds the same categories as the collection. */
  lemma InSnapshot(records: seq<Category>, c: Category)
    ensures c in SortByTitle(records) <==> c in records
  {
    assert c in multiset(SortByTitle(records)) <==> c in multiset(records);
  }

  /** "existing" with a known id: that category's id and title are returned,
      the action and reasoning echoed, and nothing is written. */
  lemma KnownIdReused(records: seq<Category>, v: Verdict, fallback: string, calls: seq<Call>, i: nat)
    requires WellFormed(records)
    requires v.action == Existing && !BlankId(v.categoryId)
    requires i < |records| && NatToDecimal(records[i].id) == v.categoryId.value
    ensures Resolution(records, v, fallback, calls)
         == Outcome(Resolved(v.categoryId.value, records[i].title, "existing", v.reasoning), records, calls)
  {
    var known := SortByTitle(records);
    InSnapshot(records, records[i]);
    var found := FindId(known, v.categoryId.value);
    var c := found.value;
    InSnapshot(records, c);
    DecimalInjective(c.id, records[i].id);
    var k :| 0 <= k < |records| && records[k] == c;
    assert k == i;
  }

  /** When the decision tree plans a creation, the handler makes one
      get-or-create call and answers with what it returns. */
  lemma MintResolves(records: seq<Category>, v: Verdict, fallback: string, calls: seq<Call>,
                     title: string, color: string)
    requires Decide(v, SortByTitle(records), fallback) == Mint(title, color)
    ensures var o := Resolution(records, v, fallback, calls);
      o.calls == calls + [GetOrCreateCall(title, color)] && o.records == GetOrCreate(records, title, color).1
    ensures var out := GetOrCreate(records, title, color);
      out.0.Ok? ==> Resolution(records, v, fallback, calls).response
                    == Resolved(NatToDecimal(out.0.value.id), out.0.value.title, ActionName(v.action), v.reasoning)
    ensures GetOrCreate(records, title, color).0.Err? ==>
      Resolution(records, v, fallback, calls).response == Plain(500, Caught + CreateFailed)
  {
  }

  /** "existing" with a non-blank id that no category has: get-or-create is
      called with the id itself as the title and the fallback colour, and the
      handler answers with what it returns. */
  lemma UnknownIdGetsOrCreates(records: seq<Category>, v: Verdict, fallback: string, calls: seq<Call>)
    requires v.action == Existing && !BlankId(v.categoryId)
    requires forall c :: c in records ==> NatToDecimal(c.id) != v.categoryId.value
    ensures var o := Resolution(records, v, fallback, calls);
      o.calls == calls + [GetOrCreateCall(v.categoryId.value, fallback)]
      && o.records == GetOrCreate(records, v.categoryId.value, fallback).1
    ensures var out := GetOrCreate(records, v.categoryId.value, fallback);
      out.0.Ok? ==> Resolution(records, v, fallback, calls).response
                    == Resolved(NatToDecimal(out.0.value.id), out.0.value.title, "existing", v.reasoning)
    ensures GetOrCreate(records, v.categoryId.value, fallback).0.Err? ==>
      Resolution(records, v, fallback, calls).response == Plain(500, Caught + CreateFailed)
  {
    var known := SortByTitle(records);
    forall c | c in known ensures NatToDecimal(c.id) != v.categoryId.value {
      InSnapshot(records, c);
    }
    UnknownIdBecomesTitle(v, known, fallback);
    MintResolves(records, v, fallback, calls, v.categoryId.value, fallback);
  }

  /** "existing" with a missing or blank id: a category whose title is
      exactly `newCategoryTitle` is reused, with nothing written. */
  lemma BlankIdTitleReused(records: seq<Category>, v: Verdict, fallback: string, calls: seq<Call>, i: nat)
    requires WellFormed(records)
    requires v.action == Existing && BlankId(v.categoryId)
    requires i < |records| && v.newTitle == Some(records[i].title)
    ensures Resolution(records, v, fallback, calls)
         == Outcome(Resolved(NatToDecimal(records[i].id), records[i].title, "existing", v.reasoning), records, calls)
  {
    var found := FindTitleOf(SortByTitle(records), v.newTitle);
    InSnapshot(records, records[i]);
    InSnapshot(records, found.value);
    var k :| 0 <= k < |records| && records[k] == found.value;
    assert k == i;
  }

  /** "existing" with a missing or blank id and no category titled
      `newCategoryTitle` is answered 400 with nothing written. */
  lemma BlankIdWithoutMatchRefused(records: seq<Category>, v: Verdict, fallback: string, calls: seq<Call>)
    requires v.action == Existing && BlankId(v.categoryId)
    requires v.newTitle.None? || forall c :: c in records ==> c.title != v.newTitle.value
    ensures Resolution(records, v, fallback, calls) == Outcome(Plain(400, MissingId), records, calls)
  {
    var found := FindTitleOf(SortByTitle(records), v.newTitle);
    if found.Some? {
      InSnapshot(records, found.value);
    }
  }

  /** "new": get-or-create with `newCategoryTitle` (or "General" when it is
      missing or empty) and `newCategoryColor` (or the fallback colour), and
      the handler answers with the id and title it returns. */
  lemma NewVerdictGetsOrCreates(records: seq<Category>, v: Verdict, fallback: string, calls: seq<Call>)
    requires v.action == New
    ensures var title := Or(v.newTitle, DefaultTitle);
      var color := Or(v.newColor, fallback);
      var o := Resolution(records, v, fallback, calls);
      o.calls == calls + [GetOrCreateCall(title, color)] && o.records == GetOrCreate(records, title, color).1
    ensures var out := GetOrCreate(records, Or(v.newTitle, DefaultTitle), Or(v.newColor, fallback));
      out.0.Ok? ==> Resolution(records, v, fallback, calls).response
                    == Resolved(NatToDecimal(out.0.value.id), out.0.value.title, "new", v.reasoning)
    ensures GetOrCreate(records, Or(v.newTitle, DefaultTitle), Or(v.newColor, fallback)).0.Err? ==>
      Resolution(records, v, fallback, calls).response == Plain(500, Caught + CreateFailed)
  {
    MintResolves(records, v, fallback, calls, Or(v.newTitle, DefaultTitle), Or(v.newColor, fallback));
  }

  /** A resolved category exists in the collection when the handler answers,
      and the collection stays well formed. */
  lemma ResolvedCategoryStored(records: seq<Category>, v: Verdict, fallback: string, calls: seq<Call>)
    requires WellFormed(records)
    ensures var o := Resolution(records, v, fallback, calls);
      && WellFormed(o.records)
      && (o.response.Resolved? ==>
            exists c :: c in o.records && NatToDecimal(c.id) == o.response.categoryId && c.title == o.response.categoryTitle)
  {
    var o := Resolution(records, v, fallback, calls);
    match Decide(v, SortByTitle(records), fallback)
    case Refuse(_, _) =>
    case Reuse(c) =>
      InSnapshot(records, c);
      assert c in o.records && NatToDecimal(c.id) == o.response.categoryId;
    case Mint(title, color) =>
      GetOrCreatePreserves(records, title, color);
      var out := GetOrCreate(records, title, color);
      if out.0.Ok? {
        assert out.0.value in o.records && NatToDecimal(out.0.value.id) == o.response.categoryId;
      }
  }

  /** The decision tree writes only when it mints, and then adds at most one
      category. */
  lemma ResolutionWritesOnlyWhenMinting(records: seq<Category>, v: Verdict, fallback: string, calls: seq<Call>)
    ensures var o := Resolution(records, v, fallback, calls);
      && (o.calls == calls ==> o.records == records)
      && (o.calls == calls || exists t, c :: o.calls == calls + [GetOrCreateCall(t, c)])
      && (o.records == records || o.records == records + [o.records[|records|]])
  {
    match Decide(v, SortByTitle(records), fallback)
    case Refuse(_, _) =>
    case Reuse(_) =>
    case Mint(title, color) =>
      var o := Resolution(records, v, fallback, calls);
      assert o.calls == calls + [GetOrCreateCall(title, color)];
  }

  /** Once the gate is passed and the reply read, the handler is the
      decision tree after the listing and the classifier call. */
  lemma AdmittedResolves(records: seq<Category>, body: RequestBody, reply: Reply,
                         parse: string -> Option<Json>, fallback: string)
    requires Admitted(body) && ReadVerdict(reply, parse).Ok?
    ensures Respond(records, Ok(body), reply, parse, fallback)
         == Resolution(records, ReadVerdict(reply, parse).value, fallback, CallsBeforeVerdict(body))
  {
  }

  /** The handler writes to the collection only through its one get-or-create
      call, and adds at most one category. */
  lemma WritesOnlyThroughGetOrCreate(records: seq<Category>, request: Result<RequestBody>, reply: Reply,
                                     parse: string -> Option<Json>, fallback: string)
    ensures var o := Respond(records, request, reply, parse, fallback);
      (forall k :: 0 <= k < |o.calls| ==> !o.calls[k].GetOrCreateCall?) ==> o.records == records
    ensures var o := Respond(records, request, reply, parse, fallback);
      o.records == records || (|o.records| == |records| + 1 && o.records[..|records|] == records)
  {
    if request.Ok? && Admitted(request.value) && ReadVerdict(reply, parse).Ok? {
      var calls := CallsBeforeVerdict(request.value);
      var v := ReadVerdict(reply, parse).value;
      AdmittedResolves(records, request.value, reply, parse, fallback);
      ResolutionWritesOnlyWhenMinting(records, v, fallback, calls);
      var o := Resolution(records, v, fallback, calls);
      if o.calls != calls {
        assert o.calls[|calls|].GetOrCreateCall?;
      }
    }
  }

  // ---------------------------------------------------------------------------
  // The fallback colour.

  /** As written, recovery creation for an unknown id whose title is not
      stored yet always fails: the `hsl(...)` colour fails the colour
      constraint, the insert is refused and the handler answers 500. */
  lemma HslRecoveryFails(records: seq<Category>, v: Verdict, hue: nat, calls: seq<Call>)
    requires v.action == Existing && !BlankId(v.categoryId)
    requires forall c :: c in records ==> NatToDecimal(c.id) != v.categoryId.value
    requires forall c :: c in records ==> c.title != StoredTitle(v.categoryId.value)
    ensures Resolution(records, v, Hsl(hue), calls)
         == Outcome(Plain(500, Caught + CreateFailed), records, calls + [GetOrCreateCall(v.categoryId.value, Hsl(hue))])
  {
    UnknownIdGetsOrCreates(records, v, Hsl(hue), calls);
    HslInsertFails(records, v.categoryId.value, hue);
  }

  /** As written, a "new" verdict without a colour for a title that is not
      stored yet fails in the same way. */
  lemma HslNewCategoryFails(records: seq<Category>, v: Verdict, hue: nat, calls: seq<Call>)
    requires v.action == New && !Truthy(v.newColor)
    requires forall c :: c in records ==> c.title != StoredTitle(Or(v.newTitle, DefaultTitle))
    ensures Resolution(records, v, Hsl(hue), calls).response == Plain(500, Caught + CreateFailed)
    ensures Resolution(records, v, Hsl(hue), calls).records == records
  {
    NewVerdictGetsOrCreates(records, v, Hsl(hue), calls);
    HslInsertFails(records, Or(v.newTitle, DefaultTitle), hue);
  }

  /** With the pastel colour written as `#rrggbb`, recovery creation for an
      unknown id succeeds: one category titled with the trimmed id is added
      and returned. */
  lemma HexRecoveryCreates(records: seq<Category>, v: Verdict, hue: nat, calls: seq<Call>)
    requires WellFormed(records) && hue < 360
    requires v.action == Existing && !BlankId(v.categoryId)
    requires forall c :: c in records ==> NatToDecimal(c.id) != v.categoryId.value
    requires forall c :: c in records ==> c.title != StoredTitle(v.categoryId.value)
    ensures var created := Category(|records|, StoredTitle(v.categoryId.value), Some(PastelHex(hue)));
      Resolution(records, v, PastelHex(hue), calls)
      == Outcome(Resolved(NatToDecimal(|records|), created.title, "existing", v.reasoning),
                 records + [created],
                 calls + [GetOrCreateCall(v.categoryId.value, PastelHex(hue))])
  {
    UnknownIdGetsOrCreates(records, v, PastelHex(hue), calls);
    PastelHexValid(hue);
    AbsentTitleInserted(records, v.categoryId.value, PastelHex(hue));
  }

  /** With the same corrected colour, a "new" verdict without a colour for a
      non-blank title that is not stored yet succeeds: one category with the
      trimmed title is added and returned. */
  lemma HexNewCategoryCreates(records: seq<Category>, v: Verdict, hue: nat, calls: seq<Call>)
    requires WellFormed(records) && hue < 360
    requires v.action == New && !Truthy(v.newColor) && !IsBlank(Or(v.newTitle, DefaultTitle))
    requires forall c :: c in records ==> c.title != StoredTitle(Or(v.newTitle, DefaultTitle))
    ensures var title := Or(v.newTitle, DefaultTitle);
      var created := Category(|records|, StoredTitle(title), Some(PastelHex(hue)));
      Resolution(records, v, PastelHex(hue), calls)
      == Outcome(Resolved(NatToDecimal(|records|), created.title, "new", v.reasoning),
                 records + [created],
                 calls + [GetOrCreateCall(title, PastelHex(hue))])
  {
    NewVerdictGetsOrCreates(records, v, PastelHex(hue), calls);
    PastelHexValid(hue);
    AbsentTitleInserted(records, Or(v.newTitle, DefaultTitle), PastelHex(hue));
  }
}
