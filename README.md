# Journal: category resolution and the journal store, in Dafny

This project models the core of a journaling web application. Users write
mood-tagged entries. The `POST /api/categorize` route gives each entry a
topical category: it asks a language model for a verdict, then either reuses
a stored category or creates one. The model covers:

- **The categorisation route** (`CategorizeRoute`, with its properties in
  `CategorizeProperties`). It models the request gate, reading the classifier's
  reply and removing code fences, the verdict schema, the decision tree over
  `"existing"`/`"new"`, and the handler as a method on the category store. The
  handler's outcome is a function of the collection, the request, the reply,
  the JSON parser and the random hue. It returns the response, the collection
  afterwards, and the calls made in order: listing, classifier call, and
  get-or-create.
- **The category store** (`CategoryModel`, `CategoryActions`). It models the
  schema: a trimmed, required, unique title, and a colour that must be `#` plus
  three or six hex digits. It also models listing by title, lookup by title,
  and get-or-create, as a class over the sequence of stored records.
- **The journal store** (`JournalModel`, `JournalActions`). It models the
  schema, `createJournal`'s ordered guard chain, fetch by id, a user's journals
  newest first, update and delete, as a class over a map from id to journal.
- **String primitives** (`Text`). These are ECMAScript `trim`, the decimal
  rendering of an id, and a prefix test.

Environment inputs are parameters:

- the authenticated user id (`Option<string>`);
- the classifier's reply (`Reply`);
- `JSON.parse` (a function `string -> Option<Json>`);
- the random hue (a `nat` below 360);
- the clock (`now`).

Category ids are the positions at which the store inserted them. `String(_id)`
is their decimal rendering. Journal ids are handed out in increasing order.

Two points where the model follows the code rather than the evident intent:

- The intended policy for `createCategory` is to retry the lookup once when
  the insert hits the unique index on `title`. The code has no retry: every
  refused insert ends in `GetOrCreate`'s error branch, "Failed to create
  category", with nothing written (`CategoryActions.RefusedInsertFails` for a
  blank title or a bad colour). In this sequential model a duplicate title
  cannot reach the insert at all, because the lookup just before it finds the
  stored record (`CategoryActions.NoDuplicateRejection`).
- The `"General"` fallback of `categoryId || "General"` in the recovery branch
  can never be taken (`CategorizeRoute.UnknownIdBecomesTitle`).

Library behaviour the model relies on (Mongoose 6 or later):

- The `trim` setter applies to stored titles and to `findOne` filters.
- The `match` validator skips `null` and `""`.
- `required` on an array accepts `[]`.
- `findByIdAndUpdate` drops `undefined` fields, strips the immutable
  `aiGeneratedCategory`, and runs no validators.

## Model

| member | source | states |
|---|---|---|
| Text.Trim | app/api/categorize/route.ts:111 | the result is a prefix of what `TrimStart` keeps, with only whitespace after it in that suffix. So the input is whitespace, the result, then whitespace, and the result neither starts nor ends with whitespace |
| Text.TrimStart | app/api/categorize/route.ts:26 | the result is a suffix of the input, everything dropped is whitespace, and what is kept does not start with whitespace |
| Text.TrimEnd | app/api/categorize/route.ts:26 | the result is a prefix of the input, everything dropped is whitespace, and what is kept does not end with whitespace |
| Text.TrimKeepsTrimmed | lib/models/Category.model.ts:8 | a string with no surrounding whitespace is left unchanged by trimming |
| Text.TrimIdempotent | lib/models/Category.model.ts:8 | trimming an already trimmed title changes nothing |
| Text.BlankIffAllWhitespace | app/api/categorize/route.ts:26 | `s.trim() === ""` holds exactly when every character of `s` is whitespace |
| Text.NatToDecimal | app/api/categorize/route.ts:132 | `String(id)` is a non-empty string of decimal digits |
| Text.DecimalRoundTrip | app/api/categorize/route.ts:139 | reading back the rendering of an id gives the id |
| Text.DecimalInjective | app/api/categorize/route.ts:139 | two ids with the same rendering are the same id, so comparing `String(c._id)` identifies one category |
| CategoryModel.ValidColor | lib/models/Category.model.ts:12-16 | the `match` validator on `color`: a missing or empty colour passes, any other must be `#` and three or six hex digits |
| CategoryModel.ValidTitle | lib/models/Category.model.ts:5-10 | `required` on the trimmed `title`: non-empty and without surrounding whitespace |
| CategoryModel.WellFormed | lib/models/Category.model.ts:3-21 | every stored record satisfies the schema, titles are unique, and each id is the record's insertion position |
| CategoryModel.StoredTitleValid | lib/models/Category.model.ts:5-10 | after the trim setter, a title satisfies `required` exactly when it was not blank |
| CategoryModel.Hsl | app/api/categorize/route.ts:146 | the fallback colour is `hsl(`, the hue in decimal, and `, 70%, 80%)`. The hue reads back from the string |
| CategoryModel.HslColorRejected | lib/models/Category.model.ts:12-16 | no `hsl(h, 70%, 80%)` string passes the colour pattern |
| CategoryModel.PastelHex | app/api/categorize/route.ts:146 | the pastel colour for a hue written as `#` and six characters |
| CategoryModel.PastelHexValid | app/api/categorize/route.ts:146 | the `#rrggbb` pastel colour passes the colour pattern for every hue below 360 |
| CategoryModel.Channel | app/api/categorize/route.ts:146 | each channel of the 70% saturation, 80% lightness colour lies between 168 and 240 |
| CategoryActions.TitleLeTotal | lib/actions/Category.actions.ts:9 | any two titles are comparable in the title order |
| CategoryActions.TitleLeTransitive | lib/actions/Category.actions.ts:9 | the title order is transitive |
| CategoryActions.InsertKeepsSorted | lib/actions/Category.actions.ts:9 | inserting into a title-sorted list keeps it sorted |
| CategoryActions.SortByTitle | lib/actions/Category.actions.ts:9 | `sort({ title: 1 })` gives a permutation of the collection ordered by title ascending |
| CategoryActions.FindTitle | lib/actions/Category.actions.ts:20 | `findOne({ title })` finds a stored record with exactly that title, or reports that none has it |
| CategoryActions.InsertCheck | lib/models/Category.model.ts:5-16 | an insert is accepted exactly when the title is non-empty and trimmed, the colour passes `match`, and no stored record has the title |
| CategoryActions.GetOrCreate | lib/actions/Category.actions.ts:28-44 | a success returns a stored record with the trimmed title. A failure is "Failed to create category" with nothing written. At most one record is appended |
| CategoryActions.ExistingTitleReturned | lib/actions/Category.actions.ts:33-36 | a title already stored after trimming returns that very record, whatever the colour, with no write |
| CategoryActions.AbsentTitleInserted | lib/actions/Category.actions.ts:38-39 | a new non-blank title with a valid colour appends exactly one record with a fresh id, the trimmed title and that colour |
| CategoryActions.RefusedInsertFails | lib/actions/Category.actions.ts:38-43 | a new title that is blank, or has a colour outside the pattern, fails with the generic message and no write, without retrying |
| CategoryActions.HslInsertFails | lib/actions/Category.actions.ts:38-43 | get-or-create with an `hsl(...)` colour fails for every title not already stored |
| CategoryActions.NoDuplicateRejection | lib/models/Category.model.ts:9 | in a sequential run the unique index never fires after the lookup missed |
| CategoryActions.GetOrCreatePreserves | lib/models/Category.model.ts:3-21 | get-or-create keeps the collection well formed: valid titles and colours, unique titles, ids equal to positions |
| CategoryActions.GetOrCreateIdempotent | lib/actions/Category.actions.ts:32-36 | a second get-or-create with the same title, after a successful first, returns the same record and writes nothing |
| CategoryActions.CategoryStore.GetAll | lib/actions/Category.actions.ts:6-15 | every stored category exactly once, ordered by title ascending |
| CategoryActions.CategoryStore.FindByTitle | lib/actions/Category.actions.ts:17-26 | the record stored under the trimmed title, or none exactly when no record has that title |
| CategoryActions.CategoryStore.Create | lib/actions/Category.actions.ts:28-44 | the store's new contents and the result are those of get-or-create, and the store stays well formed |
| CategorizeRoute.Or | app/api/categorize/route.ts:161-162 | `a \|\| b` on an optional string: `a` when it is present and non-empty, else `b` |
| CategorizeRoute.Gate | app/api/categorize/route.ts:22-28 | 401 without a truthy user id. Otherwise 400 when the content is missing or all whitespace. The request passes exactly when neither applies |
| CategorizeRoute.EntryText | app/api/categorize/route.ts:43-46 | the classifier gets the content at the end. A present, non-empty title comes first as a `Title:` line. Without one, the content alone |
| CategorizeRoute.TextParts | app/api/categorize/route.ts:101 | the filter keeps exactly the parts of type `'text'`: every kept part comes from the reply, and every `'text'` part is kept |
| CategorizeRoute.TextPartsAppend | app/api/categorize/route.ts:101 | filtering two runs of parts is filtering the first, then the second, so the kept parts stay in reply order |
| CategorizeRoute.PartTexts | app/api/categorize/route.ts:102 | one string per part, the i-th being `parts[i].text \|\| ''` |
| CategorizeRoute.FlattenPartsInOrder | app/api/categorize/route.ts:99-106 | the filter, map and join pipeline is the in-order concatenation of the texts of the `'text'` parts, with empty text for a part without text |
| CategorizeRoute.Flatten | app/api/categorize/route.ts:99-107 | a string reply is used as it is. An array reply becomes the in-order concatenation of the texts of its `'text'` parts |
| CategorizeRoute.NoTextPartsFlattenEmpty | app/api/categorize/route.ts:99-103 | an array reply with no `'text'` part flattens to the empty string |
| CategorizeRoute.StripFences | app/api/categorize/route.ts:111 | the global fence replace never lengthens the text |
| CategorizeRoute.NoFenceUnchanged | app/api/categorize/route.ts:111 | text without three backticks in a row passes through the replace unchanged |
| CategorizeRoute.ClosingFenceRemoved | app/api/categorize/route.ts:111 | a closing `\n` + three backticks after fence-free text is removed and nothing else is |
| CategorizeRoute.FencedPayloadCleaned | app/api/categorize/route.ts:111 | a payload inside a json code fence is cleaned to the trimmed payload |
| CategorizeRoute.Clean | app/api/categorize/route.ts:111 | the cleaned reply is no longer than the reply and has no surrounding whitespace. A reply without fences is only trimmed |
| CategorizeRoute.Validate | app/api/categorize/route.ts:10-16 | a parsed value is accepted exactly when it conforms to the schema, and the verdict carries its action and reasoning |
| CategorizeRoute.ValidateEncode | app/api/categorize/route.ts:10-16 | validating the JSON encoding of a verdict gives the verdict back |
| CategorizeRoute.EncodeValidated | app/api/categorize/route.ts:10-16 | a value that passes the schema is, on the schema's keys, the encoding of its verdict. Other keys are dropped |
| CategorizeRoute.FindId | app/api/categorize/route.ts:138-140 | finds a snapshot category whose rendered id equals the given id, or reports that none does |
| CategorizeRoute.FindTitleOf | app/api/categorize/route.ts:130 | finds a snapshot category titled exactly `newCategoryTitle`. An undefined title matches none |
| CategorizeRoute.Decide | app/api/categorize/route.ts:128-171 | a reused category comes from the snapshot. A 400 occurs only for "existing" with a missing or blank id. "new" plans a creation with `newCategoryTitle \|\| "General"` and `newCategoryColor \|\| fallback` |
| CategorizeRoute.UnknownIdBecomesTitle | app/api/categorize/route.ts:142-146 | an unknown non-blank id is itself the title of the category to create, never "General" |
| CategorizeRoute.ReadVerdict | app/api/categorize/route.ts:92-122 | an empty reply gives the caught "No content received from AI". Cleaned text that does not parse gives "AI returned invalid JSON". A parsed value is accepted exactly when it conforms, as `Validate`'s verdict; otherwise the error carries the caught-error prefix |
| CategorizeRoute.Resolution | app/api/categorize/route.ts:125-178 | a refusal is a 400 or a 500. A resolved response echoes the verdict's action and reasoning. The collection changes only by one appended record with a valid colour, together with one more call |
| CategorizeRoute.Respond | app/api/categorize/route.ts:18-190 | a refusal is a 400, 401 or 500. A resolved response names the action "existing" or "new". The collection only gains one record, with a valid colour, at its end |
| CategorizeRoute.PostOutcome | app/api/categorize/route.ts:146-162 | as written, the handler never stores its `hsl` fallback colour: no appended record carries it |
| CategorizeRoute.Post | app/api/categorize/route.ts:18-190 | the response, the store's new contents and the calls made equal the handler's outcome with the `hsl` fallback colour, and the store stays well formed |
| CategorizeRoute.Resolve | app/api/categorize/route.ts:125-178 | the decision tree run against the store equals its functional outcome |
| CategorizeProperties.MissingUserUnauthorized | app/api/categorize/route.ts:22-24 | without a user id: 401, no call made, nothing written |
| CategorizeProperties.BlankContentRejected | app/api/categorize/route.ts:26-28 | with a user id but missing or whitespace-only content: 400, no call made, nothing written |
| CategorizeProperties.RefusedReplyWritesNothing | app/api/categorize/route.ts:92-122 | an absent, unparsable or non-conforming reply gives 500 after only the listing and the classifier call, with nothing written |
| CategorizeProperties.InvalidJsonRefused | app/api/categorize/route.ts:113-119 | cleaned text that is not JSON gives 500 "AI returned invalid JSON" with nothing written |
| CategorizeProperties.SchemaViolationRefused | app/api/categorize/route.ts:122 | a bad `categoryAction` or `reasoning` gives a 500 with the caught-error prefix and nothing written |
| CategorizeProperties.FencedVerdictResolved | app/api/categorize/route.ts:111-122 | a fenced reply whose payload parses to a verdict's encoding is resolved as that verdict |
| CategorizeProperties.InSnapshot | app/api/categorize/route.ts:36 | the title-sorted snapshot holds exactly the stored categories |
| CategorizeProperties.KnownIdReused | app/api/categorize/route.ts:138-158 | "existing" with a stored id returns that category's id and title, echoes action and reasoning, and writes nothing |
| CategorizeProperties.MintResolves | app/api/categorize/route.ts:148-154 | a planned creation makes exactly one get-or-create call, and answers with the created or found category's id and title, or 500 with the caught "Failed to create category" |
| CategorizeProperties.UnknownIdGetsOrCreates | app/api/categorize/route.ts:142-154 | "existing" with an unknown non-blank id calls get-or-create with the id as title and the fallback colour, and answers with its result or a 500 |
| CategorizeProperties.BlankIdTitleReused | app/api/categorize/route.ts:129-133 | "existing" with a missing or blank id reuses the category titled exactly `newCategoryTitle`, with no write |
| CategorizeProperties.BlankIdWithoutMatchRefused | app/api/categorize/route.ts:129-136 | "existing" with a missing or blank id and no title match gives 400 "Category ID missing for existing category" with no write |
| CategorizeProperties.NewVerdictGetsOrCreates | app/api/categorize/route.ts:160-170 | "new" calls get-or-create with the title or "General" and the colour or the fallback, and answers with its result or a 500 |
| CategorizeProperties.ResolvedCategoryStored | app/api/categorize/route.ts:173-178 | a resolved response names a category present in the collection afterwards, and the collection stays well formed |
| CategorizeProperties.ResolutionWritesOnlyWhenMinting | app/api/categorize/route.ts:125-171 | the decision tree writes only through its one get-or-create call, and adds at most one record |
| CategorizeProperties.AdmittedResolves | app/api/categorize/route.ts:36-128 | past the gate and with a valid verdict, the handler is the decision tree after the listing and the classifier call |
| CategorizeProperties.WritesOnlyThroughGetOrCreate | app/api/categorize/route.ts:18-190 | the handler writes nothing unless it called get-or-create. It only ever appends, at most one category |
| CategorizeProperties.HslRecoveryFails | app/api/categorize/route.ts:142-154 | as written, recovery creation for an unknown id with an unstored title always answers 500 "Failed to categorize entry: Failed to create category" and writes nothing |
| CategorizeProperties.HslNewCategoryFails | app/api/categorize/route.ts:160-167 | as written, "new" without a colour, for an unstored title, answers 500 and writes nothing |
| CategorizeProperties.HexRecoveryCreates | app/api/categorize/route.ts:142-154 | with a `#rrggbb` fallback, recovery creation appends the category with the trimmed id as title and resolves to it |
| CategorizeProperties.HexNewCategoryCreates | app/api/categorize/route.ts:160-170 | with a `#rrggbb` fallback, a colour-less "new" verdict for a non-blank, unstored title appends the category with the trimmed title and resolves to it |
| JournalModel.ValidJournal | lib/models/Journal.model.ts:3-44 | the schema's validators: title of at most 100 characters, every block typed "text" or "image", mood in the enum, owner present |
| JournalModel.SchemaViolation | lib/models/Journal.model.ts:3-44 | no violation exactly when the title has at most 100 characters, every block is "text" or "image", the mood is one of five, and the owner is non-empty |
| JournalActions.Guard | lib/actions/Journal.actions.ts:48-65 | all checks pass exactly when the caller is the signed-in owner, the title is non-blank, the content is a non-empty array and the mood is one of the five |
| JournalActions.NewJournal | lib/actions/Journal.actions.ts:47-82 | a success is the document built from the arguments, it satisfies the schema and has content. Every failure carries "Failed to create journal: " |
| JournalActions.UnauthorizedFirst | lib/actions/Journal.actions.ts:48-52 | a missing, empty or different signed-in user fails as "Unauthorized" before any other check |
| JournalActions.BlankTitleRefused | lib/actions/Journal.actions.ts:54-56 | for the owner, a missing or whitespace-only title fails on the title whatever else is given |
| JournalActions.EmptyContentRefused | lib/actions/Journal.actions.ts:58-60 | with a usable title, missing or empty content fails on the content whatever the mood |
| JournalActions.UnknownMoodRefused | lib/actions/Journal.actions.ts:62-65 | with title and content in order, a mood outside the five fails as "Invalid mood provided" |
| JournalActions.FormMoodsMostlyRefused | components/form/EntryForm.tsx:36 | every mood the entry form offers except "happy", its default "calm" included, is refused by `createJournal` |
| JournalActions.SchemaRefusals | lib/models/Journal.model.ts:24-38 | once the guards pass, creation fails exactly for a title over 100 characters or a block of an unknown type |
| JournalActions.ApplyPatch | lib/actions/Journal.actions.ts:123-132 | `findByIdAndUpdate` as written: a given title, content or mood replaces the stored one, an undefined one keeps it, and owner, category and creation time stay |
| JournalActions.PatchKeepsFixedFields | lib/actions/Journal.actions.ts:123-132 | an update replaces exactly the given title, content and mood. It never changes owner, creation time or, the path being immutable, the category |
| JournalActions.LongTitle | lib/models/Journal.model.ts:26 | a title one character over the limit |
| JournalActions.PatchBypassesSchema | lib/actions/Journal.actions.ts:123-132 | as written, an update with a 101-character title or an unknown mood turns a valid journal into one the schema refuses |
| JournalActions.ValidatedPatch | lib/actions/Journal.actions.ts:123-132 | with validators run, an accepted update satisfies the schema, and a refused one is exactly a patched journal the schema refuses |
| JournalActions.ValidPatchAccepted | lib/actions/Journal.actions.ts:123-132 | a patch whose given fields satisfy the schema, applied to a valid journal, is accepted |
| JournalActions.OwnedBelow | lib/actions/Journal.actions.ts:105 | `find({ userId })`: exactly the stored journals of the user, by increasing id |
| JournalActions.InsertKeepsNewestFirst | lib/actions/Journal.actions.ts:105 | inserting into a newest-first list keeps it newest first |
| JournalActions.SortNewestFirst | lib/actions/Journal.actions.ts:105 | `sort({ createdAt: -1 })` gives a permutation ordered newest first |
| JournalActions.DistinctIdsOnce | lib/actions/Journal.actions.ts:105 | journals with distinct ids each occur once |
| JournalActions.ByUser | lib/actions/Journal.actions.ts:101-111 | exactly the user's journals, each once, newest first |
| JournalActions.JournalStore.Create | lib/actions/Journal.actions.ts:40-83 | a success adds exactly one journal, the built document, under a fresh id. A failure changes nothing |
| JournalActions.JournalStore.GetById | lib/actions/Journal.actions.ts:85-99 | the stored journal, or "Failed to fetch journal: Journal not found" exactly when the id is unknown |
| JournalActions.JournalStore.GetByUser | lib/actions/Journal.actions.ts:101-111 | exactly the user's journals, each once, newest first |
| JournalActions.JournalStore.Update | lib/actions/Journal.actions.ts:113-145 | as written: the patched journal replaces the stored one. An unknown id gives "Failed to update journal: Journal not found" and changes nothing |
| JournalActions.JournalStore.UpdateValidated | lib/actions/Journal.actions.ts:113-145 | the validated update keeps every stored journal within the schema. A refusal or an unknown id changes nothing |
| JournalActions.JournalStore.Delete | lib/actions/Journal.actions.ts:147-163 | the journal is removed and returned. An unknown id gives "Failed to delete journal: Journal not found" and changes nothing |
| JournalActions.CreateThenFetch | lib/actions/Journal.actions.ts:69-95 | after a create, the new id holds the created journal, it is listed for its owner, and every earlier journal is unchanged |
| JournalActions.DeleteUnlists | lib/actions/Journal.actions.ts:151 | after a delete, the journal is no longer listed and every other journal of the user still is |

## Left out

- Database connection and driver failures are not modelled. These are `connectToDB`, the failures behind "Failed to fetch categories" and "Failed to fetch user journals", and network errors. The model treats the collections as always reachable.
- The classifier call is an input, not a call. This covers the prompt text, the model name and the OpenRouter SDK's errors. The only call modelled is `Classify`, with the entry text it is passed.
- `JSON.parse` is a parameter, not an implementation. `req.json()` failing is a `Result` error. Non-string request fields are not modelled.
- The message text Zod produces for a schema violation is not modelled. The model keeps only the 500 response carrying the caught-error prefix.
- `Math.random` is the `hue` parameter and `Date.now` is the `now` parameter.
- Mongo `ObjectId`s are modelled as insertion positions rendered in decimal, and journal ids as nats. Malformed id strings, which make `findById` throw a cast error, are not modelled. Casting `aiGeneratedCategory` to an `ObjectId` is not modelled either: it is an opaque string.
- Concurrency is not modelled. The model is sequential, so the unique-index rejection it includes can never fire (`CategoryActions.NoDuplicateRejection`). A race between two creations is outside the model.
- String lengths are counted in code points rather than UTF-16 code units. This affects `maxlength: 100` only for characters outside the Basic Multilingual Plane.
- `JournalModel.SchemaViolation` reports only the first violated path. Mongoose reports all of them.
- JournalActions.NewJournal: the text after "Journal validation failed" is the path name, not Mongoose's full message.
- Ties in `createdAt` are left in whatever order the sort produces. Mongo's order for ties is unspecified, and the model promises only newest first.
- `revalidatePath`, logging, and the conversion of returned documents to plain JSON are omitted. None affects state or results.
- The presentation files (forms, sidebar, layouts) and the `AIConversation` model are not part of this model. The only exception is the form's mood vocabulary, used in `JournalActions.FormMoodsMostlyRefused`.
- The entry form itself is not modelled. It passes the content as one string, not as a list of blocks; in `CreateParams` that is `content == None`, so `JournalActions.EmptyContentRefused` shows every form submission refused on its content before its mood is looked at.

## Findings

| source | as written | input that shows it | evidently intended | confidence | as-written member | corrected member |
|---|---|---|---|---|---|---|
| app/api/categorize/route.ts:146 | the recovery branch's fallback colour is an `hsl(h, 70%, 80%)` string, but the colour path only accepts `#` plus three or six hex digits (lib/models/Category.model.ts:14) | verdict `{"categoryAction":"existing","categoryId":"Travel","reasoning":"r"}` with no category titled "Travel": `Category.create` is refused, and the response is 500 "Failed to categorize entry: Failed to create category" | the recovery branch creates the category with a random pastel colour | high, not executed | CategorizeProperties.HslRecoveryFails | CategorizeProperties.HexRecoveryCreates |
| app/api/categorize/route.ts:162 | the same `hsl(...)` fallback is used when a "new" verdict carries no colour | verdict `{"categoryAction":"new","newCategoryTitle":"Travel","reasoning":"r"}` with no category titled "Travel": the response is 500 "Failed to categorize entry: Failed to create category" | a colour-less "new" verdict creates the category with a random pastel colour | high, not executed | CategorizeProperties.HslNewCategoryFails | CategorizeProperties.HexNewCategoryCreates |
| lib/actions/Journal.actions.ts:123 | `findByIdAndUpdate` runs without `runValidators`, so none of the schema's validators apply to an update | updating a valid journal with a 101-character title, or with mood "calm", stores it | an update keeps every stored journal within the schema (`maxlength`, the mood `enum`, the block `type` enum) | high, not executed | JournalActions.PatchBypassesSchema | JournalActions.ValidatedPatch |
