/** The journal server actions: create with its ordered guards, fetch by id,
    list a user's journals newest first, update, and delete. The Journal
    collection is the `journals` map of a `JournalStore`; ids are handed out
    in increasing order. */
module JournalActions {
  import opened Wrappers
  import opened Text
  import opened JournalModel

  const CreatePrefix := "Failed to create journal: "
  const FetchPrefix := "Failed to fetch journal: "
  const UpdatePrefix := "Failed to update journal: "
  const DeletePrefix := "Failed to delete journal: "

  const Unauthorized := "Unauthorized"
  const TitleRequired := "Title is required and must be a non-empty string"
  const ContentRequired := "Content is required and cannot be empty"
  const InvalidMood := "Invalid mood provided"
  const NotFound := "Journal not found"
  /** The head of the message Mongoose gives a document its validators refuse. */
  const CreateValidationFailed := "Journal validation failed"
  /** The head of the message Mongoose gives an update its validators refuse. */
  const UpdateValidationFailed := "Validation failed"

  /** The arguments of `createJournal`. `content` is `None` when it is missing
      or not an array; `category` is the optional `aiGeneratedCategory`. */
  datatype CreateParams = CreateParams(title: Option<string>, content: Option<seq<Block>>, mood: string,
                                       userId: string, category: Option<string>)

  /** A stored journal together with its id, as the actions return it. */
  datatype Entry = Entry(id: nat, journal: Journal)

  // ---------------------------------------------------------------------------
  // createJournal.

  /** The signed-in user is present (a non-empty id) and is the owner the
      caller names. */
  predicate Authorized(authId: Option<string>, userId: string) {
    authId.Some? && authId.value != "" && authId.value == userId
  }

  /** The action's own checks, in their order: the first that fails names the
      error; `None` when all pass. */
  function Guard(authId: Option<string>, p: CreateParams): (r: Option<string>)
    ensures r.None? <==>
      && Authorized(authId, p.userId)
      && p.title.Some? && !IsBlank(p.title.value)
      && p.content.Some? && p.content.value != []
      && ValidMood(p.mood)
  {
    if !Authorized(authId, p.userId) then Some(Unauthorized)
    else if p.title.None? || IsBlank(p.title.value) then Some(TitleRequired)
    else if p.content.None? || p.content.value == [] then Some(ContentRequired)
    else if !ValidMood(p.mood) then Some(InvalidMood)
    else None
  }

  /** The document `Journal.create` is given, once the guards have passed;
      `createdAt` takes the insertion time. */
  function Document(p: CreateParams, now: int): Journal
    requires p.title.Some? && p.content.Some?
  {
    Journal(p.title.value, p.content.value, p.mood, p.userId, p.category, now)
  }

  /** `createJournal` up to the insert: the document to insert, or the
      message the action throws. */
  function NewJournal(authId: Option<string>, p: CreateParams, now: int): (r: Result<Journal>)
    ensures r.Ok? <==> Guard(authId, p).None? && ValidJournal(Document(p, now))
    ensures r.Ok? ==> r.value == Document(p, now) && ValidJournal(r.value) && r.value.content != []
    ensures r.Err? ==> StartsWith(r.message, CreatePrefix)
  {
    match Guard(authId, p)
    case Some(m) =>
      assert (CreatePrefix + m)[..|CreatePrefix|] == CreatePrefix;
      Err(CreatePrefix + m)
    case None =>
      var doc := Document(p, now);
      match SchemaViolation(doc)
      case Some(path) =>
        var m := CreatePrefix + CreateValidationFailed + ": " + path;
        assert m[..|CreatePrefix|] == CreatePrefix;
        Err(m)
      case None => Ok(doc)
  }

  /** The check of the signed-in user comes before every other check. */
  lemma UnauthorizedFirst(authId: Option<string>, p: CreateParams, now: int)
    requires !Authorized(authId, p.userId)
    ensures NewJournal(authId, p, now) == Err(CreatePrefix + Unauthorized)
  {
  }

  /** A signed-in owner with a missing or whitespace-only title is refused
      for the title, whatever the content and mood. */
  lemma BlankTitleRefused(authId: Option<string>, p: CreateParams, now: int)
    requires Authorized(authId, p.userId)
    requires p.title.None? || AllWhitespace(p.title.value)
    ensures NewJournal(authId, p, now) == Err(CreatePrefix + TitleRequired)
  {
    if p.title.Some? {
      BlankIffAllWhitespace(p.title.value);
    }
  }

  /** With a usable title, missing or empty content is refused, whatever the
      mood. */
  lemma EmptyContentRefused(authId: Option<string>, p: CreateParams, now: int)
    requires Authorized(authId, p.userId) && p.title.Some? && !AllWhitespace(p.title.value)
    requires p.content.None? || p.content.value == []
    ensures NewJournal(authId, p, now) == Err(CreatePrefix + ContentRequired)
  {
    BlankIffAllWhitespace(p.title.value);
  }

  /** With title and content in order, a mood outside the five is refused
      before the document reaches the schema. */
  lemma UnknownMoodRefused(authId: Option<string>, p: CreateParams, now: int)
    requires Authorized(authId, p.userId) && p.title.Some? && !AllWhitespace(p.title.value)
    requires p.content.Some? && p.content.value != []
    requires !ValidMood(p.mood)
    ensures NewJournal(authId, p, now) == Err(CreatePrefix + InvalidMood)
  {
    BlankIffAllWhitespace(p.title.value);
  }

  /** The moods the entry form offers; its default is "calm". */
  const FormMoods: seq<string> := ["calm", "happy", "grateful", "reflective", "stressed"]

  /** Of the form's moods only "happy" passes the action's mood check, the
      default "calm" among those refused. The form itself never reaches that
      check: it sends the content as one string, not an array, and the
      content check refuses it first (`EmptyContentRefused` with `content`
      `None`). */
  lemma FormMoodsMostlyRefused(authId: Option<string>, p: CreateParams, now: int)
    requires Authorized(authId, p.userId) && p.title.Some? && !AllWhitespace(p.title.value)
    requires p.content.Some? && p.content.value != []
    requires p.mood in FormMoods && p.mood != "happy"
    ensures NewJournal(authId, p, now) == Err(CreatePrefix + InvalidMood)
  {
    UnknownMoodRefused(authId, p, now);
  }

  /** All checks passing, the document is refused only by the schema: for a
      title longer than 100 characters or a block of an unknown type. */
  lemma SchemaRefusals(authId: Option<string>, p: CreateParams, now: int)
    requires Guard(authId, p).None?
    ensures NewJournal(authId, p, now).Err? <==>
      |p.title.value| > MaxTitleLength || exists k :: 0 <= k < |p.content.value| && !ValidBlock(p.content.value[k])
  {
  }

  // ---------------------------------------------------------------------------
  // updateJournal.

  /** The fields `updateJournal` passes; `None` stands for `undefined`, which
      the update leaves out. */
  datatype Patch = Patch(title: Option<string>, content: Option<seq<Block>>, mood: Option<string>,
                         category: Option<string>)

  /** `findByIdAndUpdate` as written: each given field replaces the stored one,
      `aiGeneratedCategory` is stripped because the path is immutable, and no
      validator runs. */
  function ApplyPatch(j: Journal, p: Patch): (r: Journal)
    ensures r.title == (if p.title.Some? then p.title.value else j.title)
    ensures r.content == (if p.content.Some? then p.content.value else j.content)
    ensures r.mood == (if p.mood.Some? then p.mood.value else j.mood)
    ensures r.userId == j.userId && r.category == j.category && r.createdAt == j.createdAt
  {
    j.(title := GivenOr(p.title, j.title), content := GivenOr(p.content, j.content), mood := GivenOr(p.mood, j.mood))
  }

  /** The given value, or the stored one when the update leaves it out. */
  function GivenOr<T>(given: Option<T>, stored: T): T {
    if given.Some? then given.value else stored
  }

  /** An update touches only title, content and mood: the owner, the category
      and the creation time stay, and an empty patch changes nothing. */
  lemma PatchKeepsFixedFields(j: Journal, p: Patch)
    ensures var u := ApplyPatch(j, p);
      && u.userId == j.userId && u.category == j.category && u.createdAt == j.createdAt
      && (p.title.Some? ==> u.title == p.title.value) && (p.title.None? ==> u.title == j.title)
      && (p.content.Some? ==> u.content == p.content.value) && (p.content.None? ==> u.content == j.content)
      && (p.mood.Some? ==> u.mood == p.mood.value) && (p.mood.None? ==> u.mood == j.mood)
      && (p == Patch(None, None, None, None) ==> u == j)
  {
  }

  /** A title of 101 characters. */
  function LongTitle(): (t: string)
    ensures |t| == MaxTitleLength + 1
  {
    seq(MaxTitleLength + 1, _ => 'a')
  }

  /** As written the update bypasses the schema: a valid journal patched with
      a 101-character title, or with a mood outside the five, is stored
      although the schema refuses it. */
  lemma PatchBypassesSchema(j: Journal, mood: string)
    requires ValidJournal(j) && !ValidMood(mood)
    ensures !ValidJournal(ApplyPatch(j, Patch(Some(LongTitle()), None, None, None)))
    ensures !ValidJournal(ApplyPatch(j, Patch(None, None, Some(mood), None)))
  {
  }

  /** The update with the schema's validators run on it (`runValidators`):
      the patched journal, or the validation error with nothing changed. */
  function ValidatedPatch(j: Journal, p: Patch): (r: Result<Journal>)
    ensures r.Ok? ==> r.value == ApplyPatch(j, p) && ValidJournal(r.value)
    ensures r.Err? ==> !ValidJournal(ApplyPatch(j, p)) && StartsWith(r.message, UpdatePrefix)
  {
    var u := ApplyPatch(j, p);
    match SchemaViolation(u)
    case Some(path) =>
      var m := UpdatePrefix + UpdateValidationFailed + ": " + path;
      assert m[..|UpdatePrefix|] == UpdatePrefix;
      Err(m)
    case None => Ok(u)
  }

  /** The validated update accepts every patch whose given fields satisfy the
      schema, applied to a valid journal. */
  lemma ValidPatchAccepted(j: Journal, p: Patch)
    requires ValidJournal(j)
    requires p.title.Some? ==> |p.title.value| <= MaxTitleLength
    requires p.content.Some? ==> forall k :: 0 <= k < |p.content.value| ==> ValidBlock(p.content.value[k])
    requires p.mood.Some? ==> ValidMood(p.mood.value)
    ensures ValidatedPatch(j, p) == Ok(ApplyPatch(j, p))
  {
  }

  // ---------------------------------------------------------------------------
  // getJournalsByUser: `find({ userId }).sort({ createdAt: -1 })`.

  /** The entries with id below `n` that belong to `user`, by increasing id. */
  function OwnedBelow(journals: map<nat, Journal>, user: string, n: nat): (r: seq<Entry>)
    ensures forall e :: e in r <==> e.id < n && e.id in journals && journals[e.id] == e.journal && e.journal.userId == user
    ensures forall i, k :: 0 <= i < k < |r| ==> r[i].id < r[k].id
  {
    if n == 0 then []
    else
      var rest := OwnedBelow(journals, user, n - 1);
      var id := n - 1;
      if id in journals && journals[id].userId == user then rest + [Entry(id, journals[id])] else rest
  }

  predicate NewestFirst(s: seq<Entry>) {
    forall i, k :: 0 <= i < k < |s| ==> s[i].journal.createdAt >= s[k].journal.createdAt
  }

  /** Inserts `e` before the first entry that is not newer than it. */
  function InsertNewest(e: Entry, s: seq<Entry>): (r: seq<Entry>)
    ensures multiset(r) == multiset(s) + multiset{e}
  {
    if s == [] || s[0].journal.createdAt <= e.journal.createdAt then [e] + s
    else
      assert s == [s[0]] + s[1..];
      [s[0]] + InsertNewest(e, s[1..])
  }

  lemma {:induction false} InsertKeepsNewestFirst(e: Entry, s: seq<Entry>)
    requires NewestFirst(s)
    ensures NewestFirst(InsertNewest(e, s))
  {
    var r := InsertNewest(e, s);
    if s == [] || s[0].journal.createdAt <= e.journal.createdAt {
      assert r == [e] + s;
      forall i, k | 0 <= i < k < |r| ensures r[i].journal.createdAt >= r[k].journal.createdAt {
        if i == 0 {
          assert r[k] == s[k - 1];
          if k > 1 { assert s[0].journal.createdAt >= s[k - 1].journal.createdAt; }
        } else {
          assert r[i] == s[i - 1] && r[k] == s[k - 1];
        }
      }
    } else {
      var rest := InsertNewest(e, s[1..]);
      assert r == [s[0]] + rest;
      InsertKeepsNewestFirst(e, s[1..]);
      forall k | 0 <= k < |rest| ensures s[0].journal.createdAt >= rest[k].journal.createdAt {
        assert rest[k] in multiset(rest);
        assert rest[k] == e || rest[k] in s[1..];
      }
      forall i, k | 0 <= i < k < |r| ensures r[i].journal.createdAt >= r[k].journal.createdAt {
        assert r[k] == rest[k - 1];
        if i > 0 {
          assert r[i] == rest[i - 1];
        }
      }
    }
  }

  /** The entries ordered newest first: a permutation of the input. */
  function SortNewestFirst(s: seq<Entry>): (r: seq<Entry>)
    ensures multiset(r) == multiset(s)
    ensures NewestFirst(r)
  {
    if s == [] then []
    else
      assert s == [s[0]] + s[1..];
      var sorted := SortNewestFirst(s[1..]);
      InsertKeepsNewestFirst(s[0], sorted);
      InsertNewest(s[0], sorted)
  }

  /** Entries with distinct ids occur once each. */
  lemma {:induction false} DistinctIdsOnce(s: seq<Entry>)
    requires forall i, k :: 0 <= i < k < |s| ==> s[i].id < s[k].id
    ensures forall e :: e in s ==> multiset(s)[e] == 1
  {
    if s != [] {
      var init := s[..|s| - 1];
      var last := s[|s| - 1];
      assert s == init + [last];
      DistinctIdsOnce(init);
      assert last !in init;
    }
  }

  /** The user's journals, newest first. */
  function ByUser(journals: map<nat, Journal>, nextId: nat, user: string): (r: seq<Entry>)
    ensures forall e :: e in r <==> e.id < nextId && e.id in journals && journals[e.id] == e.journal && e.journal.userId == user
    ensures forall e :: e in r ==> multiset(r)[e] == 1
    ensures NewestFirst(r)
  {
    var owned := OwnedBelow(journals, user, nextId);
    DistinctIdsOnce(owned);
    SortNewestFirst(owned)
  }

  // ---------------------------------------------------------------------------
  // The store.

  class JournalStore {
    var journals: map<nat, Journal>
    var nextId: nat

    /** Every id in use was handed out, and each journal still has its owner
        (no update can clear it). */
    ghost predicate Valid()
      reads this
    {
      forall id :: id in journals ==> id < nextId && journals[id].userId != ""
    }

    /** Every stored journal satisfies the schema: what the validated update
        keeps and the update as written does not. */
    ghost predicate SchemaValid()
      reads this
    {
      Valid() && forall id :: id in journals ==> ValidJournal(journals[id])
    }

    constructor ()
      ensures SchemaValid() && journals == map[] && nextId == 0
    {
      journals := map[];
      nextId := 0;
    }

    /** `createJournal`: on success one journal, the document built from the
        arguments, is added under a fresh id; on failure nothing changes. */
    method Create(authId: Option<string>, p: CreateParams, now: int) returns (r: Result<Entry>)
      requires Valid()
      modifies this
      ensures Valid() && (old(SchemaValid()) ==> SchemaValid())
      ensures match NewJournal(authId, p, now)
        case Err(m) => r == Err(m) && journals == old(journals) && nextId == old(nextId)
        case Ok(j) =>
          && old(nextId) !in old(journals)
          && r == Ok(Entry(old(nextId), j))
          && journals == old(journals)[old(nextId) := j]
          && nextId == old(nextId) + 1
    {
      match NewJournal(authId, p, now)
      case Err(m) =>
        r := Err(m);
      case Ok(j) =>
        var id := nextId;
        journals := journals[id := j];
        nextId := nextId + 1;
        r := Ok(Entry(id, j));
    }

    /** `getJournalById`. */
    method GetById(id: nat) returns (r: Result<Entry>)
      ensures id in journals ==> r == Ok(Entry(id, journals[id]))
      ensures id !in journals ==> r == Err(FetchPrefix + NotFound)
    {
      if id !in journals {
        return Err(FetchPrefix + NotFound);
      }
      r := Ok(Entry(id, journals[id]));
    }

    /** `getJournalsByUser`: exactly the user's journals, each once, newest
        first. */
    method GetByUser(user: string) returns (r: seq<Entry>)
      requires Valid()
      ensures forall e :: e in r <==> e.id in journals && journals[e.id] == e.journal && e.journal.userId == user
      ensures forall e :: e in r ==> multiset(r)[e] == 1
      ensures NewestFirst(r)
    {
      r := ByUser(journals, nextId, user);
    }

    /** `updateJournal` as written: the given fields replace the stored ones
        without validation; an unknown id changes nothing. */
    method Update(id: nat, p: Patch) returns (r: Result<Entry>)
      requires Valid()
      modifies this
      ensures Valid() && nextId == old(nextId)
      ensures id in old(journals) ==>
        r == Ok(Entry(id, ApplyPatch(old(journals)[id], p))) && journals == old(journals)[id := r.value.journal]
      ensures id !in old(journals) ==> r == Err(UpdatePrefix + NotFound) && journals == old(journals)
    {
      if id !in journals {
        return Err(UpdatePrefix + NotFound);
      }
      var u := ApplyPatch(journals[id], p);
      journals := journals[id := u];
      r := Ok(Entry(id, u));
    }

    /** The update with validators run: a refused patch changes nothing, so
        the schema holds of every stored journal afterwards. */
    method UpdateValidated(id: nat, p: Patch) returns (r: Result<Entry>)
      requires SchemaValid()
      modifies this
      ensures SchemaValid() && nextId == old(nextId)
      ensures id !in old(journals) ==> r == Err(UpdatePrefix + NotFound) && journals == old(journals)
      ensures id in old(journals) ==> match ValidatedPatch(old(journals)[id], p)
        case Err(m) => r == Err(m) && journals == old(journals)
        case Ok(u) => r == Ok(Entry(id, u)) && journals == old(journals)[id := u]
    {
      if id !in journals {
        return Err(UpdatePrefix + NotFound);
      }
      var checked := ValidatedPatch(journals[id], p);
      if checked.Err? {
        return Err(checked.message);
      }
      journals := journals[id := checked.value];
      r := Ok(Entry(id, checked.value));
    }

    /** `deleteJournal`: the journal is removed and returned; an unknown id
        changes nothing. */
    method Delete(id: nat) returns (r: Result<Entry>)
      requires Valid()
      modifies this
      ensures Valid() && (old(SchemaValid()) ==> SchemaValid()) && nextId == old(nextId)
      ensures id in old(journals) ==> r == Ok(Entry(id, old(journals)[id])) && journals == old(journals) - {id}
      ensures id !in old(journals) ==> r == Err(DeletePrefix + NotFound) && journals == old(journals)
    {
      if id !in journals {
        return Err(DeletePrefix + NotFound);
      }
      r := Ok(Entry(id, journals[id]));
      journals := journals - {id};
    }
  }

  // ---------------------------------------------------------------------------
  // Properties across operations.

  /** After a successful create, fetching the returned id gives the created
      journal back, and it is listed among its owner's journals. */
  lemma CreateThenFetch(journals: map<nat, Journal>, nextId: nat, j: Journal)
    requires forall id :: id in journals ==> id < nextId
    ensures var after := journals[nextId := j];
      && nextId in after && after[nextId] == j
      && Entry(nextId, j) in ByUser(after, nextId + 1, j.userId)
      && forall id :: id in journals ==> id in after && after[id] == journals[id]
  {
  }

  /** Deleting an entry removes it from its owner's listing and keeps every
      other entry listed. */
  lemma DeleteUnlists(journals: map<nat, Journal>, nextId: nat, id: nat, user: string)
    requires id in journals
    ensures var before := ByUser(journals, nextId, user);
      var after := ByUser(journals - {id}, nextId, user);
      && (forall e :: e in after ==> e.id != id)
      && (forall e :: e in before && e.id != id ==> e in after)
  {
  }
}
