/** The Journal collection's schema: an optional title of at most 100
    characters, a list of content blocks each typed "text" or "image", one of
    five moods, the owner's user id, an immutable reference to a category and
    a creation time. */
module JournalModel {
  import opened Wrappers
  import opened Text

  /** The mood vocabulary, shared by the schema's `enum` and the create
      action's own check. */
  const Moods: seq<string> := ["very-sad", "sad", "neutral", "happy", "very-happy"]

  /** The content block `type` enum. */
  const BlockKinds: seq<string> := ["text", "image"]

  /** `maxlength` on `title`. */
  const MaxTitleLength := 100

  datatype Image = Image(url: Option<string>, alt: Option<string>, caption: Option<string>)

  /** A content block: its `type`, optional text and optional image. */
  datatype Block = Block(kind: string, text: Option<string>, image: Option<Image>)

  /** A stored journal. `category` stands for the `aiGeneratedCategory`
      reference (the category's id as a string), `createdAt` for the time
      stamp the schema defaults to the insertion time. */
  datatype Journal = Journal(title: string, content: seq<Block>, mood: string, userId: string,
                             category: Option<string>, createdAt: int)

  /** `type` is required and one of the enum's values. */
  predicate ValidBlock(b: Block) {
    b.kind in BlockKinds
  }

  predicate ValidMood(mood: string) {
    mood in Moods
  }

  /** What the schema's validators accept: the title within its length
      limit, every block typed, the mood in the enum and the owner present
      (a `required` string is not empty). An empty content array satisfies
      `required` on an array. */
  predicate ValidJournal(j: Journal) {
    && |j.title| <= MaxTitleLength
    && (forall k :: 0 <= k < |j.content| ==> ValidBlock(j.content[k]))
    && ValidMood(j.mood)
    && j.userId != ""
  }

  /** The first schema violation of a document, by path, or `None` when the
      validators accept it. */
  function SchemaViolation(j: Journal): (r: Option<string>)
    ensures r.None? <==> ValidJournal(j)
    ensures r.Some? ==> r.value in ["title", "content.type", "mood", "userId"]
  {
    if |j.title| > MaxTitleLength then Some("title")
    else if exists k :: 0 <= k < |j.content| && !ValidBlock(j.content[k]) then Some("content.type")
    else if !ValidMood(j.mood) then Some("mood")
    else if j.userId == "" then Some("userId")
    else None
  }
}
