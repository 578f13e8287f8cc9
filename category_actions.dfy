/** The category server actions: list every category ordered by title, look
    one up by title, and get-or-create by title. The Category collection is
    the `records` field of a `CategoryStore`, in insertion order. */
module CategoryActions {
  import opened Wrappers
  import opened Text
  import opened CategoryModel

  /** The message every failure of `createCategory` is rethrown as. */
  const CreateFailed := "Failed to create category"

  // ---------------------------------------------------------------------------
  // Ordering by title (`sort({ title: 1 })`): code-point lexicographic order.

  predicate TitleLe(a: string, b: string) {
    a == [] || (b != [] && (a[0] < b[0] || (a[0] == b[0] && TitleLe(a[1..], b[1..]))))
  }

  lemma {:induction false} TitleLeTotal(a: string, b: string)
    ensures TitleLe(a, b) || TitleLe(b, a)
  {
    if a != [] && b != [] && a[0] == b[0] {
      TitleLeTotal(a[1..], b[1..]);
    }
  }

  lemma {:induction false} TitleLeTransitive(a: string, b: string, c: string)
    requires TitleLe(a, b) && TitleLe(b, c)
    ensures TitleLe(a, c)
  {
    if a != [] && a[0] == b[0] && b[0] == c[0] {
      TitleLeTransitive(a[1..], b[1..], c[1..]);
    }
  }

  predicate SortedByTitle(s: seq<Category>) {
    forall i, j :: 0 <= i < j < |s| ==> TitleLe(s[i].title, s[j].title)
  }

  /** Inserts `c` before the first category whose title is not below it. */
  function InsertByTitle(c: Category, s: seq<Category>): (r: seq<Category>)
    ensures multiset(r) == multiset(s) + multiset{c}
  {
    if s == [] || TitleLe(c.title, s[0].title) then [c] + s
    else
      assert s == [s[0]] + s[1..];
      [s[0]] + InsertByTitle(c, s[1..])
  }

  /** A category placed before a sorted sequence whose titles are none below
      its own gives a sorted sequence. */
  lemma ConsSorted(x: Category, t: seq<Category>)
    requires SortedByTitle(t)
    requires forall k :: 0 <= k < |t| ==> TitleLe(x.title, t[k].title)
    ensures SortedByTitle([x] + t)
  {
    var r := [x] + t;
    forall i, j | 0 <= i < j < |r| ensures TitleLe(r[i].title, r[j].title) {
      assert r[j] == t[j - 1];
      if i > 0 {
        assert r[i] == t[i - 1];
      }
    }
  }

  /** Inserting into a title-sorted sequence keeps it sorted. */
  lemma {:induction false} InsertKeepsSorted(c: Category, s: seq<Category>)
    requires SortedByTitle(s)
    ensures SortedByTitle(InsertByTitle(c, s))
  {
    if s == [] || TitleLe(c.title, s[0].title) {
      forall k | 0 <= k < |s| ensures TitleLe(c.title, s[k].title) {
        if k > 0 { TitleLeTransitive(c.title, s[0].title, s[k].title); }
      }
      ConsSorted(c, s);
    } else {
      var rest := InsertByTitle(c, s[1..]);
      InsertKeepsSorted(c, s[1..]);
      TitleLeTotal(c.title, s[0].title);
      forall k | 0 <= k < |rest| ensures TitleLe(s[0].title, rest[k].title) {
        assert rest[k] in multiset(rest);
        assert rest[k] == c || rest[k] in s[1..];
      }
      ConsSorted(s[0], rest);
    }
  }

  /** The categories ordered by title ascending: a permutation of the input. */
  function SortByTitle(s: seq<Category>): (r: seq<Category>)
    ensures multiset(r) == multiset(s)
    ensures SortedByTitle(r)
  {
    if s == [] then []
    else
      assert s == [s[0]] + s[1..];
      var sorted := SortByTitle(s[1..]);
      InsertKeepsSorted(s[0], sorted);
      InsertByTitle(s[0], sorted)
  }

  // ---------------------------------------------------------------------------
  // Lookup and insertion.

  /** `findOne({ title })`: the record whose title is exactly `title`, if any. */
  function FindTitle(records: seq<Category>, title: string): (r: Option<Category>)
    ensures r.Some? ==> r.value in records && r.value.title == title
    ensures r.None? ==> forall c :: c in records ==> c.title != title
  {
    if records == [] then None
    else if records[0].title == title then Some(records[0])
    else FindTitle(records[1..], title)
  }

  /** Why the collection refuses a document. */
  datatype Rejection = TitleRequired | ColorPattern | DuplicateTitle

  /** `Category.create({ title, color })`'s validation: the trimmed title is
      required, the colour must pass `match`, and the unique index refuses a
      title that is already stored. */
  function InsertCheck(records: seq<Category>, title: string, color: Option<string>): (r: Option<Rejection>)
    ensures r.None? <==>
      ValidTitle(title) && ValidColor(color) && forall c :: c in records ==> c.title != title
  {
    if title == [] || !Trimmed(title) then Some(TitleRequired)
    else if !ValidColor(color) then Some(ColorPattern)
    else if FindTitle(records, title).Some? then Some(DuplicateTitle)
    else None
  }

  /** `createCategory` on the store's contents: the result and the new
      contents. A title that is stored after trimming is returned as stored;
      otherwise one record is appended, or the insert is refused and the error
      surfaces as "Failed to create category" with nothing written. */
  function GetOrCreate(records: seq<Category>, title: string, color: string): (out: (Result<Category>, seq<Category>))
    ensures out.0.Ok? ==> out.0.value in out.1 && out.0.value.title == StoredTitle(title)
    ensures out.0.Err? ==> out.0.message == CreateFailed && out.1 == records
    ensures out.1 == records || (out.0.Ok? && out.1 == records + [out.0.value])
    ensures out.1 != records ==> ValidTitle(out.0.value.title) && ValidColor(out.0.value.color)
  {
    var t := StoredTitle(title);
    match FindTitle(records, t)
    case Some(c) => (Ok(c), records)
    case None =>
      if InsertCheck(records, t, Some(color)).Some? then (Err(CreateFailed), records)
      else
        var c := Category(|records|, t, Some(color));
        (Ok(c), records + [c])
  }

  // ---------------------------------------------------------------------------
  // Properties of get-or-create.

  /** Unique titles identify a record's position. */
  lemma TitleIdentifiesIndex(records: seq<Category>, i: nat, j: nat)
    requires TitlesUnique(records)
    requires i < |records| && j < |records| && records[i].title == records[j].title
    ensures i == j
  {
  }

  /** A title already stored (after trimming) gives back that very record,
      whatever colour is supplied, and nothing is written. */
  lemma ExistingTitleReturned(records: seq<Category>, title: string, color: string, i: nat)
    requires WellFormed(records)
    requires i < |records| && records[i].title == StoredTitle(title)
    ensures GetOrCreate(records, title, color) == (Ok(records[i]), records)
  {
    var t := StoredTitle(title);
    assert records[i] in records;
    var found := FindTitle(records, t);
    assert found.Some?;
    var j :| 0 <= j < |records| && records[j] == found.value;
    TitleIdentifiesIndex(records, i, j);
  }

  /** A title not stored yet, non-blank, with a colour that passes the
      constraint, adds exactly one record carrying the trimmed title, that
      colour and a fresh id; the records already there are unchanged. */
  lemma AbsentTitleInserted(records: seq<Category>, title: string, color: string)
    requires WellFormed(records)
    requires forall c :: c in records ==> c.title != StoredTitle(title)
    requires !IsBlank(title) && ValidColor(Some(color))
    ensures var out := GetOrCreate(records, title, color);
      && out.1 == records + [Category(|records|, StoredTitle(title), Some(color))]
      && out.0 == Ok(out.1[|records|])
  {
  }

  /** A title not stored yet whose insert the schema refuses (blank after
      trimming, or a colour outside the pattern) fails with the generic error
      and writes nothing; there is no retry. */
  lemma RefusedInsertFails(records: seq<Category>, title: string, color: string)
    requires forall c :: c in records ==> c.title != StoredTitle(title)
    requires IsBlank(title) || !ValidColor(Some(color))
    ensures GetOrCreate(records, title, color) == (Err(CreateFailed), records)
  {
  }

  /** An `hsl(...)` colour is refused whenever the title is not stored yet. */
  lemma HslInsertFails(records: seq<Category>, title: string, hue: nat)
    requires forall c :: c in records ==> c.title != StoredTitle(title)
    ensures GetOrCreate(records, title, Hsl(hue)) == (Err(CreateFailed), records)
  {
    HslColorRejected(hue);
  }

  /** In a sequential run the unique index never fires: when the lookup misses,
      no stored record carries the title. */
  lemma NoDuplicateRejection(records: seq<Category>, title: string, color: string)
    requires FindTitle(records, StoredTitle(title)).None?
    ensures InsertCheck(records, StoredTitle(title), Some(color)) != Some(DuplicateTitle)
  {
  }

  /** Get-or-create keeps the collection well formed. */
  lemma GetOrCreatePreserves(records: seq<Category>, title: string, color: string)
    requires WellFormed(records)
    ensures WellFormed(GetOrCreate(records, title, color).1)
  {
    var t := StoredTitle(title);
    if FindTitle(records, t).None? && InsertCheck(records, t, Some(color)).None? {
      var c := Category(|records|, t, Some(color));
      var s := records + [c];
      assert GetOrCreate(records, title, color).1 == s;
      forall i | 0 <= i < |s| ensures s[i].id == i && ValidTitle(s[i].title) && ValidColor(s[i].color) {
        if i < |records| {
          assert s[i] == records[i];
        }
      }
      forall i, j | 0 <= i < j < |s| ensures s[i].title != s[j].title {
        assert s[i] == records[i];
        if j == |records| {
          assert records[i] in records;
        } else {
          assert s[j] == records[j];
        }
      }
    }
  }

  /** Two successive calls with the same title return the same record; the
      second writes nothing. */
  lemma GetOrCreateIdempotent(records: seq<Category>, title: string, color1: string, color2: string)
    requires WellFormed(records)
    ensures var first := GetOrCreate(records, title, color1);
      var second := GetOrCreate(first.1, title, color2);
      first.0.Ok? ==> second.0 == first.0 && second.1 == first.1
  {
    var first := GetOrCreate(records, title, color1);
    if first.0.Ok? {
      GetOrCreatePreserves(records, title, color1);
      var c := first.0.value;
      var i :| 0 <= i < |first.1| && first.1[i] == c;
      ExistingTitleReturned(first.1, title, color2, i);
    }
  }

  // ---------------------------------------------------------------------------
  // The store.

  class CategoryStore {
    var records: seq<Category>

    ghost predicate Valid()
      reads this
    {
      WellFormed(records)
    }

    constructor ()
      ensures Valid() && records == []
    {
      records := [];
    }

    /** `getAllCategories`: every stored category exactly once, ordered by
        title ascending. */
    method GetAll() returns (r: seq<Category>)
      requires Valid()
      ensures multiset(r) == multiset(records)
      ensures SortedByTitle(r)
      ensures r == SortByTitle(records)
    {
      r := SortByTitle(records);
    }

    /** `getCategoryByTitle`: the record stored under the (trimmed) title, or
        `None` when there is none. */
    method FindByTitle(title: string) returns (r: Option<Category>)
      requires Valid()
      ensures r.Some? ==> r.value in records && r.value.title == StoredTitle(title)
      ensures r.None? <==> forall c :: c in records ==> c.title != StoredTitle(title)
    {
      r := FindTitle(records, StoredTitle(title));
    }

    /** `createCategory`: get-or-create by title. */
    method Create(title: string, color: string) returns (r: Result<Category>)
      requires Valid()
      modifies this
      ensures Valid()
      ensures (r, records) == GetOrCreate(old(records), title, color)
    {
      GetOrCreatePreserves(records, title, color);
      var existing := FindByTitle(title);
      if existing.Some? {
        return Ok(existing.value);
      }
      var t := StoredTitle(title);
      if InsertCheck(records, t, Some(color)).Some? {
        return Err(CreateFailed);
      }
      var c := Category(|records|, t, Some(color));
      records := records + [c];
      r := Ok(c);
    }
  }
}
