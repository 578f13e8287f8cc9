/** The Category collection's schema: a required, trimmed, unique `title` and
    an optional `color` that must be `#` followed by three or six hex digits. */
module CategoryModel {
  import opened Wrappers
  import opened Text

  /** A stored category. `id` stands for the Mongo `_id`; `color` is `None`
      for the schema default `null`. */
  datatype Category = Category(id: nat, title: string, color: Option<string>)

  predicate IsHexDigit(c: char) {
    ('0' <= c <= '9') || ('a' <= c <= 'f') || ('A' <= c <= 'F')
  }

  /** The pattern `^#([A-Fa-f0-9]{6}|[A-Fa-f0-9]{3})$`. */
  predicate MatchesHexPattern(s: string) {
    && (|s| == 4 || |s| == 7)
    && s[0] == '#'
    && forall i :: 1 <= i < |s| ==> IsHexDigit(s[i])
  }

  /** The colour constraint as Mongoose's `match` validator applies it: a
      missing (`null`) or empty value is not checked, anything else must match
      the pattern. */
  predicate ValidColor(color: Option<string>) {
    color.None? || color.value == "" || MatchesHexPattern(color.value)
  }

  /** The value the `trim: true` option stores for a given title. */
  function StoredTitle(title: string): (t: string)
    ensures Trimmed(t)
  {
    Trim(title)
  }

  /** `required: true` on a string after trimming: a stored title is non-empty
      and carries no surrounding whitespace. */
  predicate ValidTitle(t: string) {
    t != [] && Trimmed(t)
  }

  /** `unique: true` on `title`. */
  predicate TitlesUnique(cats: seq<Category>) {
    forall i, j :: 0 <= i < j < |cats| ==> cats[i].title != cats[j].title
  }

  /** Every record satisfies the schema, no two share a title, and each `_id`
      is the position at which the store inserted it. */
  predicate WellFormed(records: seq<Category>) {
    && (forall i :: 0 <= i < |records| ==>
          records[i].id == i && ValidTitle(records[i].title) && ValidColor(records[i].color))
    && TitlesUnique(records)
  }

  /** A title that has gone through the `trim` setter satisfies the title
      constraint exactly when it is not blank. */
  lemma StoredTitleValid(title: string)
    ensures ValidTitle(StoredTitle(title)) <==> !IsBlank(title)
  {
  }

  /** The fallback colour the categorisation route generates for a hue: the
      `hsl(` functional notation, the hue in decimal, and 70% saturation and
      80% lightness. The hue can be read back from the string. */
  function Hsl(hue: nat): (r: string)
    ensures |r| > 15 && r[..4] == "hsl(" && r[|r| - 11..] == ", 70%, 80%)"
    ensures AllDigits(r[4..|r| - 11]) && DecimalValue(r[4..|r| - 11]) == hue
  {
    var digits := NatToDecimal(hue);
    var r := "hsl(" + digits + ", 70%, 80%)";
    assert r[4..|r| - 11] == digits;
    DecimalRoundTrip(hue);
    r
  }

  /** No `hsl(...)` string satisfies the colour constraint: it starts with
      `h`, not `#`. */
  lemma HslColorRejected(hue: nat)
    ensures !ValidColor(Some(Hsl(hue)))
  {
    assert Hsl(hue)[0] == 'h';
  }

  function HexDigit(n: nat): (c: char)
    requires n < 16
    ensures IsHexDigit(c)
  {
    if n < 10 then '0' + n as char else 'a' + (n - 10) as char
  }

  function Hex2(n: nat): (s: string)
    requires n < 256
    ensures |s| == 2 && IsHexDigit(s[0]) && IsHexDigit(s[1])
  {
    [HexDigit(n / 16), HexDigit(n % 16)]
  }

  /** One channel of `hsl(h, 70%, 80%)` on the 0..255 scale, rounded: the
      channel sits between 168 (0.66 * 255) and 240 (0.94 * 255), `x / 60` of
      the way up. */
  function Channel(x: nat): (v: nat)
    requires x <= 60
    ensures 168 <= v <= 240
  {
    (100980 + 714 * x + 300) / 600
  }

  /** A pastel colour for the hue written as `#rrggbb`: the channels of 70%
      saturation and 80% lightness in six hue sectors of 60 degrees, meant as
      the colour `Hsl(hue)` names. Only its form is proved here, not that the
      conversion agrees with CSS. */
  function PastelHex(hue: nat): (s: string)
    requires hue < 360
    ensures |s| == 7 && s[0] == '#'
  {
    var sector, f := hue / 60, hue % 60;
    var up, down := Channel(f), Channel(60 - f);
    var rgb :=
      if sector == 0 then (240, up, 168)
      else if sector == 1 then (down, 240, 168)
      else if sector == 2 then (168, 240, up)
      else if sector == 3 then (168, down, 240)
      else if sector == 4 then (up, 168, 240)
      else (240, 168, down);
    "#" + Hex2(rgb.0) + Hex2(rgb.1) + Hex2(rgb.2)
  }

  /** The pastel hex colour satisfies the colour constraint. */
  lemma PastelHexValid(hue: nat)
    requires hue < 360
    ensures ValidColor(Some(PastelHex(hue)))
  {
    var s := PastelHex(hue);
    forall i | 1 <= i < |s| ensures IsHexDigit(s[i]) {
    }
  }
}
