/**
 * The `URLMapping` table of api/models.py: one row per shortened URL, the
 * schema's constraints, the two ORM queries the endpoints use
 * (`filter(...).first()` and `filter(...).exists()`) and `save()`.
 */
module Models {
  import opened Wrappers

  /** `long_url = URLField()`: a `URLField` is 200 characters wide by default. */
  const MaxLongUrlLength: nat := 200
  /** `short_url = CharField(max_length=10, unique=True)`. */
  const MaxShortUrlLength: nat := 10
  /** `title = CharField(max_length=255, blank=True)`. */
  const MaxTitleLength: nat := 255

  /**
   * One row of the table. The `created_at` timestamp is not modelled; rows
   * are kept in primary-key (insertion) order instead.
   */
  datatype URLMapping = URLMapping(longUrl: string, shortUrl: string, title: string)

  /** The columns a query can filter on. */
  datatype Column = LongUrlColumn | ShortUrlColumn | TitleColumn

  /** Errors the database raises from `save()`. */
  datatype DbError =
    | IntegrityError  // a unique constraint would be violated
    | DataError       // a value is longer than its column allows

  function Field(m: URLMapping, c: Column): string
  {
    match c
    case LongUrlColumn => m.longUrl
    case ShortUrlColumn => m.shortUrl
    case TitleColumn => m.title
  }

  /**
   * `__str__` of a mapping: its `short_url` column, the table's unique key
   * (see `StrFindsRow`).
   */
  function Str(m: URLMapping): (s: string)
    ensures s == Field(m, ShortUrlColumn)
  {
    m.shortUrl
  }

  /** No two rows agree on column `c`. */
  ghost predicate Unique(rows: seq<URLMapping>, c: Column)
  {
    forall i, j :: 0 <= i < j < |rows| ==> Field(rows[i], c) != Field(rows[j], c)
  }

  /** The row fits the declared column lengths. */
  predicate FitsSchema(m: URLMapping)
  {
    |m.longUrl| <= MaxLongUrlLength && |m.shortUrl| <= MaxShortUrlLength && |m.title| <= MaxTitleLength
  }

  /**
   * What the schema guarantees of every stored table: `short_url` is unique
   * and every row fits its columns. Nothing is declared about `long_url`.
   */
  ghost predicate Conforms(rows: seq<URLMapping>)
  {
    Unique(rows, ShortUrlColumn) && forall k :: 0 <= k < |rows| ==> FitsSchema(rows[k])
  }

  /** `URLMapping.objects.filter(<c>=v).first()`: the lowest-keyed matching row. */
  function FirstWhere(rows: seq<URLMapping>, c: Column, v: string): (r: Option<nat>)
    ensures r.None? <==> forall k :: 0 <= k < |rows| ==> Field(rows[k], c) != v
    ensures r.Some? ==> r.value < |rows| && Field(rows[r.value], c) == v
    ensures r.Some? ==> forall k :: 0 <= k < r.value ==> Field(rows[k], c) != v
  {
    if |rows| == 0 then None
    else if Field(rows[0], c) == v then Some(0)
    else
      match FirstWhere(rows[1..], c, v)
      case None => None
      case Some(k) => Some(k + 1)
  }

  /** `URLMapping.objects.filter(<c>=v).exists()`. */
  function Exists(rows: seq<URLMapping>, c: Column, v: string): (b: bool)
    ensures b <==> exists k :: 0 <= k < |rows| && Field(rows[k], c) == v
  {
    FirstWhere(rows, c, v).Some?
  }

  /**
   * The error `save()` of a new row raises, if any. A value too long for its
   * column is rejected when the row is formed, before the unique index on
   * `short_url` is consulted.
   */
  function SaveError(rows: seq<URLMapping>, m: URLMapping): (err: Option<DbError>)
    ensures err.None? <==> FitsSchema(m) && forall k :: 0 <= k < |rows| ==> rows[k].shortUrl != m.shortUrl
    ensures err == Some(DataError) <==> !FitsSchema(m)
    ensures err == Some(IntegrityError) <==>
              FitsSchema(m) && exists k :: 0 <= k < |rows| && rows[k].shortUrl == m.shortUrl
  {
    if !FitsSchema(m) then Some(DataError)
    else if Exists(rows, ShortUrlColumn, m.shortUrl) then Some(IntegrityError)
    else None
  }

  /** A save that succeeds keeps the table conforming to its schema. */
  lemma {:induction false} SaveKeepsConformance(rows: seq<URLMapping>, m: URLMapping)
    requires Conforms(rows)
    requires SaveError(rows, m).None?
    ensures Conforms(rows + [m])
    ensures Exists(rows + [m], ShortUrlColumn, m.shortUrl)
  {
    var rows' := rows + [m];
    forall i, j | 0 <= i < j < |rows'|
      ensures Field(rows'[i], ShortUrlColumn) != Field(rows'[j], ShortUrlColumn)
    {
      if j < |rows| {
        assert rows'[i] == rows[i] && rows'[j] == rows[j];
      } else {
        assert rows'[i] == rows[i] && rows'[j] == m;
      }
    }
    assert Field(rows'[|rows|], ShortUrlColumn) == m.shortUrl;
  }

  /**
   * The schema does not make `long_url` unique: saving a second row for a
   * URL that is already stored succeeds and breaks long-URL uniqueness.
   */
  lemma SchemaAllowsDuplicateLongUrls()
    ensures var rows := [URLMapping("https://example.com/a", "aaaaaa", "")];
            var m := URLMapping("https://example.com/a", "bbbbbb", "");
            Conforms(rows) && SaveError(rows, m).None? && !Unique(rows + [m], LongUrlColumn)
  {
    var rows := [URLMapping("https://example.com/a", "aaaaaa", "")];
    var m := URLMapping("https://example.com/a", "bbbbbb", "");
    assert Field((rows + [m])[0], LongUrlColumn) == Field((rows + [m])[1], LongUrlColumn);
  }

  /**
   * In a conforming table the string form of a row (its short URL) finds
   * exactly that row again.
   */
  lemma {:induction false} StrFindsRow(rows: seq<URLMapping>, i: nat)
    requires Conforms(rows)
    requires i < |rows|
    ensures FirstWhere(rows, ShortUrlColumn, Str(rows[i])) == Some(i)
  {
    assert Field(rows[i], ShortUrlColumn) == Str(rows[i]);
  }

  /** The `URLMapping` table, updated in place by `save()`. */
  class URLMappingTable {
    var rows: seq<URLMapping>

    ghost predicate Valid()
      reads this
    {
      Conforms(rows)
    }

    constructor ()
      ensures Valid() && rows == []
    {
      rows := [];
    }

    /** `mapping.save()` of a new row. */
    method Save(m: URLMapping) returns (err: Option<DbError>)
      requires Valid()
      modifies this
      ensures Valid()
      ensures err == SaveError(old(rows), m)
      ensures rows == if err.None? then old(rows) + [m] else old(rows)
    {
      err := SaveError(rows, m);
      if err.None? {
        SaveKeepsConformance(rows, m);
        rows := rows + [m];
      }
    }
  }
}
