/**
 * What `encode` and `redirect_url` promise, proved of the model in
 * module Endpoints: the shape of generated keys, reuse of a stored key,
 * freshness of a new key, the table invariants `encode` keeps, idempotence
 * and the encode/redirect round trip.
 */
module ShortenerProperties {
  import opened Wrappers
  import opened Models
  import opened Endpoints

  /** Distinct draws give distinct keys. */
  lemma {:induction false} GenerateShortKeyInjective(s: Shortener, d1: KeyDraw, d2: KeyDraw)
    ensures s.GenerateShortKey(d1) == s.GenerateShortKey(d2) ==> d1 == d2
  {
    if s.GenerateShortKey(d1) == s.GenerateShortKey(d2) {
      AlphabetIsAsciiAlnum();
      forall i | 0 <= i < KeyLength ensures d1[i] == d2[i] {
        assert AlnumCode(d1[i]) == s.GenerateShortKey(d1)[i] as int;
        assert AlnumCode(d2[i]) == s.GenerateShortKey(d2)[i] as int;
      }
    }
  }

  /**
   * Every six-character alphanumeric key is produced by some draw, so the
   * generator ranges over exactly the 62^6 keys of that shape, each reached
   * by one draw.
   */
  lemma {:induction false} GenerateShortKeyOnto(s: Shortener, key: string) returns (d: KeyDraw)
    requires IsShortKey(key)
    ensures s.GenerateShortKey(d) == key
  {
    d := seq(KeyLength, i requires 0 <= i < KeyLength => AlnumIndex(key[i]));
    var k := s.GenerateShortKey(d);
    forall i | 0 <= i < KeyLength ensures k[i] == key[i] {
      assert k[i] as int == AlnumCode(d[i]) == key[i] as int;
    }
  }

  /** A generated key always fits the `short_url` column. */
  lemma {:induction false} ShortKeyFitsColumn(key: string)
    requires IsShortKey(key)
    ensures |key| <= MaxShortUrlLength
  {
  }

  /**
   * Encoding a URL that is already stored returns that row's key, whatever
   * the title and the draws, and neither adds a row nor touches the stored
   * title.
   */
  lemma {:induction false} EncodeStoredUrl(s: Shortener, rows: seq<URLMapping>, i: nat,
                                           title: string, draws: seq<KeyDraw>)
    requires i < |rows| && Unique(rows, LongUrlColumn)
    ensures s.CanFinish(rows, rows[i].longUrl, draws)
    ensures s.EncodeOutcome(rows, rows[i].longUrl, title, draws) == (Ok(s.Urls(rows[i].shortUrl)), rows)
  {
    var longUrl := rows[i].longUrl;
    assert Field(rows[i], LongUrlColumn) == longUrl;
  }

  /**
   * Encoding an unseen URL uses the first draw whose key no row has; the key
   * has the generated shape. When the long URL and the title fit their
   * columns exactly one row is appended; otherwise the save fails with
   * `DataError` and nothing changes.
   */
  lemma {:induction false} EncodeNewUrl(s: Shortener, rows: seq<URLMapping>, longUrl: string,
                                        title: string, draws: seq<KeyDraw>) returns (j: nat)
    requires Conforms(rows)
    requires !Exists(rows, LongUrlColumn, longUrl)
    requires s.CanFinish(rows, longUrl, draws)
    ensures j < |draws| && forall k :: 0 <= k < j ==> !s.IsFreeDraw(rows, draws, k)
    ensures var key := s.GenerateShortKey(draws[j]);
            IsShortKey(key) && forall k :: 0 <= k < |rows| ==> rows[k].shortUrl != key
    ensures var key := s.GenerateShortKey(draws[j]);
            s.EncodeOutcome(rows, longUrl, title, draws) ==
              if |longUrl| <= MaxLongUrlLength && |title| <= MaxTitleLength then (Ok(s.Urls(key)), rows + [URLMapping(longUrl, key, title)])
              else (Err(DataError), rows)
  {
    j := s.FirstFreeDraw(rows, draws, 0).value;
    var key := s.GenerateShortKey(draws[j]);
    ShortKeyFitsColumn(key);
    assert !Exists(rows, ShortUrlColumn, key);
    forall k | 0 <= k < |rows| ensures rows[k].shortUrl != key {
      assert Field(rows[k], ShortUrlColumn) == rows[k].shortUrl;
    }
  }

  /**
   * `encode` only ever appends, keeps the table conforming to its schema
   * (unique short keys) and, being the only writer, keeps long URLs unique.
   */
  lemma {:induction false} EncodeKeepsInvariants(s: Shortener, rows: seq<URLMapping>, longUrl: string,
                                                 title: string, draws: seq<KeyDraw>)
    requires Conforms(rows)
    requires s.CanFinish(rows, longUrl, draws)
    ensures var (_, rows') := s.EncodeOutcome(rows, longUrl, title, draws);
            Conforms(rows') && |rows| <= |rows'| <= |rows| + 1 && rows'[..|rows|] == rows
    ensures var (_, rows') := s.EncodeOutcome(rows, longUrl, title, draws);
            Unique(rows, LongUrlColumn) ==> Unique(rows', LongUrlColumn)
  {
    var (r, rows') := s.EncodeOutcome(rows, longUrl, title, draws);
    if !Exists(rows, LongUrlColumn, longUrl) {
      var j := EncodeNewUrl(s, rows, longUrl, title, draws);
      var key := s.GenerateShortKey(draws[j]);
      var m := URLMapping(longUrl, key, title);
      if rows' != rows {
        assert rows' == rows + [m];
        SaveKeepsConformance(rows, m);
        if Unique(rows, LongUrlColumn) {
          forall a, b | 0 <= a < b < |rows'|
            ensures Field(rows'[a], LongUrlColumn) != Field(rows'[b], LongUrlColumn)
          {
            if b == |rows| {
              assert rows'[a] == rows[a] && rows'[b] == m;
            } else {
              assert rows'[a] == rows[a] && rows'[b] == rows[b];
            }
          }
        }
      }
    }
  }

  /** After a row is appended for an unseen URL, the URL's first row is that one. */
  lemma {:induction false} FirstWhereAppended(rows: seq<URLMapping>, m: URLMapping, c: Column)
    requires !Exists(rows, c, Field(m, c))
    ensures FirstWhere(rows + [m], c, Field(m, c)) == Some(|rows|)
  {
    var rows' := rows + [m];
    assert Field(rows'[|rows|], c) == Field(m, c);
    forall k | 0 <= k < |rows| ensures Field(rows'[k], c) != Field(m, c) {
      assert rows'[k] == rows[k];
    }
  }

  /**
   * `encode` is idempotent: once it has succeeded for a URL, encoding the
   * URL again, with any title and any draws, returns the same URLs and
   * leaves the table alone.
   */
  lemma {:induction false} EncodeIdempotent(s: Shortener, rows: seq<URLMapping>, longUrl: string,
                                            title1: string, draws1: seq<KeyDraw>,
                                            title2: string, draws2: seq<KeyDraw>)
    requires s.CanFinish(rows, longUrl, draws1)
    ensures var (r1, rows1) := s.EncodeOutcome(rows, longUrl, title1, draws1);
            r1.Ok? ==> s.CanFinish(rows1, longUrl, draws2) &&
                       s.EncodeOutcome(rows1, longUrl, title2, draws2) == (r1, rows1)
  {
    var (r1, rows1) := s.EncodeOutcome(rows, longUrl, title1, draws1);
    if r1.Ok? && rows1 != rows {
      var key := s.GenerateShortKey(draws1[s.FirstFreeDraw(rows, draws1, 0).value]);
      var m := URLMapping(longUrl, key, title1);
      assert rows1 == rows + [m];
      FirstWhereAppended(rows, m, LongUrlColumn);
    }
  }

  /**
   * Round trip: the key at the end of the real URL `encode` returns (the
   * same key that ends the display URL) redirects to the encoded URL.
   */
  lemma {:induction false} EncodeThenRedirect(s: Shortener, rows: seq<URLMapping>, longUrl: string,
                                              title: string, draws: seq<KeyDraw>)
    requires Conforms(rows)
    requires s.CanFinish(rows, longUrl, draws)
    ensures var (r, rows') := s.EncodeOutcome(rows, longUrl, title, draws);
            r.Ok? ==>
              |s.realBase| <= |r.value.realUrl| &&
              r.value.realUrl[..|s.realBase|] == s.realBase &&
              r.value.displayUrl == s.displayBase + r.value.realUrl[|s.realBase|..] &&
              RedirectUrl(rows', r.value.realUrl[|s.realBase|..]) == Ok(longUrl)
  {
    var (r, rows') := s.EncodeOutcome(rows, longUrl, title, draws);
    EncodeKeepsInvariants(s, rows, longUrl, title, draws);
    if r.Ok? {
      var i: nat;
      if Exists(rows, LongUrlColumn, longUrl) {
        i := FirstWhere(rows, LongUrlColumn, longUrl).value;
      } else {
        var j := EncodeNewUrl(s, rows, longUrl, title, draws);
        i := |rows|;
      }
      assert rows'[i].longUrl == longUrl && r.value == s.Urls(rows'[i].shortUrl);
      StrFindsRow(rows', i);
    }
  }

  /**
   * A key no row has redirects to 404 "URL not found", on any table: the
   * contract of `RedirectUrl`, restated with the `exists()` query the
   * encoder uses to call a key taken.
   */
  lemma {:induction false} RedirectUnknownKey(rows: seq<URLMapping>, shortKey: string)
    requires !Exists(rows, ShortUrlColumn, shortKey)
    ensures RedirectUrl(rows, shortKey) == Err(HttpError(404, "URL not found"))
  {
    forall k | 0 <= k < |rows| ensures rows[k].shortUrl != shortKey {
      assert Field(rows[k], ShortUrlColumn) == rows[k].shortUrl;
    }
  }
}
