/**
 * The URL shortener of api/endpoints.py: short-key generation, `encode`
 * against the `URLMapping` table, the `encode_url` response and the
 * `redirect_url` lookup.
 *
 * Randomness is a parameter: a `KeyDraw` is the six indices that six calls of
 * `random.choice` pick from the alphabet for one key, and `encode` receives
 * the sequence of draws its retry loop will consume. `transaction.atomic()`
 * is read as "the whole call runs alone".
 */
module Endpoints {
  import opened Wrappers
  import opened Models

  /** Python's `string.ascii_lowercase`. */
  const AsciiLowercase: string := "abcdefghijklmnopqrstuvwxyz"
  /** Python's `string.ascii_uppercase`. */
  const AsciiUppercase: string := "ABCDEFGHIJKLMNOPQRSTUVWXYZ"
  /** Python's `string.ascii_letters`. */
  const AsciiLetters: string := AsciiLowercase + AsciiUppercase
  /** Python's `string.digits`. */
  const Digits: string := "0123456789"
  const AlphabetSize: nat := 62
  const KeyLength: nat := 6

  /** An index `random.choice` can pick from the 62-character alphabet. */
  type Pick = i: nat | i < AlphabetSize

  /** The picks of one `_generate_short_key` call. */
  type KeyDraw = s: seq<Pick> | |s| == KeyLength witness [0, 0, 0, 0, 0, 0]

  predicate IsAsciiAlnum(c: char)
  {
    'a' <= c <= 'z' || 'A' <= c <= 'Z' || '0' <= c <= '9'
  }

  /** The code point of the i-th character of `ascii_letters + digits`. */
  function AlnumCode(i: Pick): int
  {
    if i < 26 then 'a' as int + i
    else if i < 52 then 'A' as int + (i - 26)
    else '0' as int + (i - 52)
  }

  /** The index of an alphanumeric character in `ascii_letters + digits`. */
  function AlnumIndex(c: char): (i: Pick)
    requires IsAsciiAlnum(c)
    ensures AlnumCode(i) == c as int
  {
    if 'a' <= c <= 'z' then c as int - 'a' as int
    else if 'A' <= c <= 'Z' then c as int - 'A' as int + 26
    else c as int - '0' as int + 52
  }

  /** The three Python constants list their characters in code order. */
  lemma ConstantsInCodeOrder()
    ensures |AsciiLowercase| == 26 && |AsciiUppercase| == 26 && |Digits| == 10
    ensures forall i :: 0 <= i < 26 ==> AsciiLowercase[i] as int == 'a' as int + i
    ensures forall i :: 0 <= i < 26 ==> AsciiUppercase[i] as int == 'A' as int + i
    ensures forall i :: 0 <= i < 10 ==> Digits[i] as int == '0' as int + i
  {
  }

  /**
   * `ascii_letters + digits` lists the 62 ASCII letters and digits, in code
   * order within each group, each exactly once.
   */
  lemma {:induction false} AlphabetIsAsciiAlnum()
    ensures |AsciiLetters + Digits| == AlphabetSize
    ensures forall i: Pick :: (AsciiLetters + Digits)[i] as int == AlnumCode(i)
    ensures forall i: Pick, j: Pick :: AlnumCode(i) == AlnumCode(j) ==> i == j
    ensures forall c :: c in AsciiLetters + Digits <==> IsAsciiAlnum(c)
  {
    ConstantsInCodeOrder();
    var a := AsciiLetters + Digits;
    forall i: Pick ensures a[i] as int == AlnumCode(i) {
      if i < 26 {
        assert a[i] == AsciiLowercase[i];
      } else if i < 52 {
        assert a[i] == AsciiUppercase[i - 26];
      } else {
        assert a[i] == Digits[i - 52];
      }
    }
    forall c | c in a ensures IsAsciiAlnum(c) {
      var i :| 0 <= i < |a| && a[i] == c;
      assert c as int == AlnumCode(i);
    }
    forall c | IsAsciiAlnum(c) ensures c in a {
      assert a[AlnumIndex(c)] == c;
    }
  }

  /** The shape of a key the shortener generates. */
  predicate IsShortKey(key: string)
  {
    |key| == KeyLength && forall i :: 0 <= i < |key| ==> IsAsciiAlnum(key[i])
  }

  /** The dictionary `encode` returns. */
  datatype ShortUrls = ShortUrls(realUrl: string, displayUrl: string)

  /** The request body of `POST /encode`. */
  datatype URLItem = URLItem(url: string, title: string := "")

  /** The response body of `POST /encode`. */
  datatype EncodeResponse = EncodeResponse(realUrl: string, displayUrl: string, title: string)

  /** An `HTTPException`. */
  datatype HttpError = HttpError(status: int, detail: string)

  class Shortener {
    // The fields `__init__` sets.
    const realBase: string := "http://127.0.0.1:8000/api/"
    const displayBase: string := "eaziurl.fz/"
    const chars: string := AsciiLetters + Digits

    /** `_generate_short_key`: six characters chosen from `chars`. */
    function GenerateShortKey(draw: KeyDraw): (key: string)
      ensures IsShortKey(key)
      ensures forall i :: 0 <= i < KeyLength ==> key[i] as int == AlnumCode(draw[i])
    {
      AlphabetIsAsciiAlnum();
      seq(KeyLength, i requires 0 <= i < KeyLength => chars[draw[i]])
    }

    /**
     * The two URLs `encode` returns for a key: each base followed by the
     * key, so the key can be read back off the end of either.
     */
    function Urls(key: string): (urls: ShortUrls)
      ensures |realBase| <= |urls.realUrl| && urls.realUrl[..|realBase|] == realBase
      ensures urls.realUrl[|realBase|..] == key
      ensures |displayBase| <= |urls.displayUrl| && urls.displayUrl[..|displayBase|] == displayBase
      ensures urls.displayUrl[|displayBase|..] == key
    {
      assert (realBase + key)[|realBase|..] == key;
      assert (displayBase + key)[|displayBase|..] == key;
      ShortUrls(realBase + key, displayBase + key)
    }

    /** Draw `j` yields a key that no stored row uses. */
    predicate IsFreeDraw(rows: seq<URLMapping>, draws: seq<KeyDraw>, j: nat)
      requires j < |draws|
    {
      !Exists(rows, ShortUrlColumn, GenerateShortKey(draws[j]))
    }

    /**
     * The first draw, from `j` on, whose key no stored row uses: where the
     * retry loop stops, if it stops within `draws`.
     */
    function FirstFreeDraw(rows: seq<URLMapping>, draws: seq<KeyDraw>, j: nat): (w: Option<nat>)
      ensures w.Some? ==> j <= w.value < |draws| && IsFreeDraw(rows, draws, w.value)
      ensures w.Some? ==> forall k :: j <= k < w.value ==> !IsFreeDraw(rows, draws, k)
      ensures w.None? ==> forall k :: j <= k < |draws| ==> !IsFreeDraw(rows, draws, k)
      decreases |draws| - j
    {
      if j >= |draws| then None
      else if IsFreeDraw(rows, draws, j) then Some(j)
      else FirstFreeDraw(rows, draws, j + 1)
    }

    /**
     * `encode` returns: either the URL is already stored, or the retry loop
     * meets a free key within `draws`.
     */
    predicate CanFinish(rows: seq<URLMapping>, longUrl: string, draws: seq<KeyDraw>)
    {
      Exists(rows, LongUrlColumn, longUrl) || FirstFreeDraw(rows, draws, 0).Some?
    }

    /**
     * What `encode` computes: its result and the table afterwards, as a
     * function of the table before.
     */
    ghost function EncodeOutcome(rows: seq<URLMapping>, longUrl: string, title: string,
                                 draws: seq<KeyDraw>): (Result<ShortUrls, DbError>, seq<URLMapping>)
      requires CanFinish(rows, longUrl, draws)
    {
      match FirstWhere(rows, LongUrlColumn, longUrl)
      case Some(i) => (Ok(Urls(rows[i].shortUrl)), rows)
      case None =>
        var key := GenerateShortKey(draws[FirstFreeDraw(rows, draws, 0).value]);
        var m := URLMapping(longUrl, key, title);
        if SaveError(rows, m).None? then (Ok(Urls(key)), rows + [m])
        else (Err(SaveError(rows, m).value), rows)
    }

    /**
     * `encode`: reuse the key of a stored long URL, or draw keys until one
     * is unused and save a new row. A failed save rolls the transaction
     * back, which leaves the table as it was.
     */
    method Encode(table: URLMappingTable, longUrl: string, draws: seq<KeyDraw>, title: string := "")
      returns (r: Result<ShortUrls, DbError>)
      requires table.Valid()
      requires CanFinish(table.rows, longUrl, draws)
      modifies table
      ensures table.Valid()
      ensures (r, table.rows) == EncodeOutcome(old(table.rows), longUrl, title, draws)
    {
      var mapping := FirstWhere(table.rows, LongUrlColumn, longUrl);
      if mapping.Some? {
        return Ok(Urls(table.rows[mapping.value].shortUrl));
      }

      ghost var w := FirstFreeDraw(table.rows, draws, 0).value;
      var j := 0;
      var shortKey;
      while true
        invariant 0 <= j <= w < |draws| && IsFreeDraw(table.rows, draws, w)
        invariant forall k :: 0 <= k < j ==> !IsFreeDraw(table.rows, draws, k)
        invariant table.rows == old(table.rows)
        decreases w - j
      {
        shortKey := GenerateShortKey(draws[j]);
        if !Exists(table.rows, ShortUrlColumn, shortKey) {
          break;
        }
        assert !IsFreeDraw(table.rows, draws, j);
        j := j + 1;
      }
      assert IsFreeDraw(table.rows, draws, j);
      assert j == w;
      ghost var m := URLMapping(longUrl, shortKey, title);
      assert EncodeOutcome(old(table.rows), longUrl, title, draws) ==
        if SaveError(table.rows, m).None? then (Ok(Urls(shortKey)), table.rows + [m])
        else (Err(SaveError(table.rows, m).value), table.rows);

      var err := table.Save(URLMapping(longUrl, shortKey, title));
      if err.Some? {
        return Err(err.value);
      }
      r := Ok(Urls(shortKey));
    }
  }

  /** `encode_url`: the URLs `encode` returns, with the caller's title echoed. */
  method EncodeUrl(shortener: Shortener, table: URLMappingTable, item: URLItem, draws: seq<KeyDraw>)
    returns (r: Result<EncodeResponse, DbError>)
    requires table.Valid()
    requires shortener.CanFinish(table.rows, item.url, draws)
    modifies table
    ensures table.Valid()
    ensures var (e, rows) := shortener.EncodeOutcome(old(table.rows), item.url, item.title, draws);
            table.rows == rows &&
            match e
            case Ok(urls) => r == Ok(EncodeResponse(urls.realUrl, urls.displayUrl, item.title))
            case Err(err) => r == Err(err)
  {
    var shortUrls := shortener.Encode(table, item.url, draws, item.title);
    match shortUrls
    case Ok(urls) =>
      r := Ok(EncodeResponse(urls.realUrl, urls.displayUrl, item.title));
    case Err(err) =>
      r := Err(err);
  }

  /** `redirect_url`: the stored long URL of a key, or 404. */
  function RedirectUrl(rows: seq<URLMapping>, shortKey: string): (r: Result<string, HttpError>)
    ensures r.Err? <==> forall k :: 0 <= k < |rows| ==> rows[k].shortUrl != shortKey
    ensures r.Err? ==> r.error == HttpError(404, "URL not found")
    ensures r.Ok? ==> exists k :: 0 <= k < |rows| && rows[k].shortUrl == shortKey && rows[k].longUrl == r.value
  {
    match FirstWhere(rows, ShortUrlColumn, shortKey)
    case Some(i) => Ok(rows[i].longUrl)
    case None => Err(HttpError(404, "URL not found"))
  }
}
