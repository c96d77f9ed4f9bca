/**
 * The helpers of `assets/js/app-church.js`: the memoised category loader over the
 * module-level cache, the unwrapping of the loaded JSONBin document, and
 * `sanitizeFilename`. The HTTP exchange itself is an input: the response that `fetch`
 * would deliver is a parameter, and the loader reports whether it asked for it.
 */
module AppChurch {
  import opened Common
  import opened JsStrings
  import opened StoredDoc

  // ---------------------------------------------------------------------------
  // Categories
  // ---------------------------------------------------------------------------

  /** The parsed body of `/api/church-data`: unreadable or null, or a value whose properties may be arrays. */
  datatype CategoryBody = Unreadable | Json(incomes: Option<seq<string>>, expenses: Option<seq<string>>)

  /** What `fetch('/api/church-data')` delivers: a network failure or a response. */
  datatype CategoryResponse = NetworkError | Response(ok: bool, status: int, body: CategoryBody)

  /** Why a load rejects: the network, a non-2xx status, or a body that is not JSON or is null. */
  datatype LoadError = FetchFailed | HttpStatus(status: int) | BadBody

  /** `{ incomes, expenses }`. */
  datatype Categories = Categories(incomes: seq<string>, expenses: seq<string>)

  /** `Array.isArray(v) ? v : []`. */
  function ArrayOrEmpty(v: Option<seq<string>>): (r: seq<string>)
    ensures v.None? ==> r == []
    ensures v.Some? ==> r == v.value
  {
    if v.Some? then v.value else []
  }

  /** The outcome of the fetch chain: the status check, the JSON body, the shape fix-up. */
  function CategoriesFrom(response: CategoryResponse): (r: Result<Categories, LoadError>)
    ensures r.Success? <==> response.Response? && response.ok && response.body.Json?
    ensures r.Success? ==>
      r.value.incomes == ArrayOrEmpty(response.body.incomes) &&
      r.value.expenses == ArrayOrEmpty(response.body.expenses)
    ensures response.Response? && !response.ok ==> r == Failure(HttpStatus(response.status))
  {
    match response
    case NetworkError => Failure(FetchFailed)
    case Response(ok, status, body) =>
      if !ok then Failure(HttpStatus(status))
      else match body
        case Unreadable => Failure(BadBody)
        case Json(incomes, expenses) => Success(Categories(ArrayOrEmpty(incomes), ArrayOrEmpty(expenses)))
  }

  /** The module-level cache `CHURCH_INCOME_CATEGORIES` / `CHURCH_EXPENSE_CATEGORIES`. */
  class CategoryCache {
    var incomes: seq<string>
    var expenses: seq<string>

    /** Both lists start empty. */
    constructor ()
      ensures incomes == [] && expenses == []
    {
      incomes, expenses := [], [];
    }

    /**
     * `loadChurchCategories()`. When either cached list is non-empty the cached lists are
     * returned and nothing is fetched; otherwise `response` is consumed, and on success
     * the cache is set to exactly what is returned. A failure leaves the cache alone.
     */
    method Load(response: CategoryResponse) returns (r: Result<Categories, LoadError>, fetched: bool)
      modifies this
      ensures fetched <==> old(incomes) == [] && old(expenses) == []
      ensures !fetched ==> r == Success(Categories(old(incomes), old(expenses)))
      ensures fetched ==> r == CategoriesFrom(response)
      ensures r.Success? ==> incomes == r.value.incomes && expenses == r.value.expenses
      ensures r.Failure? ==> incomes == old(incomes) && expenses == old(expenses)
    {
      if |incomes| > 0 || |expenses| > 0 {
        return Success(Categories(incomes, expenses)), false;
      }
      fetched := true;
      r := CategoriesFrom(response);
      if r.Success? {
        incomes, expenses := r.value.incomes, r.value.expenses;
      }
    }
  }

  // ---------------------------------------------------------------------------
  // Loading the stored ledger
  // ---------------------------------------------------------------------------

  /**
   * What the load request delivers: `LoadFailed` for a network error, a non-2xx status
   * or a body that is not JSON; otherwise the parsed value (None when it is falsy).
   */
  datatype LoadOutcome = LoadFailed | Loaded(d: Option<Doc>)

  /** `d.record || d || {}`, and `{}` for any failure. */
  function UnwrapRecord(o: LoadOutcome): (rec: Doc)
    ensures o.LoadFailed? || o.d.None? ==> rec == EmptyDoc
    ensures o.Loaded? && o.d.Some? ==> rec == (if o.d.value.record.Some? then o.d.value.record.value else o.d.value)
  {
    match o
    case LoadFailed => EmptyDoc
    case Loaded(d) =>
      if d.None? then EmptyDoc
      else if d.value.record.Some? then d.value.record.value
      else d.value
  }

  /** JSONBin answers a read with the stored document under `record`; that document is what loading yields. */
  lemma UnwrapEnvelope(stored: Doc)
    ensures UnwrapRecord(Loaded(Some(Doc(Some(stored), None)))) == stored
  {
  }

  // ---------------------------------------------------------------------------
  // sanitizeFilename
  // ---------------------------------------------------------------------------

  /** The characters `[\w\-.]`: ASCII letters, digits, `_`, `-` and `.`. */
  predicate FilenameChar(c: char) {
    ('a' <= c <= 'z') || ('A' <= c <= 'Z') || ('0' <= c <= '9') || c == '_' || c == '-' || c == '.'
  }

  /** `.replace(/\s+/g, '_')`: every maximal run of whitespace becomes one `_`. */
  function CollapseSpaces(s: string): (r: string)
    ensures NoSpace(r)
    ensures |r| <= |s|
    decreases |s|
  {
    if s == [] then []
    else if IsSpace(s[0]) then "_" + CollapseSpaces(TrimStart(s[1..]))
    else [s[0]] + CollapseSpaces(s[1..])
  }

  /** `.replace(/[^\w\-.]/g, '_')`: every other character becomes `_`. */
  function ReplaceUnsafe(s: string): (r: string)
    ensures |r| == |s|
    ensures forall i :: 0 <= i < |r| ==> FilenameChar(r[i])
    ensures forall i :: 0 <= i < |s| ==>
      (FilenameChar(s[i]) ==> r[i] == s[i]) && (!FilenameChar(s[i]) ==> r[i] == '_')
  {
    seq(|s|, i requires 0 <= i < |s| => if FilenameChar(s[i]) then s[i] else '_')
  }

  /** `sanitizeFilename(s)` for a missing (None) or string input. */
  function SanitizeFilename(s: Option<string>): (r: string)
    ensures s == None || s == Some("") ==> r == ""
    ensures forall i :: 0 <= i < |r| ==> FilenameChar(r[i])
    ensures s.Some? ==> |r| <= |s.value|
  {
    ReplaceUnsafe(CollapseSpaces(Trim(if s.Some? then s.value else "")))
  }

  /** A string of whitespace-free characters is its own whitespace collapse. */
  lemma {:induction false} CollapseNoSpace(s: string)
    requires NoSpace(s)
    ensures CollapseSpaces(s) == s
  {
    if s != [] {
      CollapseNoSpace(s[1..]);
      assert s == [s[0]] + s[1..];
    }
  }

  /** Dropping leading whitespace in front of a non-space character leaves exactly what follows. */
  lemma {:induction false} TrimStartBlankPrefix(w: string, y: string)
    requires forall i :: 0 <= i < |w| ==> IsSpace(w[i])
    requires y == [] || !IsSpace(y[0])
    ensures TrimStart(w + y) == y
  {
    if w == [] {
      assert w + y == y;
    } else {
      assert (w + y)[1..] == w[1..] + y;
      TrimStartBlankPrefix(w[1..], y);
    }
  }

  /** A whitespace run between a word and the rest becomes a single `_`. */
  lemma {:induction false} CollapseRun(x: string, w: string, y: string)
    requires NoSpace(x)
    requires w != [] && forall i :: 0 <= i < |w| ==> IsSpace(w[i])
    requires y == [] || !IsSpace(y[0])
    ensures CollapseSpaces(x + w + y) == x + "_" + CollapseSpaces(y)
  {
    if x == [] {
      assert x + w + y == w + y;
      assert (w + y)[1..] == w[1..] + y;
      TrimStartBlankPrefix(w[1..], y);
    } else {
      assert (x + w + y)[0] == x[0];
      assert (x + w + y)[1..] == x[1..] + w + y;
      CollapseRun(x[1..], w, y);
    }
  }

  /** A string of filename characters is left as it is. */
  lemma SanitizeFixpoint(s: string)
    requires forall i :: 0 <= i < |s| ==> FilenameChar(s[i])
    ensures SanitizeFilename(Some(s)) == s
  {
    assert NoSpace(s);
    TrimOfTrimmed(s);
    CollapseNoSpace(s);
  }

  /** Sanitising a sanitised name changes nothing. */
  lemma SanitizeIdempotent(s: Option<string>)
    ensures SanitizeFilename(Some(SanitizeFilename(s))) == SanitizeFilename(s)
  {
    SanitizeFixpoint(SanitizeFilename(s));
  }

  /** The name is empty exactly when the input is missing or all whitespace. */
  lemma SanitizeEmptyIffBlank(s: string)
    ensures SanitizeFilename(Some(s)) == "" <==> forall i :: 0 <= i < |s| ==> IsSpace(s[i])
  {
    TrimEmptyIffBlank(s);
    var t := Trim(s);
    if t != [] {
      assert !IsSpace(t[0]);
      assert CollapseSpaces(t) == [t[0]] + CollapseSpaces(t[1..]);
    }
  }
}
