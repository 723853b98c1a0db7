/**
 * The Glue job `glue/glue_transform.py`: it lists the raw bucket's `.json`
 * objects, flattens each rate document into rows and writes them under
 * `exchange_rates/<name>.<format>` in the processed bucket.
 *
 * Rates are floats in the source and are only ever copied, so they are the
 * opaque type parameter `R`. A Python dict is an association sequence in
 * insertion order, which is the order `.items()` yields.
 */
module GlueTransform {
  import opened Wrappers
  import opened Text

  type Assoc<V> = seq<(string, V)>

  /** A parsed rate document: `{"base": ..., "rates": {date: {currency: rate}}}`; a missing key is None. */
  datatype Payload<R> = Payload(base: Option<string>, rates: Option<Assoc<Assoc<R>>>)

  /** One output row; `baseCurrency` is None where the document had no `base` (a null cell). */
  datatype RateRow<R> = RateRow(baseCurrency: Option<string>, targetCurrency: string, rate: R, date: string)

  datatype OutputFormat = Csv | Parquet

  /** The start-up ValueError (its message is fixed), or the key whose processing raised. */
  datatype JobError = InvalidOutputFormat | ObjectFailed(key: string)

  /** The object-store requests the job makes; a body is the rows it encodes. */
  datatype S3Call<R> =
    | ListObjects(bucket: string)
    | GetObject(bucket: string, key: string)
    | PutObject(bucket: string, key: string, body: seq<RateRow<R>>, contentType: string)

  /** One page of a `list_objects_v2` listing; a page without `Contents` has None. */
  datatype Page = Page(contents: Option<seq<ObjectSummary>>)

  datatype ObjectSummary = ObjectSummary(key: string)

  const BasePath: string := "exchange_rates"
  const JsonSuffix: string := ".json"

  // ---------------------------------------------------------------------------
  // Output format
  // ---------------------------------------------------------------------------

  function FormatName(f: OutputFormat): string {
    match f
    case Csv => "csv"
    case Parquet => "parquet"
  }

  /** The start-up check on OUTPUT_FORMAT: lower-case it, then accept only csv or parquet. */
  function ParseOutputFormat(raw: string): (r: Result<OutputFormat, JobError>)
    ensures r.Ok? <==> Lower(raw) == "csv" || Lower(raw) == "parquet"
    ensures r.Ok? ==> FormatName(r.value) == Lower(raw)
    ensures r.Err? ==> r.error == InvalidOutputFormat
  {
    var f := Lower(raw);
    if f == "csv" then Ok(Csv)
    else if f == "parquet" then Ok(Parquet)
    else Err(InvalidOutputFormat)
  }

  lemma ParseOutputFormatExamples()
    ensures ParseOutputFormat("CSV") == Ok(Csv)
    ensures ParseOutputFormat("Parquet") == Ok(Parquet)
    ensures ParseOutputFormat("xml").Err?
  {
    assert Lower("CSV") == "csv";
    assert Lower("Parquet") == "parquet";
    assert Lower("xml") == "xml";
  }

  /**
   * The check ignores case: a value names a format exactly when it spells
   * `csv` or `parquet` with any mixture of upper- and lower-case letters.
   */
  lemma ParseOutputFormatIgnoresCase(raw: string)
    ensures ParseOutputFormat(raw) == Ok(Csv) <==> CaseVariant(raw, "csv")
    ensures ParseOutputFormat(raw) == Ok(Parquet) <==> CaseVariant(raw, "parquet")
  {
    LowerEqualsWord(raw, "csv");
    LowerEqualsWord(raw, "parquet");
  }

  /** The file extension for a format, `.csv` or `.parquet`. */
  function Extension(f: OutputFormat): string {
    "." + FormatName(f)
  }

  function ContentType(f: OutputFormat): string {
    if f == Parquet then "application/x-parquet" else "text/csv"
  }

  // ---------------------------------------------------------------------------
  // Flattening a rate document
  // ---------------------------------------------------------------------------

  /** The rows the inner loop appends for one date, in currency order. */
  function DateRows<R>(base: Option<string>, date: string, rates: Assoc<R>): seq<RateRow<R>> {
    seq(|rates|, j requires 0 <= j < |rates| => RateRow(base, rates[j].0, rates[j].1, date))
  }

  /** The rows of the nested loops: one block per date, dates in iteration order. */
  function Flattened<R>(base: Option<string>, ratesByDate: Assoc<Assoc<R>>): seq<RateRow<R>> {
    if ratesByDate == [] then []
    else
      var n := |ratesByDate| - 1;
      Flattened(base, ratesByDate[..n]) + DateRows(base, ratesByDate[n].0, ratesByDate[n].1)
  }

  /** The number of currencies, summed over the dates. */
  function TotalRates<R>(ratesByDate: Assoc<Assoc<R>>): nat {
    if ratesByDate == [] then 0 else |ratesByDate[0].1| + TotalRates(ratesByDate[1..])
  }

  /** Where the block of date number i starts. */
  function Offset<R>(ratesByDate: Assoc<Assoc<R>>, i: nat): nat
    requires i <= |ratesByDate|
  {
    TotalRates(ratesByDate[..i])
  }

  /** The row the source builds for currency j of date i. */
  function RowFor<R>(base: Option<string>, ratesByDate: Assoc<Assoc<R>>, i: nat, j: nat): RateRow<R>
    requires i < |ratesByDate| && j < |ratesByDate[i].1|
  {
    RateRow(base, ratesByDate[i].1[j].0, ratesByDate[i].1[j].1, ratesByDate[i].0)
  }

  /** Python's `payload.get("rates", {})`. */
  function RatesOf<R>(payload: Payload<R>): Assoc<Assoc<R>> {
    match payload.rates
    case Some(r) => r
    case None => []
  }

  /**
   * The nested loops of process_key: for each date, for each currency of that
   * date, append one row.
   */
  method FlattenRates<R>(base: Option<string>, ratesByDate: Assoc<Assoc<R>>) returns (rows: seq<RateRow<R>>)
    ensures rows == Flattened(base, ratesByDate)
    ensures |rows| == TotalRates(ratesByDate)
    ensures forall k :: 0 <= k < |rows| ==> rows[k].baseCurrency == base
  {
    rows := [];
    var i := 0;
    while i < |ratesByDate|
      invariant 0 <= i <= |ratesByDate|
      invariant rows == Flattened(base, ratesByDate[..i])
      invariant forall k :: 0 <= k < |rows| ==> rows[k].baseCurrency == base
    {
      var (date, rates) := ratesByDate[i];
      var j := 0;
      while j < |rates|
        invariant 0 <= j <= |rates|
        invariant rows == Flattened(base, ratesByDate[..i]) + DateRows(base, date, rates[..j])
        invariant forall k :: 0 <= k < |rows| ==> rows[k].baseCurrency == base
      {
        var (currency, rate) := rates[j];
        assert DateRows(base, date, rates[..j + 1]) == DateRows(base, date, rates[..j]) + [RateRow(base, currency, rate, date)];
        rows := rows + [RateRow(base, currency, rate, date)];
        j := j + 1;
      }
      assert rates[..j] == rates;
      assert ratesByDate[..i + 1][..i] == ratesByDate[..i];
      i := i + 1;
    }
    assert ratesByDate[..i] == ratesByDate;
    FlattenedCount(base, ratesByDate);
  }

  lemma {:induction false} TotalRatesAppend<R>(a: Assoc<Assoc<R>>, b: Assoc<Assoc<R>>)
    ensures TotalRates(a + b) == TotalRates(a) + TotalRates(b)
    decreases |a|
  {
    if a != [] {
      assert (a + b)[1..] == a[1..] + b;
      TotalRatesAppend(a[1..], b);
    } else {
      assert a + b == b;
    }
  }

  /** There are as many rows as (date, currency) pairs. */
  lemma {:induction false} FlattenedCount<R>(base: Option<string>, ratesByDate: Assoc<Assoc<R>>)
    ensures |Flattened(base, ratesByDate)| == TotalRates(ratesByDate)
    decreases |ratesByDate|
  {
    if ratesByDate != [] {
      var n := |ratesByDate| - 1;
      FlattenedCount(base, ratesByDate[..n]);
      assert ratesByDate == ratesByDate[..n] + [ratesByDate[n]];
      TotalRatesAppend(ratesByDate[..n], [ratesByDate[n]]);
      assert TotalRates([ratesByDate[n]]) == |ratesByDate[n].1| + TotalRates([ratesByDate[n]][1..]);
    }
  }

  /** Flattening two documents' date lists one after the other concatenates their rows. */
  lemma {:induction false} FlattenedAppend<R>(base: Option<string>, a: Assoc<Assoc<R>>, b: Assoc<Assoc<R>>)
    ensures Flattened(base, a + b) == Flattened(base, a) + Flattened(base, b)
    decreases |b|
  {
    if b == [] {
      assert a + b == a;
    } else {
      var n := |b| - 1;
      assert (a + b)[..|a + b| - 1] == a + b[..n];
      assert (a + b)[|a + b| - 1] == b[n];
      FlattenedAppend(base, a, b[..n]);
    }
  }

  /**
   * Rows are date-major: the rows of date i form one contiguous block, in
   * currency order, between the rows of the dates before it and after it.
   */
  lemma FlattenedBlocks<R>(base: Option<string>, ratesByDate: Assoc<Assoc<R>>, i: nat)
    requires i < |ratesByDate|
    ensures Flattened(base, ratesByDate) ==
            Flattened(base, ratesByDate[..i])
            + DateRows(base, ratesByDate[i].0, ratesByDate[i].1)
            + Flattened(base, ratesByDate[i + 1..])
  {
    var s := ratesByDate;
    assert s == (s[..i] + [s[i]]) + s[i + 1..];
    FlattenedAppend(base, s[..i] + [s[i]], s[i + 1..]);
    FlattenedAppend(base, s[..i], [s[i]]);
    assert [s[i]][..0] == [];
  }

  /** Currency j of date i becomes row number Offset(i) + j, with its own date, currency and rate. */
  lemma FlattenedAt<R>(base: Option<string>, ratesByDate: Assoc<Assoc<R>>, i: nat, j: nat)
    requires i < |ratesByDate| && j < |ratesByDate[i].1|
    ensures Offset(ratesByDate, i) + j < |Flattened(base, ratesByDate)|
    ensures Flattened(base, ratesByDate)[Offset(ratesByDate, i) + j] == RowFor(base, ratesByDate, i, j)
  {
    FlattenedBlocks(base, ratesByDate, i);
    FlattenedCount(base, ratesByDate[..i]);
  }

  /** Every row comes from one (date, currency) entry, and every entry gives a row. */
  lemma {:induction false} FlattenedMembers<R>(base: Option<string>, ratesByDate: Assoc<Assoc<R>>, row: RateRow<R>)
    ensures row in Flattened(base, ratesByDate) <==>
            exists i: nat, j: nat | i < |ratesByDate| && j < |ratesByDate[i].1| :: row == RowFor(base, ratesByDate, i, j)
    decreases |ratesByDate|
  {
    var s := ratesByDate;
    if s != [] {
      var n := |s| - 1;
      var prev := s[..n];
      FlattenedMembers(base, prev, row);
      var block := DateRows(base, s[n].0, s[n].1);
      if row in Flattened(base, s) {
        if row in Flattened(base, prev) {
          var i: nat, j: nat :| i < |prev| && j < |prev[i].1| && row == RowFor(base, prev, i, j);
          assert row == RowFor(base, s, i, j);
        } else {
          assert row in block;
          var j :| 0 <= j < |block| && block[j] == row;
          assert row == RowFor(base, s, n, j);
        }
      }
      if exists i: nat, j: nat | i < |s| && j < |s[i].1| :: row == RowFor(base, s, i, j) {
        var i: nat, j: nat :| i < |s| && j < |s[i].1| && row == RowFor(base, s, i, j);
        if i < n {
          assert row == RowFor(base, prev, i, j);
        } else {
          assert row == block[j];
        }
      }
    }
  }

  // ---------------------------------------------------------------------------
  // The document as a map
  // ---------------------------------------------------------------------------

  /** Keys of a Python dict are distinct. */
  predicate UniqueKeys<V>(a: Assoc<V>) {
    forall p, q :: 0 <= p < q < |a| ==> a[p].0 != a[q].0
  }

  predicate WellFormedRates<R>(ratesByDate: Assoc<Assoc<R>>) {
    UniqueKeys(ratesByDate) && forall i :: 0 <= i < |ratesByDate| ==> UniqueKeys(ratesByDate[i].1)
  }

  /** Python's `d.get(k)`. */
  function Get<V>(a: Assoc<V>, k: string): Option<V> {
    if a == [] then None else if a[0].0 == k then Some(a[0].1) else Get(a[1..], k)
  }

  /** `rates_by_date[date][currency]`, None where either key is missing. */
  function RateAt<R>(ratesByDate: Assoc<Assoc<R>>, date: string, currency: string): Option<R> {
    match Get(ratesByDate, date)
    case None => None
    case Some(rates) => Get(rates, currency)
  }

  lemma {:induction false} GetAt<V>(a: Assoc<V>, i: nat)
    requires UniqueKeys(a) && i < |a|
    ensures Get(a, a[i].0) == Some(a[i].1)
  {
    if i > 0 {
      assert a[1..][i - 1] == a[i];
      GetAt(a[1..], i - 1);
    }
  }

  lemma {:induction false} GetIndex<V>(a: Assoc<V>, k: string) returns (i: nat)
    requires Get(a, k).Some?
    ensures i < |a| && a[i].0 == k && a[i].1 == Get(a, k).value
  {
    if a[0].0 == k {
      i := 0;
    } else {
      var t := GetIndex(a[1..], k);
      i := t + 1;
    }
  }

  /**
   * For a document whose dicts have distinct keys, the rows are exactly the
   * entries of the nested map, each carrying the document's base: nothing is
   * synthesised and nothing is dropped.
   */
  lemma FlattenedLookup<R>(base: Option<string>, ratesByDate: Assoc<Assoc<R>>, row: RateRow<R>)
    requires WellFormedRates(ratesByDate)
    ensures row in Flattened(base, ratesByDate) <==>
            row.baseCurrency == base && RateAt(ratesByDate, row.date, row.targetCurrency) == Some(row.rate)
  {
    var s := ratesByDate;
    FlattenedMembers(base, s, row);
    if row in Flattened(base, s) {
      var i: nat, j: nat :| i < |s| && j < |s[i].1| && row == RowFor(base, s, i, j);
      GetAt(s, i);
      GetAt(s[i].1, j);
    }
    if row.baseCurrency == base && RateAt(s, row.date, row.targetCurrency) == Some(row.rate) {
      var i := GetIndex(s, row.date);
      var j := GetIndex(s[i].1, row.targetCurrency);
      assert row == RowFor(base, s, i, j);
    }
  }

  /**
   * The set of rows does not depend on the order the dicts are iterated in:
   * two documents holding the same nested map give the same rows.
   */
  lemma FlattenedOrderInvariant<R>(base: Option<string>, a: Assoc<Assoc<R>>, b: Assoc<Assoc<R>>)
    requires WellFormedRates(a) && WellFormedRates(b)
    requires forall d, c :: RateAt(a, d, c) == RateAt(b, d, c)
    ensures forall row :: row in Flattened(base, a) <==> row in Flattened(base, b)
  {
    forall row
      ensures row in Flattened(base, a) <==> row in Flattened(base, b)
    {
      FlattenedLookup(base, a, row);
      FlattenedLookup(base, b, row);
    }
  }

  /** No two rows share their (date, currency) pair. */
  predicate DistinctPairs<R>(rows: seq<RateRow<R>>) {
    forall k1, k2 :: 0 <= k1 < k2 < |rows| ==>
      rows[k1].date != rows[k2].date || rows[k1].targetCurrency != rows[k2].targetCurrency
  }

  /** For distinct dict keys there is exactly one row per (date, currency) pair. */
  lemma {:induction false} FlattenedDistinct<R>(base: Option<string>, ratesByDate: Assoc<Assoc<R>>)
    requires WellFormedRates(ratesByDate)
    ensures DistinctPairs(Flattened(base, ratesByDate))
    decreases |ratesByDate|
  {
    var s := ratesByDate;
    if s != [] {
      var n := |s| - 1;
      var prev := s[..n];
      assert WellFormedRates(prev);
      FlattenedDistinct(base, prev);
      var head := Flattened(base, prev);
      var block := DateRows(base, s[n].0, s[n].1);
      var rows := Flattened(base, s);
      assert rows == head + block;
      assert DistinctPairs(head);
      forall k1, k2 | 0 <= k1 < k2 < |rows|
        ensures rows[k1].date != rows[k2].date || rows[k1].targetCurrency != rows[k2].targetCurrency
      {
        if k2 < |head| {
          assert rows[k1] == head[k1] && rows[k2] == head[k2];
          assert head[k1].date != head[k2].date || head[k1].targetCurrency != head[k2].targetCurrency;
        } else if k1 >= |head| {
          assert UniqueKeys(s[n].1);
          assert rows[k1] == block[k1 - |head|] && rows[k2] == block[k2 - |head|];
          assert s[n].1[k1 - |head|].0 != s[n].1[k2 - |head|].0;
          assert rows[k1].targetCurrency != rows[k2].targetCurrency;
        } else {
          assert rows[k1] == head[k1] && rows[k2] == block[k2 - |head|];
          assert rows[k1] in head;
          FlattenedMembers(base, prev, rows[k1]);
          var i: nat, j: nat :| i < |prev| && j < |prev[i].1| && rows[k1] == RowFor(base, prev, i, j);
          assert rows[k1].date == s[i].0;
          assert rows[k2].date == s[n].0;
          assert s[i].0 != s[n].0;
          assert rows[k1].date != rows[k2].date;
        }
      }
    }
  }

  // ---------------------------------------------------------------------------
  // Output key
  // ---------------------------------------------------------------------------

  /** Facts about the literals the key derivation uses. */
  lemma LiteralFacts()
    ensures |BasePath| == 14 && '/' !in BasePath && '.' !in BasePath
    ensures |JsonSuffix| == 5 && Borderless(JsonSuffix) && '/' !in JsonSuffix
    ensures forall f: OutputFormat :: '/' !in Extension(f)
  {
  }

  /** The file name part of the output key: the last `/`-segment with every `.json` replaced. */
  function OutFileName(key: string, format: OutputFormat): string {
    Replace(LastSegment(key, '/'), JsonSuffix, Extension(format))
  }

  /** `exchange_rates/` followed by the file name. */
  function OutKey(key: string, format: OutputFormat): string {
    BasePath + "/" + OutFileName(key, format)
  }

  /** In `p + [c] + name`, with c in neither part, c occurs exactly once, at index |p|. */
  lemma SingleSeparator(p: string, c: char, name: string)
    requires c !in p && c !in name
    ensures var s := p + [c] + name;
            forall i :: 0 <= i < |s| ==> (s[i] == c <==> i == |p|)
  {
    var s := p + [c] + name;
    forall i | 0 <= i < |s|
      ensures s[i] == c <==> i == |p|
    {
      if i < |p| {
        assert s[i] == p[i];
      } else if i > |p| {
        assert s[i] == name[i - |p| - 1];
      }
    }
  }

  /**
   * Every output key lies under `exchange_rates/` and contains no other `/`:
   * exactly one `/`, right after the base folder.
   */
  lemma OutKeyShape(key: string, format: OutputFormat)
    ensures StartsWith(OutKey(key, format), BasePath + "/")
    ensures var out := OutKey(key, format);
            forall i :: 0 <= i < |out| ==> (out[i] == '/' <==> i == |BasePath|)
  {
    var name := OutFileName(key, format);
    LiteralFacts();
    ReplaceChars(LastSegment(key, '/'), JsonSuffix, Extension(format), '/');
    assert '/' !in name;
    SingleSeparator(BasePath, '/', name);
    assert BasePath + "/" + name == BasePath + ['/'] + name;
  }

  /** For a raw key ending in `.json`, the output key ends in the format's extension. */
  lemma OutKeyExtension(key: string, format: OutputFormat)
    requires EndsWith(key, JsonSuffix)
    ensures EndsWith(OutKey(key, format), Extension(format))
  {
    LiteralFacts();
    var ext := Extension(format);
    SegmentReplaceTrailing(key, '/', JsonSuffix, ext);
    var name := OutFileName(key, format);
    var out := BasePath + "/" + name;
    assert out[|out| - |ext|..] == name[|name| - |ext|..];
  }

  /** A key `dir/X.json` (X without `/` or `.json`) is written as `exchange_rates/X.<format>`. */
  lemma OutKeyOfName(dir: string, x: string, format: OutputFormat)
    requires dir == [] || dir[|dir| - 1] == '/'
    requires '/' !in x && !Contains(x, JsonSuffix)
    ensures OutKey(dir + x + JsonSuffix, format) == BasePath + "/" + x + Extension(format)
  {
    LiteralFacts();
    var ext := Extension(format);
    SegmentReplaceName(dir, x, '/', JsonSuffix, ext);
    assert OutFileName(dir + x + JsonSuffix, format) == x + ext;
    assert BasePath + "/" + (x + ext) == BasePath + "/" + x + ext;
  }

  /**
   * Every `.json` in the file name is replaced, not only a trailing one: for
   * a key `dir/X.jsonY` the parts X and Y are rewritten independently around
   * the occurrence.
   */
  lemma OutKeyReplacesEach(dir: string, x: string, y: string, format: OutputFormat)
    requires dir == [] || dir[|dir| - 1] == '/'
    requires '/' !in x && '/' !in y
    ensures var ext := Extension(format);
            OutKey(dir + x + JsonSuffix + y, format) ==
            BasePath + "/" + Replace(x, JsonSuffix, ext) + ext + Replace(y, JsonSuffix, ext)
  {
    LiteralFacts();
    var ext := Extension(format);
    SegmentReplaceSplit(dir, x, y, '/', JsonSuffix, ext);
    var a, b := Replace(x, JsonSuffix, ext), Replace(y, JsonSuffix, ext);
    assert OutFileName(dir + x + JsonSuffix + y, format) == a + ext + b;
    assert BasePath + "/" + (a + ext + b) == BasePath + "/" + a + ext + b;
  }

  // ---------------------------------------------------------------------------
  // process_key
  // ---------------------------------------------------------------------------

  /**
   * The requests process_key makes for one key. `objects` holds the raw
   * objects that can be read and parsed; any other key fails after its read.
   */
  function KeyCalls<R>(objects: map<string, Payload<R>>, rawBucket: string, processedBucket: string,
                       format: OutputFormat, key: string): seq<S3Call<R>>
  {
    if key !in objects then [GetObject(rawBucket, key)]
    else [GetObject(rawBucket, key), KeyPut(objects, processedBucket, format, key)]
  }

  /** The write process_key makes for a key it could read. */
  function KeyPut<R>(objects: map<string, Payload<R>>, processedBucket: string, format: OutputFormat, key: string): S3Call<R>
    requires key in objects
  {
    var payload := objects[key];
    PutObject(processedBucket, OutKey(key, format), Flattened(payload.base, RatesOf(payload)), ContentType(format))
  }

  /**
   * process_key: read and parse the object, flatten it, derive the output key
   * and write the rows with the format's content type.
   */
  method ProcessKey<R>(objects: map<string, Payload<R>>, rawBucket: string, processedBucket: string,
                       format: OutputFormat, key: string)
    returns (calls: seq<S3Call<R>>, outKey: Result<string, JobError>)
    ensures calls == KeyCalls(objects, rawBucket, processedBucket, format, key)
    ensures outKey.Ok? <==> key in objects
    ensures outKey.Ok? ==> outKey.value == OutKey(key, format)
    ensures outKey.Err? ==> outKey.error == ObjectFailed(key)
    ensures key in objects && RatesOf(objects[key]) == [] ==> calls[1].body == []
  {
    calls := [GetObject(rawBucket, key)];
    if key !in objects {
      return calls, Err(ObjectFailed(key));
    }
    var payload := objects[key];
    var rows := FlattenRates(payload.base, RatesOf(payload));
    var filename := OutFileName(key, format);
    var out := BasePath + "/" + filename;
    if format == Parquet {
      calls := calls + [PutObject(processedBucket, out, rows, "application/x-parquet")];
    } else {
      calls := calls + [PutObject(processedBucket, out, rows, "text/csv")];
    }
    return calls, Ok(out);
  }

  // ---------------------------------------------------------------------------
  // list_json_keys
  // ---------------------------------------------------------------------------

  function PageKeys(page: Page): seq<string> {
    match page.contents
    case None => []
    case Some(objs) => seq(|objs|, i requires 0 <= i < |objs| => objs[i].key)
  }

  /** Every listed key, in page order. */
  function ListedKeys(pages: seq<Page>): seq<string> {
    if pages == [] then [] else ListedKeys(pages[..|pages| - 1]) + PageKeys(pages[|pages| - 1])
  }

  /** The keys that end in `.json`, in their original order. */
  function JsonOnly(keys: seq<string>): (r: seq<string>)
    ensures forall k :: k in r <==> k in keys && EndsWith(k, JsonSuffix)
  {
    if keys == [] then []
    else if EndsWith(keys[0], JsonSuffix) then [keys[0]] + JsonOnly(keys[1..])
    else JsonOnly(keys[1..])
  }

  lemma {:induction false} JsonOnlyAppend(a: seq<string>, b: seq<string>)
    ensures JsonOnly(a + b) == JsonOnly(a) + JsonOnly(b)
    decreases |a|
  {
    if a == [] {
      assert a + b == b;
    } else {
      assert (a + b)[1..] == a[1..] + b;
      JsonOnlyAppend(a[1..], b);
    }
  }

  /**
   * list_json_keys: drain the paginated listing, keeping the `.json` keys of
   * each page that has Contents.
   */
  method ListJsonKeys(pages: seq<Page>) returns (keys: seq<string>)
    ensures keys == JsonOnly(ListedKeys(pages))
    ensures forall k :: k in keys <==> k in ListedKeys(pages) && EndsWith(k, JsonSuffix)
  {
    keys := [];
    var i := 0;
    while i < |pages|
      invariant 0 <= i <= |pages|
      invariant keys == JsonOnly(ListedKeys(pages[..i]))
    {
      var page := pages[i];
      assert pages[..i + 1][..i] == pages[..i];
      JsonOnlyAppend(ListedKeys(pages[..i]), PageKeys(page));
      if page.contents.Some? {
        keys := keys + JsonOnly(PageKeys(page));
      } else {
        assert PageKeys(page) == [];
      }
      i := i + 1;
    }
    assert pages[..i] == pages;
  }

  // ---------------------------------------------------------------------------
  // main
  // ---------------------------------------------------------------------------

  /** The requests for a sequence of keys, and the first key that failed, if any. */
  datatype Run<R> = Run(calls: seq<S3Call<R>>, failed: Option<string>)

  /** process_key as a step of the loop in main. */
  function KeySteps<R>(objects: map<string, Payload<R>>, rawBucket: string, processedBucket: string,
                       format: OutputFormat): string -> seq<S3Call<R>>
  {
    k => KeyCalls(objects, rawBucket, processedBucket, format, k)
  }

  /**
   * The loop of main: run each key's step in order and stop at the first key
   * that is not readable (its step raises).
   */
  function RunKeys<R>(step: string -> seq<S3Call<R>>, readable: set<string>, keys: seq<string>): Run<R> {
    if keys == [] then Run([], None)
    else
      var n := |keys| - 1;
      var prev := RunKeys(step, readable, keys[..n]);
      if prev.failed.Some? then prev
      else Run(prev.calls + step(keys[n]), if keys[n] in readable then None else Some(keys[n]))
  }

  /** All the keys' steps, one after the other. */
  function AllSteps<R>(step: string -> seq<S3Call<R>>, keys: seq<string>): seq<S3Call<R>> {
    if keys == [] then [] else AllSteps(step, keys[..|keys| - 1]) + step(keys[|keys| - 1])
  }

  /** When every key is readable, every step runs and nothing fails. */
  lemma {:induction false} RunKeysComplete<R>(step: string -> seq<S3Call<R>>, readable: set<string>, keys: seq<string>)
    requires forall k :: k in keys ==> k in readable
    ensures RunKeys(step, readable, keys) == Run(AllSteps(step, keys), None)
    decreases |keys|
  {
    if keys != [] {
      var n := |keys| - 1;
      assert forall k :: k in keys[..n] ==> k in keys;
      RunKeysComplete(step, readable, keys[..n]);
      assert keys[n] in keys;
    }
  }

  /**
   * The first key that is not readable aborts the run: the keys before it
   * run completely, its own step runs, and nothing after it.
   */
  lemma {:induction false} RunKeysStops<R>(step: string -> seq<S3Call<R>>, readable: set<string>,
                                           keys: seq<string>, idx: nat)
    requires idx < |keys| && keys[idx] !in readable
    requires forall t :: 0 <= t < idx ==> keys[t] in readable
    ensures RunKeys(step, readable, keys) == Run(AllSteps(step, keys[..idx]) + step(keys[idx]), Some(keys[idx]))
    decreases |keys|
  {
    var n := |keys| - 1;
    if n == idx {
      assert forall k :: k in keys[..idx] ==> k in readable;
      RunKeysComplete(step, readable, keys[..idx]);
    } else {
      assert keys[..n][..idx] == keys[..idx];
      RunKeysStops(step, readable, keys[..n], idx);
    }
  }

  /** One more key: its step runs after the others, and it fails when it is not readable. */
  lemma RunKeysNext<R>(step: string -> seq<S3Call<R>>, readable: set<string>, keys: seq<string>, i: nat)
    requires i < |keys|
    requires RunKeys(step, readable, keys[..i]).failed == None
    ensures RunKeys(step, readable, keys[..i + 1]) ==
            Run(RunKeys(step, readable, keys[..i]).calls + step(keys[i]),
                if keys[i] in readable then None else Some(keys[i]))
  {
    assert keys[..i + 1][..i] == keys[..i];
  }

  /** Once a run has failed, later keys add nothing. */
  lemma {:induction false} RunKeysPrefix<R>(step: string -> seq<S3Call<R>>, readable: set<string>,
                                            keys: seq<string>, m: nat)
    requires m <= |keys|
    requires RunKeys(step, readable, keys[..m]).failed.Some?
    ensures RunKeys(step, readable, keys) == RunKeys(step, readable, keys[..m])
    decreases |keys|
  {
    if m < |keys| {
      var n := |keys| - 1;
      assert keys[..n][..m] == keys[..m];
      RunKeysPrefix(step, readable, keys[..n], m);
    } else {
      assert keys[..m] == keys;
    }
  }

  /** Steps of two requests each lie at indices 2t and 2t + 1. */
  lemma {:induction false} AllStepsPairs<R>(step: string -> seq<S3Call<R>>, keys: seq<string>)
    requires forall t :: 0 <= t < |keys| ==> |step(keys[t])| == 2
    ensures |AllSteps(step, keys)| == 2 * |keys|
    ensures forall t :: 0 <= t < |keys| ==>
              AllSteps(step, keys)[2 * t] == step(keys[t])[0] && AllSteps(step, keys)[2 * t + 1] == step(keys[t])[1]
    decreases |keys|
  {
    if keys != [] {
      var n := |keys| - 1;
      var prev := keys[..n];
      assert forall t :: 0 <= t < |prev| ==> prev[t] == keys[t];
      AllStepsPairs(step, prev);
    }
  }

  /**
   * When every listed key can be read, main reads each key in turn and then
   * writes its rows to its output key, and nothing fails.
   */
  lemma ProcessAllKeys<R>(objects: map<string, Payload<R>>, rawBucket: string, processedBucket: string,
                          format: OutputFormat, keys: seq<string>)
    requires forall k :: k in keys ==> k in objects
    ensures var run := RunKeys(KeySteps(objects, rawBucket, processedBucket, format), objects.Keys, keys);
            run.failed == None && |run.calls| == 2 * |keys| &&
            forall t :: 0 <= t < |keys| ==>
              run.calls[2 * t] == GetObject(rawBucket, keys[t]) &&
              run.calls[2 * t + 1] == KeyPut(objects, processedBucket, format, keys[t])
  {
    var step := KeySteps(objects, rawBucket, processedBucket, format);
    RunKeysComplete(step, objects.Keys, keys);
    forall t | 0 <= t < |keys|
      ensures step(keys[t]) == [GetObject(rawBucket, keys[t]), KeyPut(objects, processedBucket, format, keys[t])]
    {
      assert keys[t] in keys;
    }
    AllStepsPairs(step, keys);
  }

  /**
   * The loop of main: process_key on each key in order; the first one that
   * raises ends the loop with its error.
   */
  method ProcessKeys<R>(objects: map<string, Payload<R>>, rawBucket: string, processedBucket: string,
                        format: OutputFormat, keys: seq<string>)
    returns (calls: seq<S3Call<R>>, error: Option<JobError>)
    ensures var run := RunKeys(KeySteps(objects, rawBucket, processedBucket, format), objects.Keys, keys);
            calls == run.calls &&
            error == (if run.failed.Some? then Some(ObjectFailed(run.failed.value)) else None)
  {
    ghost var step := KeySteps(objects, rawBucket, processedBucket, format);
    calls := [];
    var i := 0;
    while i < |keys|
      invariant 0 <= i <= |keys|
      invariant RunKeys(step, objects.Keys, keys[..i]) == Run(calls, None)
    {
      var key := keys[i];
      var keyCalls, outKey := ProcessKey(objects, rawBucket, processedBucket, format, key);
      RunKeysNext(step, objects.Keys, keys, i);
      assert keyCalls == step(key);
      calls := calls + keyCalls;
      if outKey.Err? {
        assert key !in objects.Keys;
        RunKeysPrefix(step, objects.Keys, keys, i + 1);
        return calls, Some(ObjectFailed(key));
      }
      assert key in objects.Keys;
      i := i + 1;
    }
    assert keys[..i] == keys;
    return calls, None;
  }

  /**
   * The job: the start-up format check, then main. An unknown format fails
   * before any request; otherwise the raw bucket is listed and every `.json`
   * key processed in listing order until one fails.
   */
  method RunJob<R>(outputFormat: string, rawBucket: string, processedBucket: string,
                   pages: seq<Page>, objects: map<string, Payload<R>>)
    returns (calls: seq<S3Call<R>>, error: Option<JobError>)
    ensures ParseOutputFormat(outputFormat).Err? ==>
              calls == [] && error == Some(InvalidOutputFormat)
    ensures ParseOutputFormat(outputFormat).Ok? ==>
              var format := ParseOutputFormat(outputFormat).value;
              var run := RunKeys(KeySteps(objects, rawBucket, processedBucket, format), objects.Keys,
                                 JsonOnly(ListedKeys(pages)));
              calls == [ListObjects(rawBucket)] + run.calls &&
              error == (if run.failed.Some? then Some(ObjectFailed(run.failed.value)) else None)
  {
    var parsed := ParseOutputFormat(outputFormat);
    if parsed.Err? {
      return [], Some(parsed.error);
    }
    var keys := ListJsonKeys(pages);
    var keyCalls;
    keyCalls, error := ProcessKeys(objects, rawBucket, processedBucket, parsed.value, keys);
    calls := [ListObjects(rawBucket)] + keyCalls;
  }
}
