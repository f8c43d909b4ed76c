/** The decision code of the storage client (backend/supabase_client.py): the name an upload is
    stored under, the object a deletion removes, the statistics aggregated over fetched rows and
    the unpacking of the document-number RPC. The database, the storage bucket and the clock are
    inputs: what they return is passed in, what is sent to them is returned. */
module Store {
  import opened Common
  import opened Text
  import opened Ranking

  // ---------------------------------------------------------------------------------------
  // Upload: the stored object's name and content type
  // ---------------------------------------------------------------------------------------

  /** A moment as `datetime.now()` gives it; `MINYEAR` and `MAXYEAR` bound the year, and a
      year below 1000 is left out (see README). */
  datatype Moment = Moment(year: nat, month: nat, day: nat, hour: nat, minute: nat, second: nat)

  predicate ValidMoment(t: Moment) {
    && 1000 <= t.year <= 9999 && 1 <= t.month <= 12 && 1 <= t.day <= 31
    && t.hour < 24 && t.minute < 60 && t.second < 60
  }

  /** `n` written in decimal with exactly `width` digits, zero-padded. */
  function Digits(n: nat, width: nat): (r: string)
    requires n < Power10(width)
    ensures |r| == width && forall i :: 0 <= i < |r| ==> IsDigit(r[i])
  {
    if width == 0 then [] else Digits(n / 10, width - 1) + ['0' + (n % 10) as char]
  }

  function Power10(k: nat): (p: nat)
    ensures p >= 1
  {
    if k == 0 then 1 else 10 * Power10(k - 1)
  }

  /** The value a fixed-width decimal string stands for. */
  function DigitsValue(s: string): nat
    requires forall i :: 0 <= i < |s| ==> IsDigit(s[i])
  {
    if s == [] then 0 else 10 * DigitsValue(s[..|s| - 1]) + DigitValue(s[|s| - 1])
  }

  lemma {:induction false} DigitsRoundTrip(n: nat, width: nat)
    requires n < Power10(width)
    ensures DigitsValue(Digits(n, width)) == n
  {
    if width > 0 {
      DigitsRoundTrip(n / 10, width - 1);
      var r := Digits(n, width);
      assert r[..|r| - 1] == Digits(n / 10, width - 1);
    }
  }

  /** `strftime('%Y%m%d_%H%M%S')`. */
  function Stamp(t: Moment): (r: string)
    requires ValidMoment(t)
    ensures |r| == 15 && r[8] == '_'
  {
    Digits(t.year, 4) + Digits(t.month, 2) + Digits(t.day, 2) + "_"
      + Digits(t.hour, 2) + Digits(t.minute, 2) + Digits(t.second, 2)
  }

  /** The object name of an upload: the timestamp, `_`, then the file's name. */
  function UniqueName(t: Moment, filename: string): (r: string)
    requires ValidMoment(t)
    ensures |r| == 16 + |filename| && r[15] == '_'
  {
    Stamp(t) + "_" + filename
  }

  lemma DigitsInjective(a: nat, b: nat, width: nat)
    requires a < Power10(width) && b < Power10(width)
    requires Digits(a, width) == Digits(b, width)
    ensures a == b
  {
    DigitsRoundTrip(a, width);
    DigitsRoundTrip(b, width);
  }

  /** The six fields of a timestamp can be read back at fixed positions. */
  lemma StampFields(t: Moment)
    requires ValidMoment(t)
    ensures var s := Stamp(t);
      && s[..4] == Digits(t.year, 4) && s[4..6] == Digits(t.month, 2) && s[6..8] == Digits(t.day, 2)
      && s[9..11] == Digits(t.hour, 2) && s[11..13] == Digits(t.minute, 2) && s[13..15] == Digits(t.second, 2)
  {
  }

  /** Two uploads share an object name only when they were made in the same second under the
      same file name: the timestamp and the name can both be read back from the object name. */
  lemma UniqueNameInjective(t1: Moment, f1: string, t2: Moment, f2: string)
    requires ValidMoment(t1) && ValidMoment(t2)
    requires UniqueName(t1, f1) == UniqueName(t2, f2)
    ensures t1 == t2 && f1 == f2
  {
    var n1, n2 := UniqueName(t1, f1), UniqueName(t2, f2);
    assert f1 == n1[16..] && f2 == n2[16..];
    var s1, s2 := Stamp(t1), Stamp(t2);
    assert s1 == n1[..15] && s2 == n2[..15];
    StampFields(t1);
    StampFields(t2);
    DigitsInjective(t1.year, t2.year, 4);
    DigitsInjective(t1.month, t2.month, 2);
    DigitsInjective(t1.day, t2.day, 2);
    DigitsInjective(t1.hour, t2.hour, 2);
    DigitsInjective(t1.minute, t2.minute, 2);
    DigitsInjective(t1.second, t2.second, 2);
  }

  const DefaultMimeType := "application/octet-stream"

  /** What `upload_file` sends to the bucket: the object name and the content type, which is
      the guessed MIME type or the generic binary type when the guess fails. */
  function UploadObject(t: Moment, filename: string, guessedMime: Option<string>): (r: (string, string))
    requires ValidMoment(t)
    ensures |r.0| == 16 + |filename| && r.0[16..] == filename && r.0[..15] == Stamp(t)
    ensures guessedMime.Some? ==> r.1 == guessedMime.value
    ensures guessedMime.None? ==> r.1 == DefaultMimeType
  {
    (UniqueName(t, filename), if guessedMime.Some? then guessedMime.value else DefaultMimeType)
  }

  // ---------------------------------------------------------------------------------------
  // Deletion: the object named by the last segment of the storage URL
  // ---------------------------------------------------------------------------------------

  /** `url.split('/')[-1]`. */
  function LastSegment(url: string): (r: string)
    ensures '/' !in r
    ensures |r| <= |url| && url[|url| - |r|..] == r
    ensures |r| < |url| ==> url[|url| - |r| - 1] == '/'
  {
    match LastIndex(url, '/')
    case None => url
    case Some(k) => url[k + 1..]
  }

  /** The object removed for a URL made of a base, `/` and an object name is that name. */
  lemma LastSegmentOfJoin(base: string, name: string)
    requires '/' !in name
    ensures LastSegment(base + "/" + name) == name
  {
    var url := base + "/" + name;
    var r := LastSegment(url);
    assert url[|base|] == '/';
    assert forall k :: |base| < k < |url| ==> url[k] == name[k - |base| - 1];
    var m := LastIndex(url, '/').value;
    NotInSuffix(url, m + 1, |base|, '/');
  }

  /** The stored document record, as far as deletion reads it. */
  datatype StoredDocument = StoredDocument(storageUrl: Option<string>)

  /** `delete_document`: the document as fetched (`None` when it is missing or the fetch
      failed) and whether the record deletion succeeded give the storage object to remove, if
      any, and the returned flag. */
  function DeleteDocument(document: Option<StoredDocument>, recordDeleted: bool): (r: (Option<string>, bool))
    ensures document.None? ==> r == (None, false)
    ensures r.1 <==> document.Some? && recordDeleted
    ensures r.0.Some? <==> document.Some? && document.value.storageUrl.Some? && document.value.storageUrl.value != []
    ensures r.0.Some? ==> '/' !in r.0.value
  {
    match document
    case None => (None, false)
    case Some(d) =>
      var removed := if d.storageUrl.Some? && d.storageUrl.value != [] then Some(LastSegment(d.storageUrl.value)) else None;
      (removed, recordDeleted)
  }

  /** Deleting a document uploaded under `filename` removes the very object the upload
      created, when the bucket's public URL for an object is a base, `/` and its name. */
  lemma DeleteRemovesUploadedObject(t: Moment, filename: string, guessedMime: Option<string>, base: string)
    requires ValidMoment(t) && '/' !in filename
    ensures var name := UploadObject(t, filename, guessedMime).0;
      DeleteDocument(Some(StoredDocument(Some(base + "/" + name))), true) == (Some(name), true)
  {
    var name := UploadObject(t, filename, guessedMime).0;
    assert name == Stamp(t) + "_" + filename;
    assert forall i :: 0 <= i < 15 ==> IsDigit(Stamp(t)[i]) || i == 8 by {
      var s := Stamp(t);
      assert s == Digits(t.year, 4) + Digits(t.month, 2) + Digits(t.day, 2) + "_"
        + Digits(t.hour, 2) + Digits(t.minute, 2) + Digits(t.second, 2);
    }
    assert '/' !in name by {
      forall i | 0 <= i < |name| ensures name[i] != '/' {
        if i >= 16 { assert name[i] == filename[i - 16]; }
      }
    }
    LastSegmentOfJoin(base, name);
  }

  // ---------------------------------------------------------------------------------------
  // Statistics over the fetched rows
  // ---------------------------------------------------------------------------------------

  /** A column of a fetched row: missing from the row, present as JSON null, or a value. */
  datatype Column<T> = Absent | Null | Present(value: T)

  datatype Row = Row(documentType: Column<string>, confidence: Column<real>)

  /** The result of `get_statistics`: the total, the per-category counts in the dict's order
      (a null document type is counted under the key `None`) and the average confidence. */
  datatype Statistics = Statistics(total: nat, byCategory: seq<(Option<string>, nat)>, average: real)

  const Zero := Statistics(0, [], 0.0)

  /** `doc.get('document_type', 'Unknown')`. */
  function Category(row: Row): Option<string> {
    match row.documentType
    case Absent => Some("Unknown")
    case Null => None
    case Present(t) => Some(t)
  }

  function Categories(rows: seq<Row>): (r: seq<Option<string>>)
    ensures |r| == |rows| && forall i :: 0 <= i < |rows| ==> r[i] == Category(rows[i])
  {
    seq(|rows|, i requires 0 <= i < |rows| => Category(rows[i]))
  }

  /** `total_confidence += doc.get('confidence', 0)` raises on a null confidence. */
  predicate HasNullConfidence(rows: seq<Row>) {
    exists i :: 0 <= i < |rows| && rows[i].confidence.Null?
  }

  /** The sum of the confidences, a missing one counting 0. */
  function ConfidenceSum(rows: seq<Row>): real {
    if rows == [] then 0.0
    else
      var last := rows[|rows| - 1].confidence;
      ConfidenceSum(rows[..|rows| - 1]) + (if last.Present? then last.value else 0.0)
  }

  /** `get_statistics` on the rows the query returned (`Err` when the query raised): the zero
      record when the query failed, found no rows or met a null confidence; otherwise the
      number of rows, the rows counted per category and the mean confidence. */
  function GetStatisticsOf(fetched: Result<seq<Row>, string>): (s: Statistics)
    ensures s.total == 0 ==> s == Zero
    ensures s.total == 0 <==> fetched.Err? || fetched.value == [] || HasNullConfidence(fetched.value)
    ensures s.total > 0 ==> s.total == |fetched.value| && s.byCategory == Tally(Categories(fetched.value))
  {
    match fetched
    case Err(_) => Zero
    case Ok(rows) =>
      if rows == [] || HasNullConfidence(rows) then Zero
      else Statistics(|rows|, Tally(Categories(rows)), ConfidenceSum(rows) / |rows| as real)
  }

  /** The sum of the counts of a tally. */
  function SumCounts<T>(t: seq<(T, nat)>): nat {
    if t == [] then 0 else SumCounts(t[..|t| - 1]) + t[|t| - 1].1
  }

  /** The number of elements of `xs` that are among `keys`. */
  function Hits<T(==)>(xs: seq<T>, keys: seq<T>): nat {
    if keys == [] then 0 else Hits(xs, keys[..|keys| - 1]) + Count(xs, keys[|keys| - 1])
  }

  lemma {:induction false} HitsSnoc<T>(xs: seq<T>, x: T, keys: seq<T>)
    requires NoDuplicates(keys)
    ensures Hits(xs + [x], keys) == Hits(xs, keys) + (if x in keys then 1 else 0)
  {
    if keys != [] {
      var init := keys[..|keys| - 1];
      var k := keys[|keys| - 1];
      assert NoDuplicates(init);
      HitsSnoc(xs, x, init);
      CountSnoc(xs, x, k);
      assert x in keys <==> x in init || x == k;
      assert k !in init;
    }
  }

  /** Every element of `xs` is counted once under its own key. */
  lemma {:induction false} HitsAll<T>(xs: seq<T>, keys: seq<T>)
    requires NoDuplicates(keys) && forall i :: 0 <= i < |xs| ==> xs[i] in keys
    ensures Hits(xs, keys) == |xs|
  {
    if xs == [] {
      HitsNone(keys);
    } else {
      var init, x := xs[..|xs| - 1], xs[|xs| - 1];
      assert xs == init + [x];
      HitsAll(init, keys);
      HitsSnoc(init, x, keys);
    }
  }

  lemma {:induction false} HitsNone<T>(keys: seq<T>)
    ensures Hits([], keys) == 0
  {
    if keys != [] {
      HitsNone(keys[..|keys| - 1]);
    }
  }

  lemma {:induction false} SumCountsTallyPrefix<T>(xs: seq<T>, n: nat)
    requires n <= |Distinct(xs)|
    ensures SumCounts(Tally(xs)[..n]) == Hits(xs, Distinct(xs)[..n])
  {
    if n > 0 {
      SumCountsTallyPrefix(xs, n - 1);
      assert Tally(xs)[..n][..n - 1] == Tally(xs)[..n - 1];
      assert Distinct(xs)[..n][..n - 1] == Distinct(xs)[..n - 1];
    }
  }

  /** The per-category counts add up to the number of rows. */
  lemma CountsSumToTotal(fetched: Result<seq<Row>, string>)
    ensures var s := GetStatisticsOf(fetched); SumCounts(s.byCategory) == s.total
  {
    var s := GetStatisticsOf(fetched);
    if s.total > 0 {
      var cs := Categories(fetched.value);
      var d := Distinct(cs);
      SumCountsTallyPrefix(cs, |d|);
      assert Tally(cs)[..|d|] == Tally(cs);
      assert d[..|d|] == d;
      HitsAll(cs, d);
    }
  }

  /** Each category is listed once, every row's category is listed, a row without a document
      type is listed under `Unknown`, and each count is the number of rows of its category. */
  lemma ByCategorySpec(fetched: Result<seq<Row>, string>)
    requires GetStatisticsOf(fetched).total > 0
    ensures var s := GetStatisticsOf(fetched); var rows := fetched.value;
      && (forall i, j :: 0 <= i < j < |s.byCategory| ==> s.byCategory[i].0 != s.byCategory[j].0)
      && (forall i :: 0 <= i < |rows| ==> exists j :: 0 <= j < |s.byCategory| && s.byCategory[j].0 == Category(rows[i]))
      && (forall i :: 0 <= i < |rows| && rows[i].documentType.Absent? ==> Category(rows[i]) == Some("Unknown"))
      && (forall j :: 0 <= j < |s.byCategory| ==> s.byCategory[j].1 == Count(Categories(rows), s.byCategory[j].0))
  {
    var s := GetStatisticsOf(fetched);
    var rows := fetched.value;
    var d := Distinct(Categories(rows));
    forall i | 0 <= i < |rows|
      ensures exists j :: 0 <= j < |s.byCategory| && s.byCategory[j].0 == Category(rows[i])
    {
      assert Categories(rows)[i] in d;
      var j :| 0 <= j < |d| && d[j] == Categories(rows)[i];
      assert s.byCategory[j].0 == d[j];
    }
  }

  /** With every confidence in [0, 1], the average lies in [0, 1]. */
  lemma AverageBounded(fetched: Result<seq<Row>, string>)
    requires fetched.Ok? ==> forall i :: 0 <= i < |fetched.value| && fetched.value[i].confidence.Present? ==>
      0.0 <= fetched.value[i].confidence.value <= 1.0
    ensures 0.0 <= GetStatisticsOf(fetched).average <= 1.0
  {
    var s := GetStatisticsOf(fetched);
    if s.total > 0 {
      ConfidenceSumBounded(fetched.value);
      MeanBounded(ConfidenceSum(fetched.value), |fetched.value| as real);
    }
  }

  lemma MeanBounded(sum: real, n: real)
    requires 0.0 <= sum <= n && n > 0.0
    ensures 0.0 <= sum / n <= 1.0
  {
    assert sum / n * n == sum;
  }

  lemma {:induction false} ConfidenceSumBounded(rows: seq<Row>)
    requires forall i :: 0 <= i < |rows| && rows[i].confidence.Present? ==> 0.0 <= rows[i].confidence.value <= 1.0
    ensures 0.0 <= ConfidenceSum(rows) <= |rows| as real
  {
    if rows != [] {
      ConfidenceSumBounded(rows[..|rows| - 1]);
    }
  }

  lemma ConfidenceSumSnoc(rows: seq<Row>, row: Row)
    ensures ConfidenceSum(rows + [row]) == ConfidenceSum(rows) + (if row.confidence.Present? then row.confidence.value else 0.0)
  {
    assert (rows + [row])[..|rows|] == rows;
  }

  /** What the loop of `get_statistics` holds after the rows `done`: the dict's keys and
      counts are those of the rows' categories, the confidences are summed and none was null. */
  ghost predicate Tallied(done: seq<Row>, keys: seq<Option<string>>, counts: map<Option<string>, nat>, total: real) {
    && CountedAs(Categories(done), keys, counts)
    && total == ConfidenceSum(done)
    && !HasNullConfidence(done)
  }

  /** One turn of the loop on a row whose confidence is not null. */
  lemma TallyStep(done: seq<Row>, row: Row, keys: seq<Option<string>>, counts: map<Option<string>, nat>, total: real,
                  keys': seq<Option<string>>, counts': map<Option<string>, nat>, total': real)
    requires Tallied(done, keys, counts, total) && !row.confidence.Null?
    requires keys' == if Category(row) in counts then keys else keys + [Category(row)]
    requires counts' == counts[Category(row) := Get(counts, Category(row)) + 1]
    requires total' == total + if row.confidence.Present? then row.confidence.value else 0.0
    ensures Tallied(done + [row], keys', counts', total')
  {
    CategoriesSnoc(done, row);
    CountedStep(Categories(done), Category(row), keys, counts, keys', counts');
    ConfidenceSumSnoc(done, row);
    NoNullSnoc(done, row);
  }

  lemma CategoriesSnoc(done: seq<Row>, row: Row)
    ensures Categories(done + [row]) == Categories(done) + [Category(row)]
  {
  }

  lemma NoNullSnoc(done: seq<Row>, row: Row)
    requires !HasNullConfidence(done) && !row.confidence.Null?
    ensures !HasNullConfidence(done + [row])
  {
    forall j | 0 <= j < |done| + 1 ensures !(done + [row])[j].confidence.Null? {
      if j < |done| { assert (done + [row])[j] == done[j]; }
    }
  }

  /** The loop of `get_statistics`: per row, count its category in a dict and add its
      confidence; a null confidence raises, and the zero record is returned. */
  method GetStatistics(fetched: Result<seq<Row>, string>) returns (s: Statistics)
    ensures s == GetStatisticsOf(fetched)
  {
    if fetched.Err? || fetched.value == [] {
      return Zero;
    }
    var rows := fetched.value;
    var keys: seq<Option<string>> := [];
    var counts: map<Option<string>, nat> := map[];
    var totalConfidence := 0.0;
    for i := 0 to |rows|
      invariant Tallied(rows[..i], keys, counts, totalConfidence)
    {
      var row := rows[i];
      if row.confidence.Null? {
        assert HasNullConfidence(rows) by { assert rows[i].confidence.Null?; }
        return Zero;
      }
      ghost var (keys0, counts0, total0) := (keys, counts, totalConfidence);
      var key := Category(row);
      if key !in counts {
        keys := keys + [key];
      }
      counts := counts[key := Get(counts, key) + 1];
      totalConfidence := totalConfidence + if row.confidence.Present? then row.confidence.value else 0.0;
      TallyStep(rows[..i], row, keys0, counts0, total0, keys, counts, totalConfidence);
      assert rows[..i + 1] == rows[..i] + [row];
    }
    assert rows[..|rows|] == rows;
    ItemsTally(Categories(rows), keys, counts);
    s := Statistics(|rows|, Items(keys, counts), totalConfidence / |rows| as real);
  }

  // ---------------------------------------------------------------------------------------
  // The document-number RPC
  // ---------------------------------------------------------------------------------------

  /** The `data` of the RPC's response: a list of rows (each a dict, as its items in order),
      a bare string, or anything else. */
  datatype RpcData = RpcRows(rows: seq<seq<(string, string)>>) | RpcText(text: string) | RpcOther

  const UnexpectedFormat := "Unexpected RPC response format"

  /** The unpacking in `get_next_document_number`: the first value of the first row of a
      non-empty list (an empty first row raises), a string as it is, a `ValueError` for
      anything else; every error is re-raised to the caller. */
  function UnpackRpc(data: RpcData): (r: Result<string, string>)
    ensures data.RpcText? ==> r == Ok(data.text)
    ensures data.RpcRows? && data.rows != [] && data.rows[0] != [] ==> r == Ok(data.rows[0][0].1)
    ensures r.Ok? <==> data.RpcText? || (data.RpcRows? && data.rows != [] && data.rows[0] != [])
    ensures (data.RpcOther? || data == RpcRows([])) ==> r == Err(UnexpectedFormat)
  {
    match data
    case RpcRows(rows) =>
      if rows == [] then Err(UnexpectedFormat)
      else if rows[0] == [] then Err("list index out of range")
      else Ok(rows[0][0].1)
    case RpcText(t) => Ok(t)
    case RpcOther => Err(UnexpectedFormat)
  }

  /** `get_next_document_number` given what the RPC call returns (`Err` when it raised). */
  function NextDocumentNumber(response: Result<RpcData, string>): (r: Result<string, string>)
    ensures response.Err? ==> r == Err(response.error)
    ensures response.Ok? ==> r == UnpackRpc(response.value)
  {
    match response
    case Err(e) => Err(e)
    case Ok(data) => UnpackRpc(data)
  }
}
