/**
 * Helpers of the ingestion and export server: cutting uploaded points into
 * insert batches, turning a point's activity guesses into ranked rows,
 * paging and rendering the CSV export, and reading a point's activities
 * back in order of confidence.
 */
module Server {
  import opened Common
  import Strings
  import Sorting

  // ----- Upload batches --------------------------------------------------------

  /**
   * `batch_chunks`: the slices `x[i:i+1024]` for `i` in `xrange(0, len(x), 1024)`;
   * 1024 points are inserted per statement.
   */
  function BatchChunks<T>(x: seq<T>): (chunks: seq<seq<T>>)
    ensures forall k :: 0 <= k < |chunks| ==> 0 < |chunks[k]| <= 1024
    ensures forall k :: 0 <= k < |chunks| - 1 ==> |chunks[k]| == 1024
    ensures |chunks| == (|x| + 1023) / 1024
    decreases |x|
  {
    if x == [] then []
    else if |x| <= 1024 then [x]
    else [x[..1024]] + BatchChunks(x[1024..])
  }

  /** The chunks one after the other. */
  function Flatten<T>(chunks: seq<seq<T>>): seq<T>
  {
    if chunks == [] then [] else chunks[0] + Flatten(chunks[1..])
  }

  /** The chunks together are exactly the uploaded points, in order. */
  lemma {:induction false} BatchChunksFlatten<T>(x: seq<T>)
    ensures Flatten(BatchChunks(x)) == x
    decreases |x|
  {
    if x != [] && |x| > 1024 {
      var chunks := BatchChunks(x);
      BatchChunksFlatten(x[1024..]);
      assert chunks[1..] == BatchChunks(x[1024..]);
      assert x == x[..1024] + x[1024..];
    }
  }

  /** Chunk `k` is the slice of the points starting at `k * 1024`. */
  lemma {:induction false} BatchChunksSlice<T>(x: seq<T>, k: nat)
    requires k < |BatchChunks(x)|
    ensures k * 1024 < |x|
    ensures BatchChunks(x)[k] == x[k * 1024 .. if (k + 1) * 1024 < |x| then (k + 1) * 1024 else |x|]
    decreases |x|
  {
    if |x| > 1024 && k > 0 {
      var rest := x[1024..];
      BatchChunksSlice(rest, k - 1);
      assert BatchChunks(x)[k] == BatchChunks(rest)[k - 1];
      var lo, hi := (k - 1) * 1024, if k * 1024 < |rest| then k * 1024 else |rest|;
      assert lo + 1024 == k * 1024;
      assert hi + 1024 == if (k + 1) * 1024 < |x| then (k + 1) * 1024 else |x|;
      assert rest[lo..hi] == x[lo + 1024..hi + 1024];
    }
  }

  // ----- Activities of an uploaded point --------------------------------------

  /** One guess of the activity recognition: a type name and a confidence. */
  datatype Activity = Activity(activityType: string, confidence: int)

  /** An uploaded point's `activityData`, whose `activities` key may be missing. */
  datatype ActivityData = ActivityData(activities: Option<seq<Activity>>)

  /** An uploaded point as far as its activities go. */
  datatype DataPoint = DataPoint(activityData: Option<ActivityData>)

  /** A recognised guess: the id of its type and its confidence. */
  datatype ParsedActivity = ParsedActivity(typeId: int, confidence: int)

  /** A row inserted into `activity_data`. */
  datatype ActivityRow = ActivityRow(activityTypeId: int, deviceDataId: int, confidence: int, ordinal: int)

  /** The guesses whose type is known, in upload order. */
  function ParseActivities(activities: seq<Activity>, types: map<string, int>): (parsed: seq<ParsedActivity>)
    ensures |parsed| <= |activities|
    ensures forall p :: p in parsed ==> exists a :: a in activities && a.activityType in types && p == ParsedActivity(types[a.activityType], a.confidence)
  {
    if activities == [] then []
    else
      var front := activities[..|activities| - 1];
      var a := activities[|activities| - 1];
      assert forall b :: b in front ==> b in activities;
      ParseActivities(front, types) + (if a.activityType in types then [ParsedActivity(types[a.activityType], a.confidence)] else [])
  }

  /** The number of guesses whose type is known. */
  function KnownCount(activities: seq<Activity>, types: map<string, int>): nat
  {
    if activities == [] then 0
    else KnownCount(activities[..|activities| - 1], types) + (if activities[|activities| - 1].activityType in types then 1 else 0)
  }

  lemma {:induction false} ParseActivitiesCount(activities: seq<Activity>, types: map<string, int>)
    ensures |ParseActivities(activities, types)| == KnownCount(activities, types)
  {
    if activities != [] {
      ParseActivitiesCount(activities[..|activities| - 1], types);
    }
  }

  /** Sorting by the negated confidence is Python's `reverse=True` on a stable sort. */
  function DescendingConfidence(p: ParsedActivity): real
  {
    -(p.confidence as real)
  }

  /** `prepare_point_activities`: the known guesses by descending confidence, numbered from 1. */
  function PreparePointActivities(id: int, point: DataPoint, types: map<string, int>): seq<ActivityRow>
  {
    if point.activityData.None? || point.activityData.value.activities.None? then []
    else
      var sorted := Sorting.SortBy(ParseActivities(point.activityData.value.activities.value, types), DescendingConfidence);
      seq(|sorted|, i requires 0 <= i < |sorted| => ActivityRow(sorted[i].typeId, id, sorted[i].confidence, i + 1))
  }

  /** The parsed form of emitted rows. */
  function Parsed(rows: seq<ActivityRow>): seq<ParsedActivity>
  {
    seq(|rows|, i requires 0 <= i < |rows| => ParsedActivity(rows[i].activityTypeId, rows[i].confidence))
  }

  /** Without activity data, or without its `activities` key, nothing is emitted. */
  lemma PreparedWithoutActivities(id: int, point: DataPoint, types: map<string, int>)
    requires point.activityData.None? || point.activityData.value.activities.None?
    ensures PreparePointActivities(id, point, types) == []
  {
  }

  /** The rows are all for the given point, numbered 1..n, with confidences that never increase. */
  lemma PreparedNumberedDescending(id: int, point: DataPoint, types: map<string, int>)
    ensures var rows := PreparePointActivities(id, point, types);
      && (forall i :: 0 <= i < |rows| ==> rows[i].deviceDataId == id && rows[i].ordinal == i + 1)
      && (forall i, j :: 0 <= i < j < |rows| ==> rows[i].confidence >= rows[j].confidence)
  {
    if point.activityData.Some? && point.activityData.value.activities.Some? {
      var sorted := Sorting.SortBy(ParseActivities(point.activityData.value.activities.value, types), DescendingConfidence);
      var rows := PreparePointActivities(id, point, types);
      forall i, j | 0 <= i < j < |rows| ensures rows[i].confidence >= rows[j].confidence {
        assert DescendingConfidence(sorted[i]) <= DescendingConfidence(sorted[j]);
      }
    }
  }

  /** The rows are the known guesses rearranged: one row per guess whose type is known. */
  lemma PreparedPermutation(id: int, point: DataPoint, types: map<string, int>)
    requires point.activityData.Some? && point.activityData.value.activities.Some?
    ensures var activities := point.activityData.value.activities.value;
      var rows := PreparePointActivities(id, point, types);
      && multiset(Parsed(rows)) == multiset(ParseActivities(activities, types))
      && |rows| == KnownCount(activities, types)
  {
    var activities := point.activityData.value.activities.value;
    var sorted := Sorting.SortBy(ParseActivities(activities, types), DescendingConfidence);
    var rows := PreparePointActivities(id, point, types);
    assert Parsed(rows) == sorted;
    ParseActivitiesCount(activities, types);
  }

  /**
   * Guesses of equal confidence keep their upload order: for every key, the
   * rows with that (negated) confidence are the known guesses with it, in order.
   */
  lemma PreparedStable(id: int, point: DataPoint, types: map<string, int>, k: real)
    requires point.activityData.Some? && point.activityData.value.activities.Some?
    ensures var parsed := ParseActivities(point.activityData.value.activities.value, types);
      Sorting.Keep(Parsed(PreparePointActivities(id, point, types)), DescendingConfidence, k)
        == Sorting.Keep(parsed, DescendingConfidence, k)
  {
    var parsed := ParseActivities(point.activityData.value.activities.value, types);
    assert Parsed(PreparePointActivities(id, point, types)) == Sorting.SortBy(parsed, DescendingConfidence);
    Sorting.SortByStable(parsed, DescendingConfidence, k);
  }

  /** Every emitted row's type is the id of the type of some uploaded guess. */
  lemma PreparedTypesKnown(id: int, point: DataPoint, types: map<string, int>)
    requires point.activityData.Some? && point.activityData.value.activities.Some?
    ensures forall r :: r in PreparePointActivities(id, point, types) ==>
      (exists a :: a in point.activityData.value.activities.value && a.activityType in types
        && r.activityTypeId == types[a.activityType] && r.confidence == a.confidence)
  {
    var activities := point.activityData.value.activities.value;
    var parsed := ParseActivities(activities, types);
    var sorted := Sorting.SortBy(parsed, DescendingConfidence);
    var rows := PreparePointActivities(id, point, types);
    forall r | r in rows
      ensures exists a :: a in activities && a.activityType in types && r.activityTypeId == types[a.activityType] && r.confidence == a.confidence
    {
      var i :| 0 <= i < |rows| && rows[i] == r;
      assert sorted[i] in multiset(parsed);
      assert sorted[i] in parsed;
    }
  }

  // ----- CSV export -------------------------------------------------------------

  /** The number of rows per exported page. */
  const EntryBlockSize: int := 10000

  /** `export_csv_block`: the offset and limit of a page; pages 0 and 1 both start at row 0. */
  function CsvBlock(page: int): (block: (int, int))
    ensures block.1 == EntryBlockSize
    ensures page == 0 ==> block.0 == 0
    ensures page >= 1 ==> block.0 == (page - 1) * EntryBlockSize
  {
    if page == 0 then (page * 10000, 10000) else ((page - 1) * 10000, 10000)
  }

  /**
   * The pages from 1 on tile the rows: row `r` is on page `r / 10000 + 1`
   * and on no other page from 1 on; page 0 repeats page 1.
   */
  lemma CsvBlocksTile(r: nat, page: int)
    requires page >= 1
    ensures var (offset, limit) := CsvBlock(page);
      offset <= r < offset + limit <==> page == r / EntryBlockSize + 1
    ensures CsvBlock(0) == CsvBlock(1)
  {
    var q := r / 10000;
    assert q * 10000 <= r < q * 10000 + 10000;
  }

  /** The header line of the point export. */
  const CsvHeader: string :=
    "\"device_id\";\"time\";\"longitude\";\"latitude\";\"accuracy\";\"activity_guess_1\";\"activity_guess_1_conf\";\"activity_guess_2\";\"activity_guess_2_conf\";\"activity_guess_3\";\"activity_guess_3_conf\"\n"

  /** The header line of the waypoint export. */
  const WaypointsHeader: string := "\"wpt_id\";\"longitude\";\"latitude\"\n"

  /** A column value as `str` renders it; `None` stands for SQL NULL. */
  type Field = Option<string>

  /** A field's text, with `nullText` standing for NULL. */
  function Render(x: Field, nullText: string): string
  {
    if x.None? then nullText else x.value
  }

  /** `to_str`: NULL becomes the empty text. */
  function ToStr(x: Field): string
  {
    Render(x, "")
  }

  /** Plain `str`: NULL becomes `None`. */
  function PlainStr(x: Field): string
  {
    Render(x, "None")
  }

  function Quote(s: string): string
  {
    "\"" + s + "\""
  }

  /** The quoted texts of a row's fields. */
  function QuotedFields(row: seq<Field>, nullText: string): seq<string>
  {
    seq(|row|, i requires 0 <= i < |row| => Quote(Render(row[i], nullText)))
  }

  /** A data line: every field quoted, separated by `;`, ended by a newline; no escaping. */
  function CsvLine(row: seq<Field>): string
  {
    Strings.Join(QuotedFields(row, ""), ";") + "\n"
  }

  /** `generate_csv`: the header and then one line per row. */
  function GenerateCsv(rows: seq<seq<Field>>): (lines: seq<string>)
    ensures |lines| == |rows| + 1 && lines[0] == CsvHeader
    ensures forall i :: 0 <= i < |rows| ==> lines[i + 1] == CsvLine(rows[i])
  {
    [CsvHeader] + seq(|rows|, i requires 0 <= i < |rows| => CsvLine(rows[i]))
  }

  /** A waypoint line: as a data line, but NULL is written `None`. */
  function WaypointLine(row: seq<Field>): string
  {
    Strings.Join(QuotedFields(row, "None"), ";") + "\n"
  }

  /** `generate_csv_waypoints`: the header and then one line per waypoint. */
  function GenerateCsvWaypoints(rows: seq<seq<Field>>): (lines: seq<string>)
    ensures |lines| == |rows| + 1 && lines[0] == WaypointsHeader
    ensures forall i :: 0 <= i < |rows| ==> lines[i + 1] == WaypointLine(rows[i])
  {
    [WaypointsHeader] + seq(|rows|, i requires 0 <= i < |rows| => WaypointLine(rows[i]))
  }

  /** Drops the first and the last character of a piece that has both. */
  function Unquote(piece: string): string
  {
    if |piece| >= 2 then piece[1..|piece| - 1] else piece
  }

  /** Reads a data line back: drop the newline, split at `;`, unquote each piece. */
  function ParseCsvLine(line: string): seq<string>
  {
    var body := if |line| > 0 && line[|line| - 1] == '\n' then line[..|line| - 1] else line;
    var pieces := Strings.Split(body, ";");
    seq(|pieces|, i requires 0 <= i < |pieces| => Unquote(pieces[i]))
  }

  /** The quoted fields hold no `;` when the texts hold none, and the line body is their join. */
  lemma QuotedLine(row: seq<Field>, nullText: string)
    requires forall i :: 0 <= i < |row| ==> ';' !in Render(row[i], nullText)
    ensures forall k :: 0 <= k < |row| ==> ';' !in QuotedFields(row, nullText)[k]
    ensures forall k :: 0 <= k < |row| ==> Unquote(QuotedFields(row, nullText)[k]) == Render(row[k], nullText)
  {
    var quoted := QuotedFields(row, nullText);
    forall k | 0 <= k < |row|
      ensures ';' !in quoted[k]
      ensures Unquote(quoted[k]) == Render(row[k], nullText)
    {
      var s := Render(row[k], nullText);
      assert quoted[k] == "\"" + s + "\"";
      assert ';' !in "\"";
      assert quoted[k][1..|quoted[k]| - 1] == s;
    }
  }

  /**
   * Reading a data line back gives each field's text when no field contains
   * `;` (the export does not escape it), and NULL reads back as the empty text.
   */
  lemma CsvLineRoundTrip(row: seq<Field>)
    requires |row| > 0
    requires forall i :: 0 <= i < |row| ==> ';' !in ToStr(row[i])
    ensures ParseCsvLine(CsvLine(row)) == seq(|row|, i requires 0 <= i < |row| => ToStr(row[i]))
  {
    var quoted := QuotedFields(row, "");
    var body := Strings.Join(quoted, ";");
    var line := CsvLine(row);
    assert line[..|line| - 1] == body;
    QuotedLine(row, "");
    Strings.SplitJoinChar(quoted, ';');
  }

  /** A NULL field and an empty text are written alike. */
  lemma CsvNullIsEmpty(row: seq<Field>, i: int)
    requires 0 <= i < |row| && row[i].None?
    ensures CsvLine(row) == CsvLine(row[i := Some("")])
  {
    assert QuotedFields(row, "") == QuotedFields(row[i := Some("")], "");
  }

  /** The two exports write a row alike exactly when none of its fields is NULL. */
  lemma WaypointLineDiffersOnNull(row: seq<Field>)
    ensures WaypointLine(row) == CsvLine(row) <==> forall i :: 0 <= i < |row| ==> row[i].Some?
  {
    var a, b := QuotedFields(row, "None"), QuotedFields(row, "");
    if forall i :: 0 <= i < |row| ==> row[i].Some? {
      assert a == b;
    } else {
      // each NULL makes the waypoint line four characters longer
      var i :| 0 <= i < |row| && row[i].None?;
      assert |a[i]| == 6 && |b[i]| == 2;
      Strings.JoinLonger(a, b, ";", i);
    }
  }

  // ----- Activities of a stored point ---------------------------------------------

  /** A point's activity, as `SortableActivityData` holds it. */
  datatype SortableActivityData = SortableActivityData(activityType: string, activityTypeId: int, confidence: int)

  /** `__cmp__`: Python's `cmp` of the confidences, nothing else. */
  function Compare(a: SortableActivityData, b: SortableActivityData): (c: int)
    ensures c == -1 || c == 0 || c == 1
    ensures c < 0 <==> a.confidence < b.confidence
    ensures c == 0 <==> a.confidence == b.confidence
  {
    if a.confidence < b.confidence then -1 else if a.confidence == b.confidence then 0 else 1
  }

  /** The order is antisymmetric, and activities differing only in their type compare equal. */
  lemma CompareProperties(a: SortableActivityData, b: SortableActivityData, typeName: string, typeId: int)
    ensures Compare(b, a) == -Compare(a, b)
    ensures Compare(a, a.(activityType := typeName, activityTypeId := typeId)) == 0
  {
  }

  /** A stored `activity_data` row of the point: its id, type id and confidence (which may be NULL). */
  datatype StoredActivity = StoredActivity(id: int, activityTypeId: int, confidence: Option<int>)

  /** The first and the last ordinal looked up. */
  const FirstOrdinal: nat := 1
  const LastOrdinal: nat := 3

  /** The name of an activity type, `UNKNOWN` for an id without one. */
  function TypeName(typeNames: map<int, string>, id: int): string
  {
    if id in typeNames then typeNames[id] else "UNKNOWN"
  }

  /** What the lookups give for ordinal `i` onwards: they stop at a missing row or a NULL confidence. */
  function Collect(byOrdinal: map<int, StoredActivity>, typeNames: map<int, string>, i: nat): (found: seq<SortableActivityData>)
    ensures i + |found| <= LastOrdinal + 1 || i > LastOrdinal
    decreases LastOrdinal + 1 - i
  {
    if i > LastOrdinal || i !in byOrdinal || byOrdinal[i].confidence.None? then []
    else
      var row := byOrdinal[i];
      [SortableActivityData(TypeName(typeNames, row.activityTypeId), row.activityTypeId, row.confidence.value)] + Collect(byOrdinal, typeNames, i + 1)
  }

  function DescendingActivity(a: SortableActivityData): real
  {
    -(a.confidence as real)
  }

  /**
   * The loop of `get_activity_data`: looks up ordinals 1, 2 and 3, stopping
   * at the first missing row or at the TypeError a NULL confidence raises.
   */
  method CollectActivities(byOrdinal: map<int, StoredActivity>, typeNames: map<int, string>)
    returns (activities: seq<SortableActivityData>)
    ensures activities == Collect(byOrdinal, typeNames, FirstOrdinal)
  {
    activities := [];
    var i := FirstOrdinal;
    while i <= LastOrdinal
      invariant FirstOrdinal <= i <= LastOrdinal + 1
      invariant Collect(byOrdinal, typeNames, FirstOrdinal) == activities + Collect(byOrdinal, typeNames, i)
    {
      if i !in byOrdinal {
        break;
      }
      var row := byOrdinal[i];
      var actTypeStr := TypeName(typeNames, row.activityTypeId);
      if row.confidence.None? {
        break;
      }
      var item := SortableActivityData(actTypeStr, row.activityTypeId, row.confidence.value);
      ghost var rest := Collect(byOrdinal, typeNames, i + 1);
      assert activities + ([item] + rest) == (activities + [item]) + rest;
      activities := activities + [item];
      i := i + 1;
    }
  }

  /** `get_activity_data`: the activities found, sorted in place by descending confidence. */
  method GetActivityData(byOrdinal: map<int, StoredActivity>, typeNames: map<int, string>)
    returns (activities: seq<SortableActivityData>)
    ensures activities == Sorting.SortBy(Collect(byOrdinal, typeNames, FirstOrdinal), DescendingActivity)
  {
    activities := CollectActivities(byOrdinal, typeNames);
    activities := Sorting.SortBy(activities, DescendingActivity);
  }

  /**
   * A point has at most three activities, they are the ones found, and they
   * come by descending confidence, equal confidences in ordinal order.
   */
  lemma ActivityDataProperties(byOrdinal: map<int, StoredActivity>, typeNames: map<int, string>)
    ensures var found := Collect(byOrdinal, typeNames, FirstOrdinal);
      var activities := Sorting.SortBy(found, DescendingActivity);
      && |activities| <= 3
      && multiset(activities) == multiset(found)
      && (forall i, j :: 0 <= i < j < |activities| ==> activities[i].confidence >= activities[j].confidence)
      && forall k :: Sorting.Keep(activities, DescendingActivity, k) == Sorting.Keep(found, DescendingActivity, k)
  {
    var found := Collect(byOrdinal, typeNames, FirstOrdinal);
    var activities := Sorting.SortBy(found, DescendingActivity);
    DescendingConfidences(activities);
    forall k ensures Sorting.Keep(activities, DescendingActivity, k) == Sorting.Keep(found, DescendingActivity, k) {
      Sorting.SortByStable(found, DescendingActivity, k);
    }
  }

  /** Ascending negated confidence is descending confidence. */
  lemma DescendingConfidences(s: seq<SortableActivityData>)
    requires Sorting.SortedBy(s, DescendingActivity)
    ensures forall i, j :: 0 <= i < j < |s| ==> s[i].confidence >= s[j].confidence
  {
    forall i, j | 0 <= i < j < |s| ensures s[i].confidence >= s[j].confidence {
      assert DescendingActivity(s[i]) <= DescendingActivity(s[j]);
    }
  }

  /**
   * The activities found are those of ordinals 1..n for the largest n <= 3
   * such that every one of them has a row with a confidence.
   */
  lemma {:induction false} CollectOrdinals(byOrdinal: map<int, StoredActivity>, typeNames: map<int, string>, i: nat)
    requires 1 <= i
    ensures var found := Collect(byOrdinal, typeNames, i);
      && (forall k :: 0 <= k < |found| ==>
            && i + k in byOrdinal && byOrdinal[i + k].confidence.Some?
            && found[k].activityTypeId == byOrdinal[i + k].activityTypeId
            && found[k].confidence == byOrdinal[i + k].confidence.value)
      && (i + |found| <= LastOrdinal ==> i + |found| !in byOrdinal || byOrdinal[i + |found|].confidence.None?)
    decreases LastOrdinal + 1 - i
  {
    if !(i > LastOrdinal || i !in byOrdinal || byOrdinal[i].confidence.None?) {
      CollectOrdinals(byOrdinal, typeNames, i + 1);
      var found := Collect(byOrdinal, typeNames, i);
      var rest := Collect(byOrdinal, typeNames, i + 1);
      forall k | 0 <= k < |found|
        ensures && i + k in byOrdinal && byOrdinal[i + k].confidence.Some?
                && found[k].activityTypeId == byOrdinal[i + k].activityTypeId
                && found[k].confidence == byOrdinal[i + k].confidence.value
      {
        if k > 0 {
          assert found[k] == rest[k - 1];
        }
      }
    }
  }

}
