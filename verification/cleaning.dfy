/** The cleaning step of the dashboard: each raw CSV row (column name to text) becomes a
    typed track record, and only the records that pass the validity filter are kept,
    in input order. */
module Cleaning {
  import opened Options
  import opened Text

  /** A row as the CSV parser hands it over: column name to text. A column the row lacks
      reads as the empty string. */
  type RawRow = map<string, string>

  /** A cleaned track record. Every number comes from `parseInt(...) || 0`. */
  datatype Track = Track(
    title: string,
    artist: string,
    streams: int,
    bpm: int,
    danceability: int,
    valence: int,
    energy: int,
    releaseMonth: int,
    releaseDay: int,
    acousticness: int)

  /** The upper bound, exclusive, on a plausible stream count. */
  const StreamLimit: int := 4000000000

  /** The text of a column, converted to a string, with a missing column read as the empty
      string (scriptDATAVIZ.js:143, 149-150). */
  function Column(row: RawRow, name: string): string {
    if name in row then row[name] else ""
  }

  /** The stream count: the column trimmed, every non-digit removed (thousands separators
      included), then `parseInt(...) || 0`. */
  function StreamCount(row: RawRow): (n: int)
    ensures n >= 0
  {
    var digits := DigitsOnly(Trim(Column(row, "streams")));
    if digits == [] then 0
    else
      ParseIntDecimal(digits);
      IntOrZero(digits)
  }

  /** The typed record for one raw row. */
  function CleanRow(row: RawRow): Track {
    Track(
      title := Trim(Column(row, "track_name")),
      artist := Trim(Column(row, "artist(s)_name")),
      streams := StreamCount(row),
      bpm := IntOrZero(Column(row, "bpm")),
      danceability := IntOrZero(Column(row, "danceability_%")),
      valence := IntOrZero(Column(row, "valence_%")),
      energy := IntOrZero(Column(row, "energy_%")),
      releaseMonth := IntOrZero(Column(row, "released_month")),
      releaseDay := IntOrZero(Column(row, "released_day")),
      acousticness := IntOrZero(Column(row, "acousticness_%")))
  }

  /** The validity filter: a positive tempo, a title, and a stream count in (0, 4e9). */
  predicate Keep(t: Track) {
    t.bpm > 0 && |t.title| > 0 && t.streams > 0 && t.streams < StreamLimit
  }

  /** `rows.map(CleanRow)`: one record per row, in order. */
  function Records(rows: seq<RawRow>): (ts: seq<Track>)
    ensures |ts| == |rows|
    ensures forall i :: 0 <= i < |rows| ==> ts[i] == CleanRow(rows[i])
  {
    seq(|rows|, i requires 0 <= i < |rows| => CleanRow(rows[i]))
  }

  /** `ts.filter(Keep)`. */
  function Valid(ts: seq<Track>): (r: seq<Track>)
    ensures |r| <= |ts|
    ensures forall i :: 0 <= i < |r| ==> Keep(r[i])
  {
    if ts == [] then []
    else (if Keep(ts[0]) then [ts[0]] else []) + Valid(ts[1..])
  }

  /** The cleaned set: `rows.map(CleanRow).filter(Keep)`. */
  function Clean(rows: seq<RawRow>): (ts: seq<Track>)
    ensures |ts| <= |rows|
    ensures forall i :: 0 <= i < |ts| ==> Keep(ts[i])
  {
    Valid(Records(rows))
  }

  /** Filtering works element by element: the filtered concatenation is the concatenation
      of the filtered parts, so order is kept. */
  lemma {:induction false} ValidAppend(a: seq<Track>, b: seq<Track>)
    ensures Valid(a + b) == Valid(a) + Valid(b)
  {
    if a != [] {
      assert (a + b)[0] == a[0];
      assert (a + b)[1..] == a[1..] + b;
      ValidAppend(a[1..], b);
    } else {
      assert a + b == b;
    }
  }

  /** The records kept are exactly those of the input that pass the filter. */
  lemma {:induction false} ValidMembers(ts: seq<Track>, t: Track)
    ensures t in Valid(ts) <==> t in ts && Keep(t)
  {
    if ts != [] {
      ValidMembers(ts[1..], t);
      assert ts == [ts[0]] + ts[1..];
    }
  }

  /** Cleaning works row by row: the cleaned rows of a concatenation are the cleaned rows of
      the first part followed by those of the second, so input order is kept. */
  lemma CleanAppend(a: seq<RawRow>, b: seq<RawRow>)
    ensures Clean(a + b) == Clean(a) + Clean(b)
  {
    var x, y, z := Records(a + b), Records(a), Records(b);
    assert |x| == |y + z|;
    forall i | 0 <= i < |x|
      ensures x[i] == (y + z)[i]
    {
      if i < |a| {
        assert (a + b)[i] == a[i];
      } else {
        assert (a + b)[i] == b[i - |a|];
      }
    }
    assert x == y + z;
    ValidAppend(y, z);
  }

  /** A single record survives the filter exactly when it passes it. */
  lemma ValidOne(t: Track)
    ensures Valid([t]) == if Keep(t) then [t] else []
  {
    assert [t][1..] == [];
  }

  /** A single row survives exactly when its record passes the filter. */
  lemma CleanOne(row: RawRow)
    ensures Clean([row]) == if Keep(CleanRow(row)) then [CleanRow(row)] else []
  {
    Singleton(Records([row]), CleanRow(row));
    ValidOne(CleanRow(row));
  }

  lemma Singleton<T>(s: seq<T>, x: T)
    requires |s| == 1 && s[0] == x
    ensures s == [x]
  {
  }

  /** The cleaned set holds exactly the records of the input rows that pass the filter. */
  lemma CleanMembers(rows: seq<RawRow>, t: Track)
    ensures t in Clean(rows) <==> exists i :: 0 <= i < |rows| && CleanRow(rows[i]) == t && Keep(t)
  {
    var ts := Records(rows);
    ValidMembers(ts, t);
    assert t in ts <==> exists i :: 0 <= i < |rows| && ts[i] == t;
  }

  /** The stream count is the number spelled by the digits of the column, separators and
      any other characters ignored; a column without digits gives 0. */
  lemma StreamCountDigits(row: RawRow)
    ensures var digits := DigitsOnly(Column(row, "streams"));
      StreamCount(row) == if digits == [] then 0 else ValueOf(digits, 10)
  {
    var s := Column(row, "streams");
    DigitsOnlyTrim(s);
    var digits := DigitsOnly(s);
    if digits != [] {
      ParseIntDecimal(digits);
    }
  }

  /** A stream count written with thousands separators, like "1,234,567", is read as the
      count itself. */
  lemma StreamCountGrouped(row: RawRow, n: nat)
    requires Column(row, "streams") == Grouped(n)
    ensures StreamCount(row) == n
  {
    StreamCountDigits(row);
    GroupedRoundTrip(n);
  }

  /** A row whose stream column holds no digit (or is missing) gets 0 streams and is
      dropped. */
  lemma NoStreamDigitsDropped(row: RawRow)
    requires forall i :: 0 <= i < |Column(row, "streams")| ==> !IsDigit(Column(row, "streams")[i])
    ensures CleanRow(row).streams == 0
    ensures Clean([row]) == []
  {
    StreamCountDigits(row);
    DigitsOnlyEmpty(Column(row, "streams"));
    CleanOne(row);
  }

  /** A row whose tempo does not parse as an integer (or is missing) gets tempo 0 and is
      dropped, whatever its other columns hold. */
  lemma UnparsableBpmDropped(row: RawRow)
    requires ParseInt(Column(row, "bpm")) == None
    ensures CleanRow(row).bpm == 0
    ensures Clean([row]) == []
  {
    CleanOne(row);
  }

  /** A row whose title is empty once trimmed is dropped, whatever its other columns hold. */
  lemma BlankTitleDropped(row: RawRow)
    requires AllSpace(Column(row, "track_name"))
    ensures Clean([row]) == []
  {
    TrimEmpty(Column(row, "track_name"));
    CleanOne(row);
  }

  /** A row whose stream column spells 4e9 or more (separators and other characters
      ignored) is dropped, whatever its other columns hold. */
  lemma TooManyStreamsDropped(row: RawRow)
    requires var d := DigitsOnly(Column(row, "streams")); d != [] && ValueOf(d, 10) >= StreamLimit
    ensures CleanRow(row).streams >= StreamLimit
    ensures Clean([row]) == []
  {
    StreamCountDigits(row);
    CleanOne(row);
  }

  /** The same for a count written with thousands separators, like "5,000,000,000". */
  lemma TooManyGroupedStreamsDropped(row: RawRow, n: nat)
    requires Column(row, "streams") == Grouped(n) && n >= StreamLimit
    ensures Clean([row]) == []
  {
    StreamCountGrouped(row, n);
    CleanOne(row);
  }

  /** A row is kept when the digits of its stream column spell a count in (0, 4e9), its
      tempo parses to a positive integer and its title is not blank; the kept record carries
      the parsed values. */
  lemma WellFormedRowKept(row: RawRow, bpm: int)
    requires var d := DigitsOnly(Column(row, "streams")); d != [] && 0 < ValueOf(d, 10) < StreamLimit
    requires ParseInt(Column(row, "bpm")) == Some(bpm) && bpm > 0
    requires !AllSpace(Column(row, "track_name"))
    ensures Clean([row]) == [CleanRow(row)]
    ensures CleanRow(row).streams == ValueOf(DigitsOnly(Column(row, "streams")), 10)
    ensures CleanRow(row).bpm == bpm
  {
    TrimEmpty(Column(row, "track_name"));
    StreamCountDigits(row);
    CleanOne(row);
  }

  /** The same for a grouped stream count and a tempo written in plain decimal. */
  lemma GroupedRowKept(row: RawRow, streams: nat, bpm: nat)
    requires Column(row, "streams") == Grouped(streams) && 0 < streams < StreamLimit
    requires Column(row, "bpm") == Decimal(bpm) && bpm > 0
    requires !AllSpace(Column(row, "track_name"))
    ensures Clean([row]) == [CleanRow(row)]
    ensures CleanRow(row).streams == streams && CleanRow(row).bpm == bpm
  {
    TrimEmpty(Column(row, "track_name"));
    StreamCountGrouped(row, streams);
    DecimalRoundTrip(bpm);
    CleanOne(row);
  }
}
