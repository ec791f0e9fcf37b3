/**
 * CSVReaderUtil.readCsvFromResources: the hamlet list read line by line from
 * a bundled CSV resource. The resource is given as the sequence of its lines
 * (None when the class loader finds no such resource).
 */
module CsvReader {
  import opened Wrappers
  import opened Strings

  /** One LocationCSVRow. The street columns are only ever filled by the documented mapping. */
  datatype CsvRow = CsvRow(
    regionCode: string, region: string,
    councilCode: string, council: string,
    wardCode: string, ward: string,
    streetCode: Option<string>, street: Option<string>,
    villageCode: string, village: string,
    hamletCode: string, hamlet: string)

  // ---------------------------------------------------------------------
  // String.split(",")

  /** The text between consecutive commas: one more piece than there are commas. */
  function Pieces(s: string): (r: seq<string>)
    ensures |r| >= 1
  {
    if s == [] then [[]]
    else
      var rest := Pieces(s[1..]);
      if s[0] == ',' then [[]] + rest else [[s[0]] + rest[0]] + rest[1..]
  }

  /** Trailing empty strings removed, as split does with no limit. */
  function DropTrailingEmpty(ps: seq<string>): (r: seq<string>)
    ensures |r| <= |ps| && r == ps[..|r|]
    ensures r == [] || r[|r| - 1] != []
    ensures forall k :: |r| <= k < |ps| ==> ps[k] == []
  {
    if ps == [] || ps[|ps| - 1] != [] then ps else DropTrailingEmpty(ps[..|ps| - 1])
  }

  /**
   * String.split(","): without a comma the whole string is the only piece
   * (even when it is empty); otherwise the pieces, less any trailing empty ones.
   */
  function SplitComma(s: string): seq<string>
  {
    if ',' !in s then [s] else DropTrailingEmpty(Pieces(s))
  }

  /** Fields joined with commas: the inverse of SplitComma on well-formed fields. */
  function JoinComma(fs: seq<string>): string
    requires fs != []
  {
    if |fs| == 1 then fs[0] else fs[0] + "," + JoinComma(fs[1..])
  }

  // ---------------------------------------------------------------------
  // One line, as the loop body handles it

  /** Columns 0 to 9, trimmed, in the order the code stores them. */
  function MapRow(values: seq<string>): CsvRow
    requires |values| >= 10
  {
    CsvRow(Trim(values[0]), Trim(values[1]), Trim(values[2]), Trim(values[3]),
           Trim(values[4]), Trim(values[5]), None, None,
           Trim(values[6]), Trim(values[7]), Trim(values[8]), Trim(values[9]))
  }

  /**
   * A line after the header: fewer than 9 fields is skipped; exactly 9 passes
   * the length check but reading values[9] throws; 10 or more make a row.
   */
  function LineRow(line: string): Result<Option<CsvRow>>
  {
    var values := SplitComma(line);
    if |values| < 9 then Ok(None)
    else if |values| == 9 then Threw(IndexOutOfBounds)
    else Ok(Some(MapRow(values)))
  }

  /** Rows already collected, followed by what the remaining lines give. */
  function Prepend(rows: seq<CsvRow>, rest: Result<seq<CsvRow>>): Result<seq<CsvRow>>
  {
    match rest
    case Ok(more) => Ok(rows + more)
    case Threw(e) => Threw(e)
  }

  /** The rows of the lines after the header, in order; the first throwing line aborts. */
  function RowsFrom(lines: seq<string>): Result<seq<CsvRow>>
  {
    if lines == [] then Ok([])
    else
      match LineRow(lines[0])
      case Threw(e) => Threw(e)
      case Ok(None) => RowsFrom(lines[1..])
      case Ok(Some(row)) => Prepend([row], RowsFrom(lines[1..]))
  }

  /** readCsvFromResources: a missing resource is an IOException; the first line is the header. */
  function ReadCsv(resource: Option<seq<string>>): Result<seq<CsvRow>>
  {
    match resource
    case None => Threw(ResourceNotFound)
    case Some(lines) => if lines == [] then Ok([]) else RowsFrom(lines[1..])
  }

  method ReadCsvFromResources(resource: Option<seq<string>>) returns (r: Result<seq<CsvRow>>)
    ensures r == ReadCsv(resource)
  {
    if resource.None? {
      return Threw(ResourceNotFound);
    }
    var lines := resource.value;
    var locations: seq<CsvRow> := [];
    var isFirstLine := true;
    var i := 0;
    while i < |lines|
      invariant 0 <= i <= |lines|
      invariant isFirstLine <==> i == 0
      invariant i > 0 ==> RowsFrom(lines[1..]) == Prepend(locations, RowsFrom(lines[i..]))
      invariant i == 0 ==> locations == []
    {
      var line := lines[i];
      assert lines[i..][0] == line && lines[i..][1..] == lines[i + 1..];
      if isFirstLine {
        isFirstLine := false;
        PrependNil(RowsFrom(lines[1..]));
        i := i + 1;
        continue;
      }
      var values := SplitComma(line);
      if |values| < 9 {
        i := i + 1;
        continue;
      }
      if |values| == 9 {
        return Threw(IndexOutOfBounds);
      }
      var row := MapRow(values);
      PrependAssoc(locations, [row], RowsFrom(lines[i + 1..]));
      locations := locations + [row];
      i := i + 1;
    }
    assert lines[i..] == [];
    assert locations + [] == locations;
    r := Ok(locations);
  }

  lemma PrependNil(rest: Result<seq<CsvRow>>)
    ensures Prepend([], rest) == rest
  {
    if rest.Ok? {
      assert [] + rest.value == rest.value;
    }
  }

  lemma PrependAssoc(a: seq<CsvRow>, b: seq<CsvRow>, rest: Result<seq<CsvRow>>)
    ensures Prepend(a, Prepend(b, rest)) == Prepend(a + b, rest)
  {
    if rest.Ok? {
      assert a + (b + rest.value) == (a + b) + rest.value;
    }
  }

  // ---------------------------------------------------------------------
  // What the reader promises

  /** The header line never yields a row: whatever it holds, the result is the same. */
  lemma HeaderIgnored(h1: string, h2: string, rest: seq<string>)
    ensures ReadCsv(Some([h1] + rest)) == ReadCsv(Some([h2] + rest)) == RowsFrom(rest)
  {
    assert ([h1] + rest)[1..] == rest;
    assert ([h2] + rest)[1..] == rest;
  }

  /** A line with fewer than nine fields is skipped without effect on the others. */
  lemma ShortLineSkipped(line: string, rest: seq<string>)
    requires |SplitComma(line)| < 9
    ensures RowsFrom([line] + rest) == RowsFrom(rest)
  {
    assert ([line] + rest)[1..] == rest;
  }

  /** Lines are handled in file order: the rows of a + b are the rows of a, then those of b. */
  lemma {:induction false} RowsFromAppend(a: seq<string>, b: seq<string>)
    ensures RowsFrom(a + b) ==
              match RowsFrom(a)
              case Threw(e) => Threw(e)
              case Ok(rows) => Prepend(rows, RowsFrom(b))
  {
    if a == [] {
      assert a + b == b;
      PrependNil(RowsFrom(b));
    } else {
      assert (a + b)[0] == a[0] && (a + b)[1..] == a[1..] + b;
      RowsFromAppend(a[1..], b);
      match LineRow(a[0])
      case Threw(e) =>
      case Ok(None) =>
      case Ok(Some(row)) =>
        match RowsFrom(a[1..])
        case Threw(e) =>
        case Ok(more) =>
          PrependAssoc([row], more, RowsFrom(b));
    }
  }

  /** The read aborts exactly when some line after the header has exactly nine fields. */
  lemma {:induction false} RowsFromThrowsIff(lines: seq<string>)
    ensures RowsFrom(lines).Threw? <==> exists i :: 0 <= i < |lines| && |SplitComma(lines[i])| == 9
    ensures RowsFrom(lines).Threw? ==> RowsFrom(lines).error == IndexOutOfBounds
  {
    if lines != [] {
      RowsFromThrowsIff(lines[1..]);
      if exists i :: 0 <= i < |lines[1..]| && |SplitComma(lines[1..][i])| == 9 {
        var i :| 0 <= i < |lines[1..]| && |SplitComma(lines[1..][i])| == 9;
        assert lines[i + 1] == lines[1..][i];
      }
      if exists i :: 0 <= i < |lines| && |SplitComma(lines[i])| == 9 {
        var i :| 0 <= i < |lines| && |SplitComma(lines[i])| == 9;
        if i > 0 {
          assert lines[1..][i - 1] == lines[i];
        }
      }
    }
  }

  /** Every row comes from one line with at least ten fields, and there are no more rows than lines. */
  lemma {:induction false} RowsFromSource(lines: seq<string>)
    ensures RowsFrom(lines).Ok? ==>
              |RowsFrom(lines).value| <= |lines| &&
              forall row :: row in RowsFrom(lines).value ==>
                exists i :: 0 <= i < |lines| && |SplitComma(lines[i])| >= 10 && row == MapRow(SplitComma(lines[i]))
  {
    if lines != [] {
      RowsFromSource(lines[1..]);
      var r := RowsFrom(lines);
      if r.Ok? {
        forall row | row in r.value
          ensures exists i :: 0 <= i < |lines| && |SplitComma(lines[i])| >= 10 && row == MapRow(SplitComma(lines[i]))
        {
          if LineRow(lines[0]).Ok? && LineRow(lines[0]).value.Some? && row == LineRow(lines[0]).value.value {
            assert |SplitComma(lines[0])| >= 10 && row == MapRow(SplitComma(lines[0]));
          } else {
            assert row in RowsFrom(lines[1..]).value;
            var i :| 0 <= i < |lines[1..]| && |SplitComma(lines[1..][i])| >= 10 && row == MapRow(SplitComma(lines[1..][i]));
            assert lines[i + 1] == lines[1..][i];
          }
        }
      }
    }
  }

  /** Every stored field is trimmed: trimming it again changes nothing. */
  lemma {:induction false} FieldsTrimmed(lines: seq<string>)
    ensures RowsFrom(lines).Ok? ==>
              forall row :: row in RowsFrom(lines).value ==>
                Trim(row.regionCode) == row.regionCode && Trim(row.region) == row.region &&
                Trim(row.councilCode) == row.councilCode && Trim(row.council) == row.council &&
                Trim(row.wardCode) == row.wardCode && Trim(row.ward) == row.ward &&
                Trim(row.villageCode) == row.villageCode && Trim(row.village) == row.village &&
                Trim(row.hamletCode) == row.hamletCode && Trim(row.hamlet) == row.hamlet &&
                row.streetCode.None? && row.street.None?
  {
    RowsFromSource(lines);
    if RowsFrom(lines).Ok? {
      forall row | row in RowsFrom(lines).value
        ensures Trim(row.regionCode) == row.regionCode && Trim(row.region) == row.region &&
                Trim(row.councilCode) == row.councilCode && Trim(row.council) == row.council &&
                Trim(row.wardCode) == row.wardCode && Trim(row.ward) == row.ward &&
                Trim(row.villageCode) == row.villageCode && Trim(row.village) == row.village &&
                Trim(row.hamletCode) == row.hamletCode && Trim(row.hamlet) == row.hamlet &&
                row.streetCode.None? && row.street.None?
      {
        var i :| 0 <= i < |lines| && |SplitComma(lines[i])| >= 10 && row == MapRow(SplitComma(lines[i]));
        var v := SplitComma(lines[i]);
        TrimIdempotent(v[0]); TrimIdempotent(v[1]); TrimIdempotent(v[2]); TrimIdempotent(v[3]);
        TrimIdempotent(v[4]); TrimIdempotent(v[5]); TrimIdempotent(v[6]); TrimIdempotent(v[7]);
        TrimIdempotent(v[8]); TrimIdempotent(v[9]);
      }
    }
  }

  // ---------------------------------------------------------------------
  // Splitting what JoinComma built

  lemma {:induction false} PiecesOfPlain(s: string)
    requires ',' !in s
    ensures Pieces(s) == [s]
  {
    if s != [] {
      PiecesOfPlain(s[1..]);
      assert [s[0]] + s[1..] == s;
    }
  }

  lemma {:induction false} PiecesOfJoined(a: string, b: string)
    requires ',' !in a
    ensures Pieces(a + "," + b) == [a] + Pieces(b)
  {
    if a == [] {
      assert a + "," + b == [','] + b;
      assert ([','] + b)[1..] == b;
    } else {
      assert (a + "," + b)[1..] == a[1..] + "," + b;
      PiecesOfJoined(a[1..], b);
      assert [a[0]] + a[1..] == a;
    }
  }

  /** Fields joined with commas come back as the same pieces. */
  lemma {:induction false} PiecesOfJoinComma(fs: seq<string>)
    requires fs != []
    requires forall k :: 0 <= k < |fs| ==> ',' !in fs[k]
    ensures Pieces(JoinComma(fs)) == fs
  {
    if |fs| == 1 {
      PiecesOfPlain(fs[0]);
    } else {
      PiecesOfJoinComma(fs[1..]);
      PiecesOfJoined(fs[0], JoinComma(fs[1..]));
    }
  }

  /** split(",") recovers comma-free fields from their join, provided the last one is not empty. */
  lemma SplitJoinRoundTrip(fs: seq<string>)
    requires |fs| >= 2
    requires forall k :: 0 <= k < |fs| ==> ',' !in fs[k]
    requires fs[|fs| - 1] != []
    ensures SplitComma(JoinComma(fs)) == fs
  {
    PiecesOfJoinComma(fs);
    assert JoinComma(fs) == fs[0] + "," + JoinComma(fs[1..]);
    assert JoinComma(fs)[|fs[0]|] == ',';
  }

  // ---------------------------------------------------------------------
  // The documented column layout

  /**
   * The mapping the header comment describes: region, council, ward, street,
   * village and hamlet, each as a code column followed by a name column.
   */
  function MapDocumentedRow(values: seq<string>): CsvRow
    requires |values| >= 12
  {
    CsvRow(Trim(values[0]), Trim(values[1]), Trim(values[2]), Trim(values[3]),
           Trim(values[4]), Trim(values[5]), Some(Trim(values[6])), Some(Trim(values[7])),
           Trim(values[8]), Trim(values[9]), Trim(values[10]), Trim(values[11]))
  }

  /** A line after the header under the documented layout: fewer than twelve fields is skipped. */
  function DocumentedLineRow(line: string): Option<CsvRow>
  {
    var values := SplitComma(line);
    if |values| < 12 then None else Some(MapDocumentedRow(values))
  }

  function DocumentedRowsFrom(lines: seq<string>): seq<CsvRow>
  {
    if lines == [] then []
    else
      match DocumentedLineRow(lines[0])
      case None => DocumentedRowsFrom(lines[1..])
      case Some(row) => [row] + DocumentedRowsFrom(lines[1..])
  }

  /** The reader with the documented layout: it never throws on a short line. */
  function ReadCsvDocumented(resource: Option<seq<string>>): (r: Result<seq<CsvRow>>)
    ensures resource.Some? ==> r.Ok?
  {
    match resource
    case None => Threw(ResourceNotFound)
    case Some(lines) => if lines == [] then Ok([]) else Ok(DocumentedRowsFrom(lines[1..]))
  }

  /** Fields in the documented layout: comma-free, already trimmed, the last one not empty. */
  predicate WellFormedFields(fs: seq<string>)
  {
    |fs| == 12 && fs[11] != [] && forall k :: 0 <= k < 12 ==> ',' !in fs[k] && Trim(fs[k]) == fs[k]
  }

  /** The documented reader puts every column of a well-formed line where the header says. */
  lemma DocumentedRowRoundTrip(fs: seq<string>)
    requires WellFormedFields(fs)
    ensures DocumentedLineRow(JoinComma(fs)) ==
              Some(CsvRow(fs[0], fs[1], fs[2], fs[3], fs[4], fs[5], Some(fs[6]), Some(fs[7]),
                          fs[8], fs[9], fs[10], fs[11]))
  {
    SplitJoinRoundTrip(fs);
  }

  /**
   * The code as written reads the street columns of a well-formed line as the
   * village and the village columns as the hamlet; wherever the street and
   * village codes differ, it disagrees with the documented layout.
   */
  lemma ColumnShiftAsWritten(fs: seq<string>)
    requires WellFormedFields(fs)
    ensures LineRow(JoinComma(fs)) == Ok(Some(CsvRow(fs[0], fs[1], fs[2], fs[3], fs[4], fs[5], None, None,
                                                     fs[6], fs[7], fs[8], fs[9])))
    ensures DocumentedLineRow(JoinComma(fs)).Some? && DocumentedLineRow(JoinComma(fs)).value.villageCode == fs[8]
    ensures fs[6] != fs[8] ==> LineRow(JoinComma(fs)).value.value.villageCode != DocumentedLineRow(JoinComma(fs)).value.villageCode
  {
    SplitJoinRoundTrip(fs);
  }

  /** A line of exactly nine fields passes the length check and then aborts the whole read. */
  lemma NineFieldLineAborts(header: string, before: seq<string>, line: string, after: seq<string>)
    requires |SplitComma(line)| == 9
    requires forall k :: 0 <= k < |before| ==> |SplitComma(before[k])| != 9
    ensures ReadCsv(Some([header] + before + [line] + after)) == Threw(IndexOutOfBounds)
    ensures ReadCsvDocumented(Some([header] + before + [line] + after)).Ok?
  {
    var lines := [header] + before + [line] + after;
    assert lines[1..] == before + ([line] + after);
    RowsFromThrowsIff(before);
    RowsFromAppend(before, [line] + after);
    assert ([line] + after)[0] == line;
  }
}
