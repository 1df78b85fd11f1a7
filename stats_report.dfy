/**
 * `HAProxySocket.get_server_stats`, text part: the `show stat` response is
 * sanitised into lines and read as comma-separated records, the first line
 * naming the columns, the way `csv.DictReader` reads them when no field is
 * quoted.
 */
module StatsReport {
  import opened Text

  /** The characters `lstrip('# ')` removes from the start of the response. */
  const CommentMarks: set<char> := {'#', ' '}

  /**
   * `output.lstrip('# ').strip()`, split into lines, each with its leading
   * and trailing commas stripped.
   */
  function Sanitise(output: String): seq<String>
  {
    var raw := SplitLines(Trim(LStrip(output, CommentMarks)));
    seq(|raw|, j requires 0 <= j < |raw| => Strip(raw[j], {','}))
  }

  /**
   * Sanitising gives one line per line of the trimmed response; none of
   * them starts or ends with a comma, and none holds a line break.
   */
  lemma SanitisedLines(output: String)
    ensures var lines := Sanitise(output);
      |lines| == |SplitLines(Trim(LStrip(output, CommentMarks)))|
      && (forall j :: 0 <= j < |lines| ==> lines[j] == [] || (lines[j][0] != ',' && lines[j][|lines[j]| - 1] != ','))
      && (forall j :: 0 <= j < |lines| ==> IsLine(lines[j]))
  {
    var raw := SplitLines(Trim(LStrip(output, CommentMarks)));
    StrippedLines(raw, Sanitise(output));
  }

  lemma StrippedLines(raw: seq<String>, lines: seq<String>)
    requires forall j :: 0 <= j < |raw| ==> IsLine(raw[j])
    requires |lines| == |raw| && forall j :: 0 <= j < |raw| ==> lines[j] == Strip(raw[j], {','})
    ensures forall j :: 0 <= j < |lines| ==> lines[j] == [] || (lines[j][0] != ',' && lines[j][|lines[j]| - 1] != ',')
    ensures forall j :: 0 <= j < |lines| ==> IsLine(lines[j])
  {
    forall j | 0 <= j < |lines| ensures IsLine(lines[j]) {
      StripOfLine(raw[j], {','});
    }
  }

  /** The fields the csv reader finds on a line: none on an empty line. */
  function Fields(line: String): (fields: seq<String>)
    ensures line == [] <==> fields == []
    ensures line != [] ==> |fields| == Count(line, ',') + 1
  {
    if line == [] then [] else Split(line, ',')
  }

  /**
   * A record of the stats report. `cells` maps a column name to the value
   * the line holds for it; a column the line is too short to reach has no
   * cell (DictReader stores `None` there). `overflow` holds the fields past
   * the last column (DictReader stores them under the key `None`).
   */
  datatype Row = Row(cells: map<String, String>, overflow: seq<String>)

  /** `dict(zip(header, fields))` over the first `n` pairs: a later duplicate column wins. */
  function Zip(header: seq<String>, fields: seq<String>, n: nat): (m: map<String, String>)
    requires n <= |header| && n <= |fields|
    ensures m.Keys == set j | 0 <= j < n :: header[j]
    decreases n
  {
    if n == 0 then map[]
    else Zip(header, fields, n - 1)[header[n - 1] := fields[n - 1]]
  }

  /** The record DictReader builds from one line's fields. */
  function MakeRow(header: seq<String>, fields: seq<String>): Row
  {
    if |fields| >= |header| then
      Row(Zip(header, fields, |header|), fields[|header|..])
    else
      var missing := set j | |fields| <= j < |header| :: header[j];
      Row(Zip(header, fields, |fields|) - missing, [])
  }

  /** Without duplicate columns, the cell of column `j` is the `j`-th field. */
  lemma {:induction false} ZipAt(header: seq<String>, fields: seq<String>, n: nat, j: nat)
    requires n <= |header| && n <= |fields| && j < n
    requires forall a, b :: 0 <= a < b < |header| ==> header[a] != header[b]
    ensures Zip(header, fields, n)[header[j]] == fields[j]
    decreases n
  {
    if j < n - 1 {
      assert header[j] != header[n - 1];
      ZipAt(header, fields, n - 1, j);
    }
  }

  /**
   * A line with as many fields as the header has columns, under a header
   * without duplicate names, becomes a record whose columns are exactly
   * the header's, each holding its own field, with no overflow.
   */
  lemma RowOfFullLine(header: seq<String>, fields: seq<String>)
    requires |fields| == |header|
    requires forall a, b :: 0 <= a < b < |header| ==> header[a] != header[b]
    ensures MakeRow(header, fields).cells.Keys == set c | c in header
    ensures MakeRow(header, fields).overflow == []
    ensures forall j :: 0 <= j < |header| ==> MakeRow(header, fields).cells[header[j]] == fields[j]
  {
    var m := Zip(header, fields, |header|);
    assert m.Keys == set c | c in header by {
      forall c | c in header ensures c in m { var j :| 0 <= j < |header| && header[j] == c; }
    }
    forall j | 0 <= j < |header| ensures m[header[j]] == fields[j] {
      ZipAt(header, fields, |header|, j);
    }
  }

  /** The lines after the header that are not empty, in order. */
  function NonEmpty(lines: seq<String>): (r: seq<String>)
    ensures |r| <= |lines|
    ensures forall j :: 0 <= j < |r| ==> r[j] != [] && r[j] in lines
    ensures forall l :: l in lines && l != [] ==> l in r
    ensures multiset(r) == multiset(lines)[[] := 0]
    decreases |lines|
  {
    if lines == [] then []
    else
      assert lines == [lines[0]] + lines[1..];
      (if lines[0] == [] then [] else [lines[0]]) + NonEmpty(lines[1..])
  }

  /** The records of the lines after the header, empty lines skipped. */
  function RowsOf(header: seq<String>, lines: seq<String>): seq<Row>
    decreases |lines|
  {
    if lines == [] then []
    else
      var fields := Fields(lines[0]);
      (if fields == [] then [] else [MakeRow(header, fields)]) + RowsOf(header, lines[1..])
  }

  /** csv.DictReader over the sanitised lines: the first line is the header. */
  function Tabulate(lines: seq<String>): seq<Row>
  {
    if lines == [] then [] else RowsOf(Fields(lines[0]), lines[1..])
  }

  /** `get_server_stats` on a response text. */
  function GetServerStats(output: String): seq<Row>
  {
    Tabulate(Sanitise(output))
  }

  /** One record per non-empty line after the header, in the order of the lines. */
  lemma {:induction false} RowsOfNonEmpty(header: seq<String>, lines: seq<String>)
    ensures var rows := RowsOf(header, lines); var ne := NonEmpty(lines);
      |rows| == |ne| && forall j :: 0 <= j < |rows| ==> rows[j] == MakeRow(header, Fields(ne[j]))
    decreases |lines|
  {
    if lines != [] {
      RowsOfNonEmpty(header, lines[1..]);
    }
  }

  /**
   * For a well-formed report (a header without duplicate names and every
   * other non-empty line carrying one field per column), there is one
   * record per non-empty data line and each record's columns are exactly
   * the header's.
   */
  lemma TabulateWellFormed(lines: seq<String>)
    requires lines != []
    requires var header := Fields(lines[0]);
      forall a, b :: 0 <= a < b < |header| ==> header[a] != header[b]
    requires forall l :: l in lines[1..] && l != [] ==> |Fields(l)| == |Fields(lines[0])|
    ensures |Tabulate(lines)| == |NonEmpty(lines[1..])|
    ensures forall j :: 0 <= j < |Tabulate(lines)| ==>
      Tabulate(lines)[j].cells.Keys == (set c | c in Fields(lines[0])) && Tabulate(lines)[j].overflow == []
  {
    var header := Fields(lines[0]);
    RowsOfNonEmpty(header, lines[1..]);
    var ne := NonEmpty(lines[1..]);
    forall j | 0 <= j < |ne|
      ensures MakeRow(header, Fields(ne[j])).cells.Keys == (set c | c in header)
      ensures MakeRow(header, Fields(ne[j])).overflow == []
    {
      RowOfFullLine(header, Fields(ne[j]));
    }
  }
}
