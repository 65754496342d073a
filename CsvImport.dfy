/** The attendee CSV reader of `AttendeeController` (`parseCSV`): a plain
    line-and-comma splitter with no quoting. The header line names the
    columns; each later line becomes one attendee record when it has a
    non-empty name. */
module AttendeeImport {
  import opened Wrappers
  import opened JsString

  /** The record built for one data line. A field is `None` when no column
      carries its header, or when the line has too few cells for the
      column that does (`values[index]` is `undefined`). */
  datatype Attendee = Attendee(
    name: Option<string>,
    email: Option<string>,
    phone: Option<string>,
    company: Option<string>,
    jobTitle: Option<string>)

  const Blank := Attendee(None, None, None, None, None)

  /** The five headers the reader copies; every other column is ignored. */
  predicate IsColumn(header: string) {
    header == "name" || header == "email" || header == "phone" || header == "company" || header == "job_title"
  }

  /** The field a known header fills. */
  function FieldOf(a: Attendee, header: string): Option<string>
    requires IsColumn(header)
  {
    if header == "name" then a.name
    else if header == "email" then a.email
    else if header == "phone" then a.phone
    else if header == "company" then a.company
    else a.jobTitle
  }

  /** `values[index]`: the cell, or nothing past the end of the line. */
  function CellAt(values: seq<string>, index: nat): (cell: Option<string>)
    ensures cell.Some? <==> index < |values|
    ensures index < |values| ==> cell.value == values[index]
  {
    if index < |values| then Some(values[index]) else None
  }

  /** One step of the `forEach` over the headers: a known header overwrites
      its field with the cell (even an absent one); an unknown header
      changes nothing. */
  function Assign(a: Attendee, header: string, cell: Option<string>): (r: Attendee)
    ensures IsColumn(header) ==> FieldOf(r, header) == cell
    ensures forall c :: IsColumn(c) && c != header ==> FieldOf(r, c) == FieldOf(a, c)
    ensures !IsColumn(header) ==> r == a
  {
    if header == "name" then a.(name := cell)
    else if header == "email" then a.(email := cell)
    else if header == "phone" then a.(phone := cell)
    else if header == "company" then a.(company := cell)
    else if header == "job_title" then a.(jobTitle := cell)
    else a
  }

  /** The record after the first `n` headers have been visited. */
  function Fill(headers: seq<string>, values: seq<string>, n: nat): Attendee
    requires n <= |headers|
  {
    if n == 0 then Blank
    else Assign(Fill(headers, values, n - 1), headers[n - 1], CellAt(values, n - 1))
  }

  /** The header line: every cell trimmed and lower-cased. */
  function HeaderRow(line: string): (headers: seq<string>)
    ensures |headers| == |Split(line, ',')|
  {
    var cells := Split(line, ',');
    seq(|cells|, k requires 0 <= k < |cells| => Lower(Trim(cells[k])))
  }

  /** A data line: every cell trimmed. */
  function ValueRow(line: string): (values: seq<string>)
    ensures |values| == |Split(line, ',')|
  {
    var cells := Split(line, ',');
    seq(|cells|, k requires 0 <= k < |cells| => Trim(cells[k]))
  }

  /** The record one data line yields. */
  function RowRecord(headers: seq<string>, line: string): Attendee {
    Fill(headers, ValueRow(line), |headers|)
  }

  /** `if (attendee.name)`: present and not the empty string. */
  predicate Named(a: Attendee) {
    a.name.Some? && a.name.value != ""
  }

  /** The records of the named data lines, in line order. */
  function Rows(headers: seq<string>, lines: seq<string>): seq<Attendee>
    decreases |lines|
  {
    if lines == [] then []
    else
      var a := RowRecord(headers, lines[|lines| - 1]);
      Rows(headers, lines[..|lines| - 1]) + (if Named(a) then [a] else [])
  }

  /** The whole reader: the trimmed content split into lines; fewer than
      two lines give no records; otherwise the first line names the
      columns and the rest are data. */
  function Parse(content: string): seq<Attendee> {
    var lines := Split(Trim(content), '\n');
    if |lines| < 2 then [] else Rows(HeaderRow(lines[0]), lines[1..])
  }

  /** `parseCSV`, with its `for` loop over the lines and the `forEach` over
      the headers. */
  method ParseCSV(content: string) returns (attendees: seq<Attendee>)
    ensures attendees == Parse(content)
    ensures '\n' !in Trim(content) ==> attendees == []
    ensures forall k :: 0 <= k < |attendees| ==> Named(attendees[k])
    ensures |attendees| <= |Split(Trim(content), '\n')| - 1
  {
    ParseBounds(content);
    var lines := Split(Trim(content), '\n');
    if |lines| < 2 {
      return [];
    }
    var headers := HeaderRow(lines[0]);
    attendees := [];
    for i := 1 to |lines|
      invariant attendees == Rows(headers, lines[1..i])
    {
      var attendee := ReadLine(headers, lines[i]);
      RowsSnoc(headers, lines[1..i + 1], lines[1..i], lines[i]);
      if Named(attendee) {
        attendees := attendees + [attendee];
      }
    }
    assert lines[1..|lines|] == lines[1..];
  }

  /** Every record is named, there is at most one per data line, and a
      single line (header only, or nothing) gives none. */
  lemma ParseBounds(content: string)
    ensures '\n' !in Trim(content) ==> Parse(content) == []
    ensures forall k :: 0 <= k < |Parse(content)| ==> Named(Parse(content)[k])
    ensures |Parse(content)| <= |Split(Trim(content), '\n')| - 1
  {
    SingleLineEmpty(content);
    var lines := Split(Trim(content), '\n');
    if |lines| >= 2 {
      RowsBounds(HeaderRow(lines[0]), lines[1..]);
    }
  }

  /** At most one record per line, and only named ones. */
  lemma {:induction false} RowsBounds(headers: seq<string>, lines: seq<string>)
    ensures |Rows(headers, lines)| <= |lines|
    ensures forall k :: 0 <= k < |Rows(headers, lines)| ==> Named(Rows(headers, lines)[k])
    decreases |lines|
  {
    if lines != [] {
      RowsBounds(headers, lines[..|lines| - 1]);
    }
  }

  /** The body of the line loop: the trimmed cells of one line and the
      `forEach` over the headers that copies them into a fresh record. */
  method ReadLine(headers: seq<string>, line: string) returns (attendee: Attendee)
    ensures attendee == RowRecord(headers, line)
  {
    var values := ValueRow(line);
    attendee := Blank;
    for index := 0 to |headers|
      invariant attendee == Fill(headers, values, index)
    {
      var header := headers[index];
      var cell := CellAt(values, index);
      if header == "name" {
        attendee := attendee.(name := cell);
      } else if header == "email" {
        attendee := attendee.(email := cell);
      } else if header == "phone" {
        attendee := attendee.(phone := cell);
      } else if header == "company" {
        attendee := attendee.(company := cell);
      } else if header == "job_title" {
        attendee := attendee.(jobTitle := cell);
      }
    }
  }

  // ---------------------------------------------------------------- properties

  /** `Rows` over one more line: the previous records, then the new line's
      record when it is named. */
  lemma RowsSnoc(headers: seq<string>, lines: seq<string>, init: seq<string>, line: string)
    requires lines == init + [line]
    ensures Rows(headers, lines) == Rows(headers, init) + (if Named(RowRecord(headers, line)) then [RowRecord(headers, line)] else [])
  {
    assert lines[..|lines| - 1] == init;
  }

  /** Content that is a single line once trimmed (no header-and-data pair)
      yields no records. */
  lemma SingleLineEmpty(content: string)
    ensures '\n' !in Trim(content) ==> Parse(content) == []
  {
    if '\n' !in Trim(content) {
      SplitNoSeparator(Trim(content), '\n');
    }
  }

  /** A field whose header appears in no column stays absent. */
  lemma {:induction false} FillUnmatched(headers: seq<string>, values: seq<string>, n: nat, c: string)
    requires n <= |headers| && IsColumn(c)
    requires forall k :: 0 <= k < n ==> headers[k] != c
    ensures FieldOf(Fill(headers, values, n), c) == None
  {
    if n > 0 {
      FillUnmatched(headers, values, n - 1, c);
    }
  }

  /** A field takes the cell under the LAST column carrying its header
      (later columns overwrite earlier ones), absent when the line is too
      short for that column. */
  lemma {:induction false} FillLastMatch(headers: seq<string>, values: seq<string>, n: nat, c: string, k: nat)
    requires k < n <= |headers| && IsColumn(c) && headers[k] == c
    requires forall k' :: k < k' < n ==> headers[k'] != c
    ensures FieldOf(Fill(headers, values, n), c) == CellAt(values, k)
  {
    if n - 1 > k {
      FillLastMatch(headers, values, n - 1, c, k);
    }
  }

  /** Cells under unknown headers do not matter: two lines that agree on
      every column with a known header give the same record. */
  lemma {:induction false} FillIgnoresOtherColumns(headers: seq<string>, v: seq<string>, w: seq<string>, n: nat)
    requires n <= |headers|
    requires forall k :: 0 <= k < n && IsColumn(headers[k]) ==> CellAt(v, k) == CellAt(w, k)
    ensures Fill(headers, v, n) == Fill(headers, w, n)
  {
    if n > 0 {
      FillIgnoresOtherColumns(headers, v, w, n - 1);
    }
  }

  /** Every record comes from a data line, the records keep the order of
      their lines, and every named line contributes its record. */
  lemma {:induction false} RowsOrder(headers: seq<string>, lines: seq<string>) returns (from: seq<nat>)
    ensures |from| == |Rows(headers, lines)|
    ensures forall k :: 0 <= k < |from| ==> from[k] < |lines| && Rows(headers, lines)[k] == RowRecord(headers, lines[from[k]])
    ensures forall k, k' :: 0 <= k < k' < |from| ==> from[k] < from[k']
    ensures forall j :: 0 <= j < |lines| && Named(RowRecord(headers, lines[j])) ==> j in from
    decreases |lines|
  {
    if lines == [] {
      from := [];
    } else {
      var last := |lines| - 1;
      var init := lines[..last];
      var prev := RowsOrder(headers, init);
      assert forall j :: 0 <= j < last ==> init[j] == lines[j];
      assert lines == init + [lines[last]];
      RowsSnoc(headers, lines, init, lines[last]);
      var a := RowRecord(headers, lines[last]);
      if Named(a) {
        from := prev + [last];
      } else {
        from := prev;
      }
    }
  }
}
