/** The CSV codec: the text `exportToCSV` builds before handing it to the
    browser, the dotted-path lookup it uses, and `parseCSV`. */
module Csv {
  import opened Wrappers
  import opened Seqs
  import opened Text
  import opened Types

  /** The JavaScript values a row object holds: strings, nested objects, and
      `undefined` for a property that is not there. */
  datatype Value = Str(s: string) | Obj(fields: map<string, Value>) | Undefined

  /** `undefined` and the empty string are the falsy values among these. */
  predicate Falsy(v: Value)
  {
    v == Undefined || v == Str("")
  }

  /** `current?.[key]`. */
  function Step(current: Value, key: string): (r: Value)
    ensures r != Undefined ==> current.Obj? && key in current.fields && r == current.fields[key]
  {
    match current
    case Obj(m) => if key in m then m[key] else Undefined
    case _ => Undefined
  }

  /** The `reduce` over the keys of a path. Optional chaining makes a path
      through a non-object yield `undefined`. */
  function Walk(current: Value, keys: seq<string>): (r: Value)
    ensures keys == [] ==> r == current
    ensures keys != [] && !current.Obj? ==> r == Undefined
    decreases |keys|
  {
    if keys == [] then current else Walk(Step(current, keys[0]), keys[1..])
  }

  /** `getNestedValue`: follow the dot-separated keys of `path`; a falsy
      outcome becomes the empty string, so the result is never `undefined`. */
  function GetNestedValue(obj: Value, path: string): (r: Value)
    ensures r != Undefined
  {
    var v := Walk(obj, Split(path, '.'));
    if Falsy(v) then Str("") else v
  }

  /** A path without a dot names one property: its value, or the empty string
      when the property is missing or falsy. */
  lemma NestedValueOfKey(obj: Value, key: string)
    requires '.' !in key
    ensures GetNestedValue(obj, key) ==
              if obj.Obj? && key in obj.fields && !Falsy(obj.fields[key]) then obj.fields[key] else Str("")
  {
    SplitWithoutSeparator(key, '.');
    assert [key][1..] == [];
    assert Walk(obj, [key]) == Step(obj, key);
  }

  /** The exported text of a property of an object, for a dot-free name. */
  lemma ValueUnder(row: Value, header: string, v: Value)
    requires '.' !in header && row.Obj? && header in row.fields && row.fields[header] == v
    ensures Stringify(GetNestedValue(row, header)) == Stringify(if Falsy(v) then Str("") else v)
  {
    NestedValueOfKey(row, header);
  }

  /** A dotted path is followed one key at a time: `key.rest` looks `rest` up
      in the value of `key`. */
  lemma NestedValueOfPath(obj: Value, key: string, rest: string)
    requires '.' !in key
    ensures GetNestedValue(obj, key + "." + rest) == GetNestedValue(Step(obj, key), rest)
  {
    SplitPrefix(key, "." + rest, '.');
    assert key + "." + rest == key + ("." + rest);
    assert ("." + rest)[0] == '.' && ("." + rest)[1..] == rest;
    assert Split("." + rest, '.') == [""] + Split(rest, '.');
    assert key + "" == key;
    assert Split(key + "." + rest, '.') == [key] + Split(rest, '.');
    assert ([key] + Split(rest, '.'))[1..] == Split(rest, '.');
  }

  /** `String(value)`. */
  function Stringify(v: Value): (s: string)
    ensures v.Str? ==> s == v.s
    ensures !v.Str? ==> s != "" && '\n' !in s && ',' !in s && '"' !in s
  {
    match v
    case Str(s) => s
    case Obj(_) => "[object Object]"
    case Undefined => "undefined"
  }

  /** One exported cell: the text in double quotes, inner quotes doubled.
      It starts and ends with a quote and holds every other character the
      text holds, and no other. */
  function QuoteCell(text: string): (cell: string)
    ensures |cell| >= 2 && cell[0] == '"' && cell[|cell| - 1] == '"'
    ensures forall c :: c != '"' ==> (c in cell <==> c in text)
  {
    "\"" + EscapeQuotes(text) + "\""
  }

  /** The cells of one data row, one per header, in header order. A missing
      or falsy property gives an empty quoted cell, never `"undefined"`. */
  function Cells(row: Value, headers: seq<string>): (cells: seq<string>)
    ensures |cells| == |headers|
    ensures forall i :: 0 <= i < |headers| ==>
              |cells[i]| >= 2 && cells[i][0] == '"' && cells[i][|cells[i]| - 1] == '"'
    ensures forall i :: 0 <= i < |headers| && Falsy(Walk(row, Split(headers[i], '.'))) ==> cells[i] == "\"\""
  {
    seq(|headers|, i requires 0 <= i < |headers| => QuoteCell(Stringify(GetNestedValue(row, headers[i]))))
  }

  /** The lines of the export: the header names joined by commas, then one
      line of quoted cells per row. */
  function ExportLines(data: seq<Value>, headers: seq<string>): (lines: seq<string>)
    ensures |lines| == 1 + |data| && lines[0] == Join(headers, ",")
    ensures forall i :: 0 <= i < |data| ==> lines[i + 1] == Join(Cells(data[i], headers), ",")
  {
    var rows := RowLines(data, headers);
    assert forall i :: 0 <= i < |data| ==> ([Join(headers, ",")] + rows)[i + 1] == rows[i];
    [Join(headers, ",")] + rows
  }

  /** The data lines of the export, one per row. */
  function RowLines(data: seq<Value>, headers: seq<string>): (rows: seq<string>)
    ensures |rows| == |data| && forall i :: 0 <= i < |data| ==> rows[i] == Join(Cells(data[i], headers), ",")
  {
    seq(|data|, i requires 0 <= i < |data| => Join(Cells(data[i], headers), ","))
  }

  /** The text `exportToCSV` downloads. */
  function ExportToCsv(data: seq<Value>, headers: seq<string>): (text: string)
    ensures Join(headers, ",") <= text
  {
    Join(ExportLines(data, headers), "\n")
  }

  /** No header and no exported value holds a line break. */
  predicate SingleLineValues(data: seq<Value>, headers: seq<string>)
  {
    (forall j :: 0 <= j < |headers| ==> '\n' !in headers[j]) &&
    forall i, j :: 0 <= i < |data| && 0 <= j < |headers| ==>
      '\n' !in Stringify(GetNestedValue(data[i], headers[j]))
  }

  /** When no value holds a line break, the export has exactly 1 + |data|
      lines: the header line, then row i on line i + 1 with |headers| cells. */
  lemma ExportLineStructure(data: seq<Value>, headers: seq<string>)
    requires SingleLineValues(data, headers)
    ensures Split(ExportToCsv(data, headers), '\n') == ExportLines(data, headers)
    ensures |Split(ExportToCsv(data, headers), '\n')| == 1 + |data|
    ensures Split(ExportToCsv(data, headers), '\n')[0] == Join(headers, ",")
    ensures forall i :: 0 <= i < |data| ==>
              Split(ExportToCsv(data, headers), '\n')[i + 1] == Join(Cells(data[i], headers), ",") &&
              |Cells(data[i], headers)| == |headers|
  {
    var lines := ExportLines(data, headers);
    assert forall k :: 0 <= k < |lines| ==> '\n' !in lines[k] by {
      JoinExcludes(headers, ",", '\n');
      forall k | 0 < k < |lines| ensures '\n' !in lines[k] {
        RowLineSingle(data[k - 1], headers);
      }
    }
    SplitJoin(lines, '\n');
  }

  /** A row whose values hold no line break exports as a line without one. */
  lemma RowLineSingle(row: Value, headers: seq<string>)
    requires forall j :: 0 <= j < |headers| ==> '\n' !in Stringify(GetNestedValue(row, headers[j]))
    ensures '\n' !in Join(Cells(row, headers), ",")
  {
    var cells := Cells(row, headers);
    forall j | 0 <= j < |cells| ensures '\n' !in cells[j] {
      var v := Stringify(GetNestedValue(row, headers[j]));
      assert cells[j] == QuoteCell(v);
    }
    JoinExcludes(cells, ",", '\n');
  }

  /** The id `parseCSV` gives the record from the k-th non-blank data line. */
  function ImportedId(now: nat, k: nat): (id: string)
    ensures |id| > 9 && id[..9] == "imported_"
    ensures forall i :: 9 <= i < |id| ==> id[i] == '_' || '0' <= id[i] <= '9'
    ensures |id| == 10 + |NatToString(now)| + |NatToString(k)|
    ensures id[9..9 + |NatToString(now)|] == NatToString(now) && id[9 + |NatToString(now)|] == '_'
    ensures id[|id| - |NatToString(k)|..] == NatToString(k)
  {
    "imported_" + NatToString(now) + "_" + NatToString(k)
  }

  /** Records of one import get distinct ids: two positions give two ids
      whenever the two clock readings have as many digits. */
  lemma ImportedIdsDistinct(now1: nat, now2: nat, k1: nat, k2: nat)
    requires |NatToString(now1)| == |NatToString(now2)|
    ensures ImportedId(now1, k1) == ImportedId(now2, k2) ==> k1 == k2
  {
    var id1, id2 := ImportedId(now1, k1), ImportedId(now2, k2);
    if id1 == id2 {
      var start := 10 + |NatToString(now1)|;
      assert id1[start..] == NatToString(k1) && id2[start..] == NatToString(k2);
      NatToStringInjective(k1, k2);
    }
  }

  /** `values[k] || ''`. */
  function Column(values: seq<string>, k: nat): (c: string)
    ensures c in values || c == ""
    ensures k < |values| ==> c == values[k]
    ensures k >= |values| ==> c == ""
  {
    if k < |values| then values[k] else ""
  }

  /** One field as `parseCSV` cleans it: trimmed, then every quote removed. */
  function CleanField(raw: string): (r: string)
    ensures '"' !in r
    ensures forall c :: c in r ==> c in raw
  {
    RemoveChar(Trim(raw), '"')
  }

  /** The fields of one line as `parseCSV` reads them: split at every comma. */
  function CommaFields(line: string): (values: seq<string>)
    ensures |values| >= 1 && |values| == |Split(line, ',')|
    ensures forall i :: 0 <= i < |values| ==> values[i] == CleanField(Split(line, ',')[i])
    ensures forall i :: 0 <= i < |values| ==> '"' !in values[i] && ',' !in values[i]
  {
    var raw := Split(line, ',');
    seq(|raw|, i requires 0 <= i < |raw| => CleanField(raw[i]))
  }

  /** The record built from one line's fields: columns 0 to 3 are token,
      name, phone and year, a missing or empty year is the current one. */
  function RecordOf(values: seq<string>, k: nat, now: nat, currentYear: string): (p: Participant)
    ensures p.id == ImportedId(now, k)
    ensures p.tokenNo == Column(values, 0) && p.name == Column(values, 1) && p.phone == Column(values, 2)
    ensures |values| < 2 ==> !HasTokenAndName(p)
    ensures 3 < |values| && values[3] != "" ==> p.year == values[3]
    ensures (3 >= |values| || values[3] == "") ==> p.year == currentYear
  {
    var year := Column(values, 3);
    Participant(ImportedId(now, k), Column(values, 0), Column(values, 1), Column(values, 2),
                if year != "" then year else currentYear)
  }

  /** A line that is not all whitespace. */
  predicate NonBlank(line: string)
  {
    Trim(line) != ""
  }

  /** Imported records must have a token and a name. */
  predicate HasTokenAndName(p: Participant)
  {
    p.tokenNo != "" && p.name != ""
  }

  /** The lines after the first that are not blank. */
  function DataLines(csvText: string): (lines: seq<string>)
    ensures forall i :: 0 <= i < |lines| ==> '\n' !in lines[i] && NonBlank(lines[i])
    ensures IsSubsequence(lines, Split(csvText, '\n')[1..])
    ensures forall l :: l in Split(csvText, '\n')[1..] && NonBlank(l) ==> l in lines
  {
    Filter(Split(csvText, '\n')[1..], NonBlank)
  }

  /** The import pipeline with the per-line field reader as a parameter. */
  function ParseWith(csvText: string, now: nat, currentYear: string, fields: string -> seq<string>): (r: seq<Participant>)
    ensures forall i :: 0 <= i < |r| ==> HasTokenAndName(r[i])
    ensures forall p :: p in r ==>
              exists k :: 0 <= k < |DataLines(csvText)| &&
                          p == RecordOf(fields(DataLines(csvText)[k]), k, now, currentYear)
    ensures forall k :: 0 <= k < |DataLines(csvText)| &&
                        HasTokenAndName(RecordOf(fields(DataLines(csvText)[k]), k, now, currentYear)) ==>
              RecordOf(fields(DataLines(csvText)[k]), k, now, currentYear) in r
    ensures r == Filter(LineRecords(DataLines(csvText), now, currentYear, fields), HasTokenAndName)
  {
    var lines := DataLines(csvText);
    var records := LineRecords(lines, now, currentYear, fields);
    KeptRecords(records, HasTokenAndName);
    Filter(records, HasTokenAndName)
  }

  /** A record is kept exactly when it stands at some position of the
      unfiltered list and passes the test. */
  lemma KeptRecords(records: seq<Participant>, keep: Participant -> bool)
    ensures forall p :: p in Filter(records, keep) ==> exists k :: 0 <= k < |records| && records[k] == p
    ensures forall k :: 0 <= k < |records| && keep(records[k]) ==> records[k] in Filter(records, keep)
  {
  }

  /** One record per data line, with the line's position in its id. */
  function LineRecords(lines: seq<string>, now: nat, currentYear: string, fields: string -> seq<string>): (records: seq<Participant>)
    ensures |records| == |lines|
    ensures forall k :: 0 <= k < |lines| ==> records[k] == RecordOf(fields(lines[k]), k, now, currentYear)
  {
    seq(|lines|, k requires 0 <= k < |lines| => RecordOf(fields(lines[k]), k, now, currentYear))
  }

  /** `parseCSV`: the first line is skipped, blank lines are skipped, every
      other line becomes a record with the id of its position among the
      non-blank data lines, and records without token or name are dropped. */
  function ParseCsv(csvText: string, now: nat, currentYear: string): (r: seq<Participant>)
    ensures forall i :: 0 <= i < |r| ==> HasTokenAndName(r[i])
    ensures forall p :: p in r ==>
              exists k :: 0 <= k < |DataLines(csvText)| &&
                          p == RecordOf(CommaFields(DataLines(csvText)[k]), k, now, currentYear)
    ensures forall k :: 0 <= k < |DataLines(csvText)| &&
                        HasTokenAndName(RecordOf(CommaFields(DataLines(csvText)[k]), k, now, currentYear)) ==>
              RecordOf(CommaFields(DataLines(csvText)[k]), k, now, currentYear) in r
    ensures r == Filter(LineRecords(DataLines(csvText), now, currentYear, CommaFields), HasTokenAndName)
  {
    ParseWith(csvText, now, currentYear, CommaFields)
  }

  /** Whatever the first line says, it does not change what is imported. */
  lemma ParseIgnoresHeaderLine(header1: string, header2: string, body: string, now: nat, currentYear: string)
    requires '\n' !in header1 && '\n' !in header2
    ensures ParseCsv(header1 + "\n" + body, now, currentYear) == ParseCsv(header2 + "\n" + body, now, currentYear)
  {
    HeaderLineDropped(header1, body);
    HeaderLineDropped(header2, body);
  }

  /** The lines after a first line without a line break are the body's lines. */
  lemma HeaderLineDropped(header: string, body: string)
    requires '\n' !in header
    ensures Split(header + "\n" + body, '\n')[1..] == Split(body, '\n')
  {
    SplitPrefix(header, "\n" + body, '\n');
    assert header + "\n" + body == header + ("\n" + body);
    assert ("\n" + body)[0] == '\n' && ("\n" + body)[1..] == body;
  }

  /** How a participant appears to the exporter: an object with its five
      properties. */
  function ParticipantObject(p: Participant): Value
  {
    Obj(map["id" := Str(p.id), "tokenNo" := Str(p.tokenNo), "name" := Str(p.name),
            "phone" := Str(p.phone), "year" := Str(p.year)])
  }

  function ParticipantObjects(ps: seq<Participant>): (data: seq<Value>)
    ensures |data| == |ps| && forall i :: 0 <= i < |ps| ==> data[i] == ParticipantObject(ps[i])
  {
    seq(|ps|, i requires 0 <= i < |ps| => ParticipantObject(ps[i]))
  }

  /** The columns of the participant export. */
  const ParticipantHeaders: seq<string> := ["tokenNo", "name", "phone", "year"]

  /** The header line of the participant export. */
  lemma ParticipantHeaderLine()
    ensures Join(ParticipantHeaders, ",") == "tokenNo,name,phone,year"
  {
    assert ParticipantHeaders[1..] == ["name", "phone", "year"];
    assert ParticipantHeaders[2..] == ["phone", "year"];
    assert ParticipantHeaders[3..] == ["year"];
  }

  /** The participant export. */
  function ExportParticipants(ps: seq<Participant>): string
  {
    ExportToCsv(ParticipantObjects(ps), ParticipantHeaders)
  }

  /** The value exported under the j-th participant header is the j-th field. */
  lemma ParticipantValue(p: Participant, j: nat)
    requires j < 4
    ensures Stringify(GetNestedValue(ParticipantObject(p), ParticipantHeaders[j])) ==
              [p.tokenNo, p.name, p.phone, p.year][j]
  {
    var obj := ParticipantObject(p);
    var header := ParticipantHeaders[j];
    var field := [p.tokenNo, p.name, p.phone, p.year][j];
    assert '.' !in header && header in obj.fields && obj.fields[header] == Str(field) by {
      if j == 0 { assert header == "tokenNo"; } else if j == 1 { assert header == "name"; }
      else if j == 2 { assert header == "phone"; } else { assert header == "year"; }
    }
    ValueUnder(obj, header, Str(field));
  }

  /** The j-th cell of a participant's export line quotes its j-th field. */
  lemma ParticipantCell(p: Participant, j: nat)
    requires j < 4
    ensures Cells(ParticipantObject(p), ParticipantHeaders)[j] == QuoteCell([p.tokenNo, p.name, p.phone, p.year][j])
  {
    ParticipantValue(p, j);
  }

  /** Participants without line breaks export values without line breaks. */
  lemma ParticipantsSingleLine(ps: seq<Participant>)
    requires forall i :: 0 <= i < |ps| ==>
               '\n' !in ps[i].tokenNo && '\n' !in ps[i].name && '\n' !in ps[i].phone && '\n' !in ps[i].year
    ensures SingleLineValues(ParticipantObjects(ps), ParticipantHeaders)
  {
    var data := ParticipantObjects(ps);
    forall i, j | 0 <= i < |data| && 0 <= j < |ParticipantHeaders|
      ensures '\n' !in Stringify(GetNestedValue(data[i], ParticipantHeaders[j]))
    {
      ParticipantValue(ps[i], j);
      var field := [ps[i].tokenNo, ps[i].name, ps[i].phone, ps[i].year][j];
      assert '\n' !in field;
    }
  }

  /** The four quoted cells of a participant's export line. */
  lemma ParticipantCells(p: Participant)
    ensures Cells(ParticipantObject(p), ParticipantHeaders) ==
              [QuoteCell(p.tokenNo), QuoteCell(p.name), QuoteCell(p.phone), QuoteCell(p.year)]
  {
    var cells := Cells(ParticipantObject(p), ParticipantHeaders);
    var quoted := [QuoteCell(p.tokenNo), QuoteCell(p.name), QuoteCell(p.phone), QuoteCell(p.year)];
    assert |cells| == |quoted|;
    forall j | 0 <= j < |cells| ensures cells[j] == quoted[j] {
      ParticipantCell(p, j);
    }
  }

  /** A participant's cells are the quoted cells of its four fields. */
  lemma ParticipantQuoteCells(p: Participant)
    ensures Cells(ParticipantObject(p), ParticipantHeaders) == QuoteCells([p.tokenNo, p.name, p.phone, p.year])
  {
    var cells := Cells(ParticipantObject(p), ParticipantHeaders);
    var q := QuoteCells([p.tokenNo, p.name, p.phone, p.year]);
    forall j | 0 <= j < 4 ensures cells[j] == q[j] {
      ParticipantCell(p, j);
    }
  }

  /** The export line of a participant, when its fields hold no line break,
      is a single non-blank line. */
  lemma ParticipantLine(p: Participant)
    requires '\n' !in p.tokenNo && '\n' !in p.name && '\n' !in p.phone && '\n' !in p.year
    ensures var line := Join(Cells(ParticipantObject(p), ParticipantHeaders), ",");
            '\n' !in line && NonBlank(line)
  {
    ParticipantCells(p);
    QuotedLine([p.tokenNo, p.name, p.phone, p.year]);
  }

  /** Quoted values without line breaks, joined by commas, make a single
      non-blank line. */
  lemma QuotedLine(values: seq<string>)
    requires |values| == 4
    requires forall j :: 0 <= j < 4 ==> '\n' !in values[j]
    ensures var line := Join([QuoteCell(values[0]), QuoteCell(values[1]), QuoteCell(values[2]), QuoteCell(values[3])], ",");
            '\n' !in line && NonBlank(line)
  {
    var quoted := [QuoteCell(values[0]), QuoteCell(values[1]), QuoteCell(values[2]), QuoteCell(values[3])];
    JoinExcludes(quoted, ",", '\n');
    JoinHead(quoted, ",");
    NotBlank(Join(quoted, ","));
  }

  /** The shared part of both round trips: when `fields` reads each
      participant's export line back as its four fields, importing the export
      gives the participants back in order, each with the id of its position. */
  lemma ParseWithRoundTrip(ps: seq<Participant>, now: nat, currentYear: string, fields: string -> seq<string>)
    requires forall i :: 0 <= i < |ps| ==>
               '\n' !in ps[i].tokenNo && '\n' !in ps[i].name && '\n' !in ps[i].phone && '\n' !in ps[i].year
    requires forall i :: 0 <= i < |ps| ==> ps[i].tokenNo != "" && ps[i].name != "" && ps[i].year != ""
    requires forall i :: 0 <= i < |ps| ==>
               fields(Join(Cells(ParticipantObject(ps[i]), ParticipantHeaders), ",")) ==
               [ps[i].tokenNo, ps[i].name, ps[i].phone, ps[i].year]
    ensures var r := ParseWith(ExportParticipants(ps), now, currentYear, fields);
            |r| == |ps| && forall i :: 0 <= i < |ps| ==> r[i] == ps[i].(id := ImportedId(now, i))
  {
    var lines := DataLines(ExportParticipants(ps));
    ExportedDataLines(ps);
    var records := LineRecords(lines, now, currentYear, fields);
    forall k | 0 <= k < |lines| ensures HasTokenAndName(records[k]) && records[k] == ps[k].(id := ImportedId(now, k)) {
    }
    FilterKeepsAll(records, HasTokenAndName);
  }

  /** A participant export without line breaks in its fields has the header
      line and then one line per participant, in order. */
  lemma ParticipantExportLines(ps: seq<Participant>)
    requires forall i :: 0 <= i < |ps| ==>
               '\n' !in ps[i].tokenNo && '\n' !in ps[i].name && '\n' !in ps[i].phone && '\n' !in ps[i].year
    ensures var lines := Split(ExportParticipants(ps), '\n');
            |lines| == 1 + |ps| && lines[0] == Join(ParticipantHeaders, ",") &&
            forall k :: 0 < k < |lines| ==> lines[k] == Join(Cells(ParticipantObject(ps[k - 1]), ParticipantHeaders), ",")
  {
    ParticipantsSingleLine(ps);
    ExportLineStructure(ParticipantObjects(ps), ParticipantHeaders);
    var lines := Split(ExportParticipants(ps), '\n');
    forall k | 0 < k < |lines|
      ensures lines[k] == Join(Cells(ParticipantObject(ps[k - 1]), ParticipantHeaders), ",")
    {
      var i := k - 1;
      assert lines[i + 1] == Join(Cells(ParticipantObjects(ps)[i], ParticipantHeaders), ",");
    }
  }

  /** The data lines of a participant export without line breaks in its
      fields are the participants' export lines, one per participant. */
  lemma ExportedDataLines(ps: seq<Participant>)
    requires forall i :: 0 <= i < |ps| ==>
               '\n' !in ps[i].tokenNo && '\n' !in ps[i].name && '\n' !in ps[i].phone && '\n' !in ps[i].year
    ensures var lines := DataLines(ExportParticipants(ps));
            |lines| == |ps| &&
            forall k :: 0 <= k < |ps| ==> lines[k] == Join(Cells(ParticipantObject(ps[k]), ParticipantHeaders), ",")
  {
    var data := ParticipantObjects(ps);
    ParticipantsSingleLine(ps);
    ExportLineStructure(data, ParticipantHeaders);
    var text := ExportParticipants(ps);
    var rows := Split(text, '\n')[1..];
    assert |rows| == |ps|;
    forall i | 0 <= i < |ps| ensures NonBlank(rows[i]) && rows[i] == Join(Cells(ParticipantObject(ps[i]), ParticipantHeaders), ",") {
      ParticipantLine(ps[i]);
      assert rows[i] == Split(text, '\n')[i + 1];
    }
    FilterKeepsAll(rows, NonBlank);
  }

  /** A field that `parseCSV` reads back unchanged: no comma, quote or line break. */
  predicate PlainField(s: string)
  {
    ',' !in s && '"' !in s && '\n' !in s
  }

  /** A quoted text without quotes is neither trimmed nor left with a quote. */
  lemma CleanQuoted(v: string)
    requires '"' !in v
    ensures CleanField("\"" + v + "\"") == v
  {
    var cell := "\"" + v + "\"";
    assert Trim(cell) == cell by { TrimProperties(cell); }
    assert RemoveChar(cell, '"') == v by {
      RemoveCharAppend("\"" + v, "\"", '"');
      RemoveCharAppend("\"", v, '"');
    }
  }

  /** Stripping the quotes of a quoted field without quotes gives the field back. */
  lemma CleanQuotedPlain(v: string)
    requires '"' !in v
    ensures CleanField(QuoteCell(v)) == v
  {
    assert QuoteCell(v) == "\"" + v + "\"";
    CleanQuoted(v);
  }

  /** `parseCSV` splits the export line of a participant with plain fields
      back into its four fields. */
  lemma CommaFieldsOfPlainLine(p: Participant)
    requires PlainField(p.tokenNo) && PlainField(p.name) && PlainField(p.phone) && PlainField(p.year)
    ensures CommaFields(Join(Cells(ParticipantObject(p), ParticipantHeaders), ",")) ==
            [p.tokenNo, p.name, p.phone, p.year]
  {
    var fields := [p.tokenNo, p.name, p.phone, p.year];
    ParticipantQuoteCells(p);
    forall j | 0 <= j < |fields| ensures PlainField(fields[j]) { }
    CommaFieldsOfPlainCells(fields);
  }

  /** The comma splitter reads plain fields, quoted and joined by commas,
      back as the fields. */
  lemma CommaFieldsOfPlainCells(fields: seq<string>)
    requires |fields| >= 1 && forall j :: 0 <= j < |fields| ==> PlainField(fields[j])
    ensures CommaFields(Join(QuoteCells(fields), ",")) == fields
  {
    var cells := QuoteCells(fields);
    forall j | 0 <= j < |cells| ensures ',' !in cells[j] {
      assert ',' !in fields[j];
    }
    SplitJoin(cells, ',');
    var values := CommaFields(Join(cells, ","));
    forall j | 0 <= j < |fields| ensures values[j] == fields[j] {
      CleanQuotedPlain(fields[j]);
    }
  }

  /** Round trip of the code as written: participants whose four fields hold
      no comma, quote or line break, and whose token, name and year are not
      empty, come back from `parseCSV` of their export with the same fields,
      in the same order. Surrounding spaces survive, because each cell is
      trimmed while it is still quoted. */
  lemma ExportParseRoundTrip(ps: seq<Participant>, now: nat, currentYear: string)
    requires forall i :: 0 <= i < |ps| ==>
               PlainField(ps[i].tokenNo) && PlainField(ps[i].name) && PlainField(ps[i].phone) && PlainField(ps[i].year)
    requires forall i :: 0 <= i < |ps| ==> ps[i].tokenNo != "" && ps[i].name != "" && ps[i].year != ""
    ensures var r := ParseCsv(ExportParticipants(ps), now, currentYear);
            |r| == |ps| && forall i :: 0 <= i < |ps| ==> r[i] == ps[i].(id := ImportedId(now, i))
  {
    forall i | 0 <= i < |ps|
      ensures CommaFields(Join(Cells(ParticipantObject(ps[i]), ParticipantHeaders), ",")) ==
              [ps[i].tokenNo, ps[i].name, ps[i].phone, ps[i].year]
    {
      CommaFieldsOfPlainLine(ps[i]);
    }
    ParseWithRoundTrip(ps, now, currentYear, CommaFields);
  }

  /** Every token, name and phone `parseCSV` returns is free of commas and
      quotes: lines are cut at every comma and every quote is removed. */
  lemma ImportedFieldsPlain(csvText: string, now: nat, currentYear: string, p: Participant)
    requires p in ParseCsv(csvText, now, currentYear)
    ensures ',' !in p.tokenNo && ',' !in p.name && ',' !in p.phone
    ensures '"' !in p.tokenNo && '"' !in p.name && '"' !in p.phone
  {
    var lines := DataLines(csvText);
    var k :| 0 <= k < |lines| && p == RecordOf(CommaFields(lines[k]), k, now, currentYear);
    CleanRecordFields(CommaFields(lines[k]), k, now, currentYear);
  }

  /** A record built from comma- and quote-free values has comma- and
      quote-free token, name and phone. */
  lemma CleanRecordFields(values: seq<string>, k: nat, now: nat, currentYear: string)
    requires forall i :: 0 <= i < |values| ==> '"' !in values[i] && ',' !in values[i]
    ensures var p := RecordOf(values, k, now, currentYear);
            ',' !in p.tokenNo && ',' !in p.name && ',' !in p.phone &&
            '"' !in p.tokenNo && '"' !in p.name && '"' !in p.phone
  {
  }

  /** As written, a participant whose name holds a comma is lost by the
      export/import round trip: no imported record carries that name. */
  lemma CommaInNameLost(ps: seq<Participant>, i: nat, now: nat, currentYear: string)
    requires i < |ps| && ',' in ps[i].name
    ensures forall r :: r in ParseCsv(ExportParticipants(ps), now, currentYear) ==> r.name != ps[i].name
  {
    forall r | r in ParseCsv(ExportParticipants(ps), now, currentYear) ensures r.name != ps[i].name {
      ImportedFieldsPlain(ExportParticipants(ps), now, currentYear, r);
    }
  }

  /** The participant "Doe, Jane" with token T1, phone 555 and year 2024 does
      not come back from importing its own export. */
  lemma CommaInNameExample(p: Participant, now: nat, currentYear: string)
    requires p == Participant("p1", "T1", "Doe, Jane", "555", "2024")
    ensures ParseCsv(ExportParticipants([p]), now, currentYear) != [p.(id := ImportedId(now, 0))]
  {
    assert p.name[3] == ',';
    CommaInNameLost([p], 0, now, currentYear);
  }

  /** A hand-written line of four comma-free pieces, such as `T1, Ann ,555,`,
      reads as its four pieces, each trimmed and stripped of quotes. */
  lemma FourPieceLine(a: string, b: string, c: string, d: string)
    requires ',' !in a && ',' !in b && ',' !in c && ',' !in d
    ensures var v := CommaFields(a + "," + b + "," + c + "," + d);
            |v| == 4 && v[0] == CleanField(a) && v[1] == CleanField(b) && v[2] == CleanField(c) && v[3] == CleanField(d)
  {
    var t2 := c + ([','] + d);
    var t1 := b + ([','] + t2);
    var t0 := a + ([','] + t1);
    assert a + "," + b + "," + c + "," + d == t0;
    SplitWithoutSeparator(d, ',');
    SplitPieceThen(c, d, ',');
    SplitPieceThen(b, t2, ',');
    SplitPieceThen(a, t1, ',');
    var pieces := Split(t0, ',');
    assert pieces == [a, b, c, d];
  }

  /** Reading a quoted field after its opening quote: a doubled quote stands
      for one quote and a lone quote closes the field. Gives the field's text
      and what follows the closing quote; a field left open runs to the end. */
  function ReadQuoted(s: string): (r: (string, string))
    ensures |r.1| <= |s| && r.1 == s[|s| - |r.1|..]
    ensures s != [] ==> |r.1| < |s|
    decreases |s|
  {
    if s == [] then ("", "")
    else if s[0] == '"' then
      if |s| >= 2 && s[1] == '"' then
        var t := ReadQuoted(s[2..]);
        ("\"" + t.0, t.1)
      else ("", s[1..])
    else
      var t := ReadQuoted(s[1..]);
      ([s[0]] + t.0, t.1)
  }

  /** What follows the first comma of `s`, if it has one. */
  function AfterComma(s: string): (r: Option<string>)
    ensures r.Some? <==> ',' in s
    ensures r.Some? ==> |r.value| < |s| && r.value == s[|s| - |r.value|..]
  {
    if s == [] then None
    else if s[0] == ',' then Some(s[1..])
    else AfterComma(s[1..])
  }

  /** The fields of one line read with quoting, as the export writes them: a
      field that starts with a quote runs to its closing quote (anything
      between that quote and the next comma is dropped); any other field
      runs to the next comma and is trimmed. */
  function QuotedFields(line: string): (values: seq<string>)
    ensures |values| >= 1
    decreases |line|
  {
    var field := LeadingField(line);
    match AfterComma(field.1)
    case None => [field.0]
    case Some(next) => [field.0] + QuotedFields(next)
  }

  /** The first field of a line, read with quoting, and what follows it. */
  function LeadingField(line: string): (field: (string, string))
    ensures |field.1| <= |line|
  {
    if line != [] && line[0] == '"' then ReadQuoted(line[1..])
    else (Trim(Split(line, ',')[0]), line)
  }

  /** Reading back an escaped text followed by its closing quote gives the
      text and what follows. */
  lemma {:induction false} ReadQuotedEscaped(v: string, tail: string)
    requires tail == [] || tail[0] != '"'
    ensures ReadQuoted(EscapeQuotes(v) + "\"" + tail) == (v, tail)
    decreases |v|
  {
    var s := EscapeQuotes(v) + "\"" + tail;
    if v == [] {
      assert s == "\"" + tail;
      assert s[1..] == tail;
    } else {
      var inner := EscapeQuotes(v[1..]) + "\"" + tail;
      EscapedCons(v, tail);
      ReadQuotedEscaped(v[1..], tail);
      if v[0] == '"' {
        assert s[0] == '"' && s[1] == '"' && s[2..] == inner;
        assert v == "\"" + v[1..];
      } else {
        assert s[0] == v[0] && s[1..] == inner;
        assert v == [v[0]] + v[1..];
      }
    }
  }

  /** The escaped text of a non-empty text, followed by the closing quote
      and a tail, starts with the escape of its first character. */
  lemma EscapedCons(v: string, tail: string)
    requires v != []
    ensures EscapeQuotes(v) + "\"" + tail ==
              (if v[0] == '"' then "\"\"" else [v[0]]) + (EscapeQuotes(v[1..]) + "\"" + tail)
  {
    var head := if v[0] == '"' then "\"\"" else [v[0]];
    var rest := EscapeQuotes(v[1..]);
    assert EscapeQuotes(v) == head + rest;
    AppendAssociative(head, rest, "\"");
    AppendAssociative(head, rest + "\"", tail);
  }

  /** The quoted cells of some fields. */
  function QuoteCells(fields: seq<string>): (cells: seq<string>)
    ensures |cells| == |fields|
    ensures forall i :: 0 <= i < |fields| ==> cells[i] == QuoteCell(fields[i])
  {
    seq(|fields|, i requires 0 <= i < |fields| => QuoteCell(fields[i]))
  }

  /** A quoted cell at the start of a line is read as its text, and the
      rest of the line follows it. */
  lemma LeadingFieldOfCell(f: string, tail: string)
    requires tail == [] || tail[0] != '"'
    ensures LeadingField(QuoteCell(f) + tail) == (f, tail)
  {
    var line := QuoteCell(f) + tail;
    assert line == "\"" + (EscapeQuotes(f) + "\"" + tail);
    ReadQuotedEscaped(f, tail);
  }

  /** A quoted cell alone on a line reads back as its text. */
  lemma QuotedFieldsOfCell(f: string)
    ensures QuotedFields(QuoteCell(f)) == [f]
  {
    assert QuoteCell(f) + "" == QuoteCell(f);
    LeadingFieldOfCell(f, "");
  }

  /** A quoted cell followed by a comma reads back as its text, then the
      fields of the rest of the line. */
  lemma QuotedFieldsOfCellThen(f: string, rest: string)
    ensures QuotedFields(QuoteCell(f) + "," + rest) == [f] + QuotedFields(rest)
  {
    assert QuoteCell(f) + "," + rest == QuoteCell(f) + ("," + rest);
    LeadingFieldOfCell(f, "," + rest);
    assert AfterComma("," + rest) == Some(rest);
  }

  /** Reading with quoting undoes joining quoted cells with commas, whatever
      the fields hold. */
  lemma {:induction false} QuotedFieldsOfJoin(fields: seq<string>)
    requires |fields| >= 1
    ensures QuotedFields(Join(QuoteCells(fields), ",")) == fields
    decreases |fields|
  {
    var cells := QuoteCells(fields);
    if |fields| == 1 {
      assert Join(cells, ",") == QuoteCell(fields[0]) by { assert cells[0] == QuoteCell(fields[0]); }
      QuotedFieldsOfCell(fields[0]);
    } else {
      var rest := Join(cells[1..], ",");
      assert Join(cells, ",") == QuoteCell(fields[0]) + "," + rest by { assert cells[0] == QuoteCell(fields[0]); }
      assert rest == Join(QuoteCells(fields[1..]), ",") by { assert cells[1..] == QuoteCells(fields[1..]); }
      QuotedFieldsOfCellThen(fields[0], rest);
      QuotedFieldsOfJoin(fields[1..]);
      assert fields == [fields[0]] + fields[1..];
    }
  }

  /** `parseCSV` reading each line with quoting. */
  function ParseCsvQuoted(csvText: string, now: nat, currentYear: string): (r: seq<Participant>)
    ensures forall i :: 0 <= i < |r| ==> HasTokenAndName(r[i])
    ensures forall p :: p in r ==>
              exists k :: 0 <= k < |DataLines(csvText)| &&
                          p == RecordOf(QuotedFields(DataLines(csvText)[k]), k, now, currentYear)
    ensures forall k :: 0 <= k < |DataLines(csvText)| &&
                        HasTokenAndName(RecordOf(QuotedFields(DataLines(csvText)[k]), k, now, currentYear)) ==>
              RecordOf(QuotedFields(DataLines(csvText)[k]), k, now, currentYear) in r
    ensures r == Filter(LineRecords(DataLines(csvText), now, currentYear, QuotedFields), HasTokenAndName)
  {
    ParseWith(csvText, now, currentYear, QuotedFields)
  }

  /** Reading a participant's export line with quoting gives its four fields. */
  lemma QuotedFieldsOfParticipantLine(p: Participant)
    ensures QuotedFields(Join(Cells(ParticipantObject(p), ParticipantHeaders), ",")) ==
            [p.tokenNo, p.name, p.phone, p.year]
  {
    ParticipantQuoteCells(p);
    QuotedFieldsOfJoin([p.tokenNo, p.name, p.phone, p.year]);
  }

  /** Round trip of the import reading with quoting: any participants whose
      fields hold no line break, and whose token, name and year are not
      empty, come back from the import of their export with the same fields,
      commas and quotes included, in the same order. */
  lemma QuotedExportParseRoundTrip(ps: seq<Participant>, now: nat, currentYear: string)
    requires forall i :: 0 <= i < |ps| ==>
               '\n' !in ps[i].tokenNo && '\n' !in ps[i].name && '\n' !in ps[i].phone && '\n' !in ps[i].year
    requires forall i :: 0 <= i < |ps| ==> ps[i].tokenNo != "" && ps[i].name != "" && ps[i].year != ""
    ensures var r := ParseCsvQuoted(ExportParticipants(ps), now, currentYear);
            |r| == |ps| && forall i :: 0 <= i < |ps| ==> r[i] == ps[i].(id := ImportedId(now, i))
  {
    forall i | 0 <= i < |ps|
      ensures QuotedFields(Join(Cells(ParticipantObject(ps[i]), ParticipantHeaders), ",")) ==
              [ps[i].tokenNo, ps[i].name, ps[i].phone, ps[i].year]
    {
      QuotedFieldsOfParticipantLine(ps[i]);
    }
    ParseWithRoundTrip(ps, now, currentYear, QuotedFields);
  }
}
