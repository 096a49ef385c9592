/** The winners screen: the year filter, the per-rank groups and their
    counts, the export rows and the rank colours. */
module WinnerView {
  import opened Wrappers
  import opened Seqs
  import opened Text
  import opened Types
  import opened Csv

  /** `filteredWinners`: the records of the selected year, in list order. */
  function FilteredWinners(ws: seq<Winner>, year: string): (r: seq<Winner>)
    ensures IsSubsequence(r, ws)
    ensures forall w :: w in r <==> w in ws && w.year == year
  {
    Filter(ws, (w: Winner) => w.year == year)
  }

  /** The labels shown on the screen, one per rank, in display order. */
  function RankLabels(): seq<string>
  {
    ["1st Prize", "2nd Prize", "3rd Prize", "Consolation Prize", "Special Prize"]
  }

  /** No label occurs twice. */
  predicate Distinct(labels: seq<string>)
  {
    forall i, j :: 0 <= i < j < |labels| ==> labels[i] != labels[j]
  }

  /** The record field a view groups by. */
  function PrizeOf(w: Winner): Option<string>
  {
    w.prize
  }

  function RankOf(w: Winner): Option<string>
  {
    Some(w.rank)
  }

  /** The record's field equals `tag` (an absent field equals no tag). */
  function Keyed(key: Winner -> Option<string>, tag: string): (keep: Winner -> bool)
  {
    (w: Winner) => key(w) == Some(tag)
  }

  /** The record's field is one of `labels`. */
  function Labelled(key: Winner -> Option<string>, labels: seq<string>): (keep: Winner -> bool)
  {
    (w: Winner) => key(w).Some? && key(w).value in labels
  }

  /** The records whose field equals `tag`, in list order. */
  function Group(ws: seq<Winner>, key: Winner -> Option<string>, tag: string): (r: seq<Winner>)
    ensures IsSubsequence(r, ws)
    ensures forall w :: w in r <==> w in ws && key(w) == Some(tag)
  {
    Filter(ws, Keyed(key, tag))
  }

  /** `getWinnersByRank` as written: it compares the `prize` field. */
  function WinnersByPrize(filtered: seq<Winner>, rank: string): (r: seq<Winner>)
    ensures IsSubsequence(r, filtered)
    ensures forall w :: w in r <==> w in filtered && w.prize == Some(rank)
  {
    Group(filtered, PrizeOf, rank)
  }

  /** The grouping the screen intends: by the `rank` field the draw writes. */
  function WinnersByRank(filtered: seq<Winner>, rank: string): (r: seq<Winner>)
    ensures IsSubsequence(r, filtered)
    ensures forall w :: w in r <==> w in filtered && w.rank == rank
  {
    Group(filtered, RankOf, rank)
  }

  /** As written, records without a `prize` field, which is every record the
      draw creates, fall in no group: every rank shows an empty group and
      the five counts add up to zero. */
  lemma NoPrizeEmptyGroups(filtered: seq<Winner>, rank: string)
    requires forall i :: 0 <= i < |filtered| ==> filtered[i].prize.None?
    ensures WinnersByPrize(filtered, rank) == []
    ensures SumSizes(filtered, PrizeOf, RankLabels()) == 0
  {
    var group := WinnersByPrize(filtered, rank);
    if group != [] {
      assert group[0] in filtered;
    }
    assert SumSizes(filtered, PrizeOf, RankLabels()) == 0 by {
      RankLabelsDistinct();
      SumSizesCountsLabelled(filtered, PrizeOf, RankLabels());
      NoneLabelled(filtered, PrizeOf, RankLabels());
    }
  }

  /** Records without the field are in no group. */
  lemma NoneLabelled(ws: seq<Winner>, key: Winner -> Option<string>, labels: seq<string>)
    requires forall i :: 0 <= i < |ws| ==> key(ws[i]).None?
    ensures Filter(ws, Labelled(key, labels)) == []
  {
  }

  /** The sum of the group sizes over some labels. */
  function SumSizes(ws: seq<Winner>, key: Winner -> Option<string>, labels: seq<string>): nat
  {
    if labels == [] then 0 else |Group(ws, key, labels[0])| + SumSizes(ws, key, labels[1..])
  }

  /** How many of the labels a record's field equals. */
  function Hits(w: Winner, key: Winner -> Option<string>, labels: seq<string>): nat
  {
    if labels == [] then 0 else (if key(w) == Some(labels[0]) then 1 else 0) + Hits(w, key, labels[1..])
  }

  /** With distinct labels a record is counted once if its field is among
      them, and not at all otherwise. */
  lemma {:induction false} HitsOnce(w: Winner, key: Winner -> Option<string>, labels: seq<string>)
    requires Distinct(labels)
    ensures Hits(w, key, labels) == if Labelled(key, labels)(w) then 1 else 0
  {
    if labels != [] {
      HitsOnce(w, key, labels[1..]);
      assert labels == [labels[0]] + labels[1..];
      if key(w) == Some(labels[0]) {
        assert labels[0] !in labels[1..] by {
          forall k | 0 <= k < |labels[1..]| ensures labels[1..][k] != labels[0] {
            assert labels[1..][k] == labels[k + 1];
          }
        }
      }
    }
  }

  /** Peeling the first record off every group. */
  lemma {:induction false} SumSizesStep(ws: seq<Winner>, key: Winner -> Option<string>, labels: seq<string>)
    requires ws != []
    ensures SumSizes(ws, key, labels) == Hits(ws[0], key, labels) + SumSizes(ws[1..], key, labels)
  {
    if labels != [] {
      SumSizesStep(ws, key, labels[1..]);
    }
  }

  /** The groups of distinct labels are disjoint: together they hold exactly
      the records whose field is one of the labels. */
  lemma {:induction false} SumSizesCountsLabelled(ws: seq<Winner>, key: Winner -> Option<string>, labels: seq<string>)
    requires Distinct(labels)
    ensures SumSizes(ws, key, labels) == |Filter(ws, Labelled(key, labels))|
  {
    if ws != [] {
      SumSizesStep(ws, key, labels);
      HitsOnce(ws[0], key, labels);
      SumSizesCountsLabelled(ws[1..], key, labels);
    } else {
      SumSizesOfEmpty(key, labels);
    }
  }

  /** Over no records every group is empty. */
  lemma {:induction false} SumSizesOfEmpty(key: Winner -> Option<string>, labels: seq<string>)
    ensures SumSizes([], key, labels) == 0
  {
    if labels != [] {
      SumSizesOfEmpty(key, labels[1..]);
    }
  }

  lemma RankLabelsDistinct()
    ensures Distinct(RankLabels())
  {
  }

  /** The five counts on the screen, as written, add up to at most the
      number of records of the year. */
  lemma PrizeCountsBounded(filtered: seq<Winner>)
    ensures SumSizes(filtered, PrizeOf, RankLabels()) <= |filtered|
  {
    RankLabelsDistinct();
    SumSizesCountsLabelled(filtered, PrizeOf, RankLabels());
  }

  /** Grouped by rank, the five counts add up to the number of records of the
      year whenever every rank is one of the five labels, which the draw
      guarantees. */
  lemma RankCountsComplete(filtered: seq<Winner>)
    requires forall i :: 0 <= i < |filtered| ==> filtered[i].rank in RankLabels()
    ensures SumSizes(filtered, RankOf, RankLabels()) == |filtered|
  {
    RankLabelsDistinct();
    RankCountsCompleteFor(filtered, RankLabels());
  }

  /** Grouped by rank over distinct labels that include every record's
      rank, the groups together hold every record once. */
  lemma RankCountsCompleteFor(ws: seq<Winner>, labels: seq<string>)
    requires Distinct(labels)
    requires forall i :: 0 <= i < |ws| ==> ws[i].rank in labels
    ensures SumSizes(ws, RankOf, labels) == |ws|
  {
    forall i | 0 <= i < |ws| ensures Labelled(RankOf, labels)(ws[i]) {
      assert RankOf(ws[i]) == Some(ws[i].rank);
    }
    FilterKeepsAll(ws, Labelled(RankOf, labels));
    SumSizesCountsLabelled(ws, RankOf, labels);
  }

  /** The columns of the winner export. */
  const WinnerHeaders: seq<string> := ["tokenNo", "name", "phone", "rank", "year", "assignedAt"]

  /** The export object of a record, with the rank column read through
      `key`. As written (`src/components/WinnerManagement.tsx`) the key is
      `PrizeOf`, so the column is `undefined` when that field is absent; the
      intended key is `RankOf`. The time is formatted by the browser's locale,
      a parameter here. */
  function ExportRow(w: Winner, formatTime: string -> string, key: Winner -> Option<string>): (row: Value)
    ensures row.Obj? && forall j :: 0 <= j < |WinnerHeaders| ==> WinnerHeaders[j] in row.fields
    ensures "rank" in row.fields && (row.fields["rank"] == Undefined <==> key(w).None?)
  {
    Obj(map["tokenNo" := Str(w.participant.tokenNo), "name" := Str(w.participant.name),
            "phone" := Str(w.participant.phone),
            "rank" := ColumnValue(key(w)),
            "year" := Str(w.year), "assignedAt" := Str(formatTime(w.assignedAt))])
  }

  /** The value a field that may be absent puts in an export object. */
  function ColumnValue(v: Option<string>): Value
  {
    match v
    case Some(x) => Str(x)
    case None => Undefined
  }

  /** The text of a field that may be absent: an absent field is empty. */
  function FieldText(v: Option<string>): string
  {
    match v
    case Some(x) => x
    case None => ""
  }

  /** A column value is exported as the field's text. */
  lemma ColumnText(v: Option<string>)
    ensures Stringify(if Falsy(ColumnValue(v)) then Str("") else ColumnValue(v)) == FieldText(v)
  {
  }

  /** The six fields of a winner's export line: the snapshot's token, name
      and phone, the rank column's text, the year and the formatted time. */
  function ExportedFields(w: Winner, formatTime: string -> string, key: Winner -> Option<string>): seq<string>
  {
    [w.participant.tokenNo, w.participant.name, w.participant.phone, FieldText(key(w)), w.year, formatTime(w.assignedAt)]
  }

  /** The value exported under the j-th header is the j-th field. */
  lemma ExportedValue(w: Winner, formatTime: string -> string, key: Winner -> Option<string>, j: nat)
    requires j < 6
    ensures Stringify(GetNestedValue(ExportRow(w, formatTime, key), WinnerHeaders[j])) ==
              ExportedFields(w, formatTime, key)[j]
  {
    var row := ExportRow(w, formatTime, key);
    var header := WinnerHeaders[j];
    var v := [Str(w.participant.tokenNo), Str(w.participant.name), Str(w.participant.phone),
              ColumnValue(key(w)), Str(w.year), Str(formatTime(w.assignedAt))][j];
    assert '.' !in header && header in row.fields && row.fields[header] == v &&
           Stringify(if Falsy(v) then Str("") else v) == ExportedFields(w, formatTime, key)[j] by {
      if j == 0 { assert header == "tokenNo"; }
      else if j == 1 { assert header == "name"; }
      else if j == 2 { assert header == "phone"; }
      else if j == 3 { assert header == "rank"; ColumnText(key(w)); }
      else if j == 4 { assert header == "year"; }
      else { assert header == "assignedAt"; }
    }
    ValueUnder(row, header, v);
  }

  /** The j-th cell of a winner's export line quotes the j-th field. */
  lemma ExportedCell(w: Winner, formatTime: string -> string, key: Winner -> Option<string>, j: nat)
    requires j < 6
    ensures Cells(ExportRow(w, formatTime, key), WinnerHeaders)[j] == QuoteCell(ExportedFields(w, formatTime, key)[j])
  {
    ExportedValue(w, formatTime, key, j);
  }

  /** A winner's export cells are its six fields, quoted, in header order. */
  lemma ExportedCells(w: Winner, formatTime: string -> string, key: Winner -> Option<string>)
    ensures Cells(ExportRow(w, formatTime, key), WinnerHeaders) == QuoteCells(ExportedFields(w, formatTime, key))
  {
    var cells := Cells(ExportRow(w, formatTime, key), WinnerHeaders);
    var quoted := QuoteCells(ExportedFields(w, formatTime, key));
    assert |cells| == |quoted|;
    forall j | 0 <= j < |cells| ensures cells[j] == quoted[j] {
      ExportedCell(w, formatTime, key, j);
    }
  }

  /** As written, a record without a `prize` field, which is every record the
      draw creates, is exported with an empty rank cell. */
  lemma ExportedRankEmpty(w: Winner, formatTime: string -> string)
    requires w.prize.None?
    ensures Cells(ExportRow(w, formatTime, PrizeOf), WinnerHeaders)[3] == "\"\""
  {
    ExportedCell(w, formatTime, PrizeOf, 3);
    assert EscapeQuotes("") == "";
  }

  /** As intended, the rank cell quotes the record's rank. */
  lemma ExportedRankIntended(w: Winner, formatTime: string -> string)
    ensures Cells(ExportRow(w, formatTime, RankOf), WinnerHeaders)[3] == QuoteCell(w.rank)
  {
    ExportedCell(w, formatTime, RankOf, 3);
  }

  /** The export objects of some records. */
  function ExportRows(shown: seq<Winner>, formatTime: string -> string, key: Winner -> Option<string>): (rows: seq<Value>)
    ensures |rows| == |shown|
    ensures forall i :: 0 <= i < |shown| ==> rows[i] == ExportRow(shown[i], formatTime, key)
  {
    seq(|shown|, i requires 0 <= i < |shown| => ExportRow(shown[i], formatTime, key))
  }

  /** `handleExport` as written: the records of the year, the rank column
      read from `prize`. */
  function ExportWinners(ws: seq<Winner>, year: string, formatTime: string -> string): (text: string)
    ensures Join(WinnerHeaders, ",") <= text
  {
    ExportToCsv(ExportRows(FilteredWinners(ws, year), formatTime, PrizeOf), WinnerHeaders)
  }

  /** The winner export as intended: the rank column holds `rank`. */
  function ExportWinnersIntended(ws: seq<Winner>, year: string, formatTime: string -> string): (text: string)
    ensures Join(WinnerHeaders, ",") <= text
  {
    ExportToCsv(ExportRows(FilteredWinners(ws, year), formatTime, RankOf), WinnerHeaders)
  }

  /** No line break in any of a record's export fields. */
  predicate SingleLineFields(w: Winner, formatTime: string -> string, key: Winner -> Option<string>)
  {
    forall j :: 0 <= j < 6 ==> '\n' !in ExportedFields(w, formatTime, key)[j]
  }

  /** Records without line breaks export values without line breaks. */
  lemma WinnerRowsSingleLine(shown: seq<Winner>, formatTime: string -> string, key: Winner -> Option<string>)
    requires forall i :: 0 <= i < |shown| ==> SingleLineFields(shown[i], formatTime, key)
    ensures SingleLineValues(ExportRows(shown, formatTime, key), WinnerHeaders)
  {
    var data := ExportRows(shown, formatTime, key);
    forall i, j | 0 <= i < |data| && 0 <= j < |WinnerHeaders|
      ensures '\n' !in Stringify(GetNestedValue(data[i], WinnerHeaders[j]))
    {
      ExportedValue(shown[i], formatTime, key, j);
    }
  }

  /** The export text of some records: the header line, then one line per
      record, in order, holding that record's six fields quoted and
      comma-separated. */
  lemma ExportRowsLines(shown: seq<Winner>, formatTime: string -> string, key: Winner -> Option<string>)
    requires forall i :: 0 <= i < |shown| ==> SingleLineFields(shown[i], formatTime, key)
    ensures var lines := Split(ExportToCsv(ExportRows(shown, formatTime, key), WinnerHeaders), '\n');
            |lines| == 1 + |shown| && lines[0] == Join(WinnerHeaders, ",") &&
            forall k :: 0 < k < |lines| ==>
              lines[k] == Join(QuoteCells(ExportedFields(shown[k - 1], formatTime, key)), ",")
  {
    var data := ExportRows(shown, formatTime, key);
    WinnerRowsSingleLine(shown, formatTime, key);
    ExportLineStructure(data, WinnerHeaders);
    var lines := Split(ExportToCsv(data, WinnerHeaders), '\n');
    forall k | 0 < k < |lines|
      ensures lines[k] == Join(QuoteCells(ExportedFields(shown[k - 1], formatTime, key)), ",")
    {
      RowLine(data, shown, formatTime, key, lines, k - 1);
    }
  }

  /** One data line of the winner export, from the line structure of the
      builder and the cells of the row. */
  lemma RowLine(data: seq<Value>, shown: seq<Winner>, formatTime: string -> string,
                key: Winner -> Option<string>, lines: seq<string>, i: int)
    requires 0 <= i < |shown| == |data| && i + 1 < |lines|
    requires data[i] == ExportRow(shown[i], formatTime, key)
    requires lines[i + 1] == Join(Cells(data[i], WinnerHeaders), ",")
    ensures lines[i + 1] == Join(QuoteCells(ExportedFields(shown[i], formatTime, key)), ",")
  {
    ExportedCells(shown[i], formatTime, key);
  }

  /** The records of the year have export fields without line breaks when
      all records do. */
  lemma ShownSingleLine(ws: seq<Winner>, year: string, formatTime: string -> string, key: Winner -> Option<string>)
    requires forall i :: 0 <= i < |ws| ==> SingleLineFields(ws[i], formatTime, key)
    ensures var shown := FilteredWinners(ws, year);
            forall i :: 0 <= i < |shown| ==> SingleLineFields(shown[i], formatTime, key)
  {
    var shown := FilteredWinners(ws, year);
    forall i | 0 <= i < |shown| ensures SingleLineFields(shown[i], formatTime, key) {
      assert shown[i] in ws;
    }
  }

  /** `handleExport` as written, unless a field holds a line break: the
      header line, then one line per record of the year, in order, whose
      rank cell is the quoted `prize` text, `""` when the field is absent. */
  lemma ExportWinnersLines(ws: seq<Winner>, year: string, formatTime: string -> string)
    requires forall i :: 0 <= i < |ws| ==> SingleLineFields(ws[i], formatTime, PrizeOf)
    ensures var shown := FilteredWinners(ws, year);
            var lines := Split(ExportWinners(ws, year, formatTime), '\n');
            |lines| == 1 + |shown| && lines[0] == Join(WinnerHeaders, ",") &&
            forall k :: 0 < k < |lines| ==>
              lines[k] == Join(QuoteCells([shown[k - 1].participant.tokenNo, shown[k - 1].participant.name,
                                           shown[k - 1].participant.phone, FieldText(shown[k - 1].prize),
                                           shown[k - 1].year, formatTime(shown[k - 1].assignedAt)]), ",")
  {
    ShownSingleLine(ws, year, formatTime, PrizeOf);
    ExportRowsLines(FilteredWinners(ws, year), formatTime, PrizeOf);
  }

  /** The intended export, unless a field holds a line break: the header
      line, then one line per record of the year, in order, whose rank cell
      is the quoted rank. */
  lemma ExportWinnersIntendedLines(ws: seq<Winner>, year: string, formatTime: string -> string)
    requires forall i :: 0 <= i < |ws| ==> SingleLineFields(ws[i], formatTime, RankOf)
    ensures var shown := FilteredWinners(ws, year);
            var lines := Split(ExportWinnersIntended(ws, year, formatTime), '\n');
            |lines| == 1 + |shown| && lines[0] == Join(WinnerHeaders, ",") &&
            forall k :: 0 < k < |lines| ==>
              lines[k] == Join(QuoteCells([shown[k - 1].participant.tokenNo, shown[k - 1].participant.name,
                                           shown[k - 1].participant.phone, shown[k - 1].rank,
                                           shown[k - 1].year, formatTime(shown[k - 1].assignedAt)]), ",")
  {
    ShownSingleLine(ws, year, formatTime, RankOf);
    ExportRowsLines(FilteredWinners(ws, year), formatTime, RankOf);
  }

  const DefaultColor := "bg-gray-100 text-gray-800 border-gray-200"

  /** `getRankColor`: the badge colours of the five ranks, gray for any
      other text; gray is also the colour of the 2nd prize. */
  function RankColor(rank: string): (c: string)
    ensures rank !in RankLabels() ==> c == DefaultColor
    ensures c == DefaultColor <==> rank !in ["1st Prize", "3rd Prize", "Consolation Prize", "Special Prize"]
  {
    var colors := map[
      "1st Prize" := "bg-yellow-100 text-yellow-800 border-yellow-200",
      "2nd Prize" := "bg-gray-100 text-gray-800 border-gray-200",
      "3rd Prize" := "bg-orange-100 text-orange-800 border-orange-200",
      "Consolation Prize" := "bg-blue-100 text-blue-800 border-blue-200",
      "Special Prize" := "bg-purple-100 text-purple-800 border-purple-200"];
    if rank in colors && colors[rank] != "" then colors[rank] else DefaultColor
  }

  /** The delete button: when confirmed, the record's id is handed on. */
  function DeleteRequest(w: Winner, confirmed: bool): (r: Option<string>)
    ensures r.Some? <==> confirmed
    ensures r.Some? ==> r.value == w.id
  {
    if confirmed then Some(w.id) else None
  }
}
